// Runs of a state machine, given by its relation between a state and the next.
module Runs {
  ghost predicate StepAt<S(!new)>(next: (S, S) -> bool, tr: seq<S>, i: int)
    requires 0 < i < |tr|
  {
    next(tr[i - 1], tr[i])
  }

  // Each state follows from the one before.
  ghost predicate Path<S(!new)>(next: (S, S) -> bool, tr: seq<S>) {
    forall i {:trigger StepAt(next, tr, i)} | 0 < i < |tr| :: StepAt(next, tr, i)
  }

  ghost predicate Joins<S(!new)>(next: (S, S) -> bool, tr: seq<S>, s: S, s': S) {
    |tr| > 0 && Path(next, tr) && tr[0] == s && tr[|tr| - 1] == s'
  }

  // Some run goes from the one state to the other.
  ghost predicate Leads<S(!new)>(next: (S, S) -> bool, s: S, s': S) {
    exists tr: seq<S> :: Joins(next, tr, s, s')
  }

  ghost predicate Preserves<S(!new)>(next: (S, S) -> bool, inv: S -> bool) {
    forall s, s' | inv(s) && next(s, s') :: inv(s')
  }

  lemma LeadsToSelf<S(!new)>(next: (S, S) -> bool, s: S)
    ensures Leads(next, s, s)
  {
    assert Joins(next, [s], s, s);
  }

  lemma PathAppend<S(!new)>(next: (S, S) -> bool, tr: seq<S>, s': S)
    requires |tr| > 0 && Path(next, tr) && next(tr[|tr| - 1], s')
    ensures Path(next, tr + [s'])
  {
    var longer := tr + [s'];
    forall i | 0 < i < |longer| ensures StepAt(next, longer, i) {
      if i < |tr| {
        assert StepAt(next, tr, i);
        assert longer[i - 1] == tr[i - 1] && longer[i] == tr[i];
      } else {
        assert longer[i - 1] == tr[|tr| - 1] && longer[i] == s';
      }
    }
  }

  lemma PathPrepend<S(!new)>(next: (S, S) -> bool, s: S, tr: seq<S>)
    requires |tr| > 0 && Path(next, tr) && next(s, tr[0])
    ensures Path(next, [s] + tr)
  {
    forall i | 0 < i < |[s] + tr| ensures StepAt(next, [s] + tr, i) {
      assert i > 1 ==> StepAt(next, tr, i - 1);
    }
  }

  lemma LeadsOn<S(!new)>(next: (S, S) -> bool, s: S, m: S, s': S)
    requires Leads(next, s, m) && next(m, s')
    ensures Leads(next, s, s')
  {
    var tr: seq<S> :| Joins(next, tr, s, m);
    PathAppend(next, tr, s');
    assert Joins(next, tr + [s'], s, s');
  }

  lemma LeadsFrom<S(!new)>(next: (S, S) -> bool, s: S, m: S, s': S)
    requires next(s, m) && Leads(next, m, s')
    ensures Leads(next, s, s')
  {
    var tr: seq<S> :| Joins(next, tr, m, s');
    PathPrepend(next, s, tr);
    assert Joins(next, [s] + tr, s, s');
  }

  lemma {:induction false} PathKeeps<S(!new)>(next: (S, S) -> bool, inv: S -> bool, tr: seq<S>, i: nat)
    requires Path(next, tr) && i < |tr| && inv(tr[0]) && Preserves(next, inv)
    ensures inv(tr[i])
  {
    if i > 0 {
      PathKeeps(next, inv, tr, i - 1);
      assert StepAt(next, tr, i);
    }
  }

  // An invariant holds wherever a run from a state that has it may lead.
  lemma LeadsKeeps<S(!new)>(next: (S, S) -> bool, inv: S -> bool, s: S, s': S)
    requires Leads(next, s, s') && inv(s) && Preserves(next, inv)
    ensures inv(s')
  {
    var tr: seq<S> :| Joins(next, tr, s, s');
    PathKeeps(next, inv, tr, |tr| - 1);
  }

  // Steps of one relation are steps of a wider one.
  lemma LeadsWider<S(!new)>(next: (S, S) -> bool, wider: (S, S) -> bool, s: S, s': S)
    requires Leads(next, s, s') && forall a, b | next(a, b) :: wider(a, b)
    ensures Leads(wider, s, s')
  {
    var tr: seq<S> :| Joins(next, tr, s, s');
    forall i | 0 < i < |tr| ensures StepAt(wider, tr, i) {
      assert StepAt(next, tr, i);
    }
    assert Joins(wider, tr, s, s');
  }
}
