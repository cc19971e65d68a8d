// The user program that creates the threads one after the other, joins them in the same order
// and then asserts that the shared counter is nthreads * niters.
module AtomicCounter {
  import opened Runs
  import C = CounterLoop

  type Tid = nat

  datatype Main = Creating(next: nat) | Joining(next: nat) | Asserting(expected: nat, total: nat)

  datatype State = State(core: C.State, main: Main)

  ghost predicate Init(s: State, nthreads: nat) {
    C.Init(s.core, nthreads) && s.main == Creating(0)
  }

  ghost predicate MainStep(s: State, s': State) {
    match s.main
    case Creating(next) =>
      s' == s.(main := if next < |s.core.pc| then Creating(next + 1) else Joining(0))
    case Joining(next) =>
      if next < |s.core.pc| then s.core.pc[next].Finished? && s' == s.(main := Joining(next + 1))
      else s' == s.(main := Asserting(|s.core.pc| * s.core.k % C.WORD, s.core.counter))
    case Asserting(_, _) => false
  }

  ghost predicate Created(s: State, t: Tid) {
    s.main.Creating? ==> t < s.main.next
  }

  ghost predicate ThreadStep(s: State, t: Tid, s': State)
    requires t < |s.core.pc|
  {
    Created(s, t) && C.Step(s.core, t, s'.core) && s' == s.(core := s'.core)
  }

  ghost predicate Next(s: State, s': State) {
    MainStep(s, s') || exists t: Tid :: t < |s.core.pc| && ThreadStep(s, t, s')
  }

  ghost predicate Reachable(s: State, nthreads: nat) {
    exists s0 :: Init(s0, nthreads) && Leads(Next, s0, s)
  }

  ghost predicate Joined(s: State, t: Tid)
    requires t < |s.core.pc|
  {
    s.core.pc[t].Finished?
  }

  ghost predicate Inv(s: State, nthreads: nat) {
    && |s.core.pc| == nthreads
    && C.Inv(s.core)
    && (s.main.Joining? ==>
          s.main.next <= nthreads && forall t | 0 <= t < s.main.next :: Joined(s, t))
    && (s.main.Asserting? ==>
          && (forall t | 0 <= t < nthreads :: Joined(s, t))
          && s.main.total == s.core.counter && s.main.expected == nthreads * s.core.k % C.WORD)
  }

  lemma StepsBeforeAssertion(s: State, nthreads: nat, t: Tid, s': State)
    requires Inv(s, nthreads) && t < |s.core.pc| && ThreadStep(s, t, s')
    ensures !s.main.Asserting? && !Joined(s, t)
  {
    assert !Joined(s, t);
  }

  lemma StepKeepsInv(s: State, nthreads: nat, s': State)
    requires Inv(s, nthreads) && Next(s, s')
    ensures Inv(s', nthreads)
  {
    if MainStep(s, s') {
      forall t | 0 <= t < nthreads && Joined(s, t)
        ensures Joined(s', t)
      {
      }
    } else {
      var u: Tid :| u < |s.core.pc| && ThreadStep(s, u, s');
      StepsBeforeAssertion(s, nthreads, u, s');
      C.StepKeepsInv(s.core, u, s'.core);
      C.StepEffect(s.core, u, s'.core);
      forall t | 0 <= t < nthreads && Joined(s, t)
        ensures Joined(s', t)
      {
      }
    }
  }

  lemma ReachableInv(s: State, nthreads: nat)
    requires Reachable(s, nthreads)
    ensures Inv(s, nthreads)
  {
    var s0 :| Init(s0, nthreads) && Leads(Next, s0, s);
    C.InitInv(s0.core, nthreads);
    var inv := (a: State) => Inv(a, nthreads);
    forall a, b | inv(a) && Next(a, b) ensures inv(b) {
      StepKeepsInv(a, nthreads, b);
    }
    LeadsKeeps(Next, inv, s0, s);
  }

  // A thread that has not been created has not begun.
  ghost predicate Early(s: State) {
    forall t: Tid | t < |s.core.pc| && !Created(s, t) :: s.core.pc[t] == C.Loop(0)
  }

  lemma NextKeepsEarly(s: State, s': State)
    requires Early(s) && Next(s, s')
    ensures Early(s')
  {
    if !MainStep(s, s') {
      var t: Tid :| t < |s.core.pc| && ThreadStep(s, t, s');
      OthersStay(s.core, t, s'.core);
    }
  }

  lemma OthersStay(a: C.State, t: Tid, b: C.State)
    requires t < |a.pc| && C.Step(a, t, b)
    ensures |b.pc| == |a.pc| && forall u: Tid | u < |a.pc| && u != t :: b.pc[u] == a.pc[u]
  {
  }

  lemma NoThreadBeginsEarly(s: State, nthreads: nat)
    requires Reachable(s, nthreads)
    ensures |s.core.pc| == nthreads
    ensures s.main.Creating? ==> forall t: Tid | s.main.next <= t < nthreads :: s.core.pc[t] == C.Loop(0)
  {
    ReachableInv(s, nthreads);
    var s0 :| Init(s0, nthreads) && Leads(Next, s0, s);
    forall a, b | Early(a) && Next(a, b) ensures Early(b) {
      NextKeepsEarly(a, b);
    }
    LeadsKeeps(Next, Early, s0, s);
  }

  // The final assertion holds for the mutex, for the atomic instructions and for the exclusive
  // load and store, whose store may fail at any time and must fail after another core's store.
  lemma AssertionHolds(s: State, nthreads: nat)
    requires Reachable(s, nthreads) && s.main.Asserting? && !s.core.mode.Unsynchronised?
    ensures s.main.total == s.main.expected == nthreads * s.core.k % C.WORD
  {
    ReachableInv(s, nthreads);
    forall t | 0 <= t < |s.core.pc|
      ensures s.core.pc[t].Finished?
    {
      assert Joined(s, t);
    }
    C.ExactCount(s.core);
  }

  function MainLeft(s: State): nat {
    match s.main
    case Creating(next) => |s.core.pc| + 2 + if next < |s.core.pc| then |s.core.pc| - next else 0
    case Joining(next) => 1 + if next < |s.core.pc| then |s.core.pc| - next else 0
    case Asserting(_, _) => 0
  }

  predicate Nearer(s: State, s': State) {
    MainLeft(s') < MainLeft(s) || (MainLeft(s') == MainLeft(s) && C.Closer(s.core, s'.core))
  }

  // The threads never block one another for good: until the assertion some step is possible that
  // brings it nearer.
  lemma NeverStuck(s: State, nthreads: nat) returns (s': State)
    requires Reachable(s, nthreads) && !s.main.Asserting?
    ensures Next(s, s') && Nearer(s, s')
  {
    ReachableInv(s, nthreads);
    match s.main {
      case Creating(next) =>
        s' := s.(main := if next < nthreads then Creating(next + 1) else Joining(0));
      case Joining(next) =>
        if next == nthreads {
          s' := s.(main := Asserting(|s.core.pc| * s.core.k % C.WORD, s.core.counter));
        } else if s.core.pc[next].Finished? {
          s' := s.(main := Joining(next + 1));
        } else {
          var u, core := C.SomeStepIsCloser(s.core, next);
          s' := s.(core := core);
          C.StepKeepsInv(s.core, u, core);
          assert ThreadStep(s, u, s');
        }
    }
  }

  // From wherever a run has got to, it can be continued to the assertion.
  lemma {:induction false} CanFinish(s: State, nthreads: nat) returns (m: State)
    requires Reachable(s, nthreads)
    ensures Leads(Next, s, m) && m.main.Asserting?
    decreases MainLeft(s), C.LeftAll(s.core.pc, s.core.k), C.StepsAll(s.core, |s.core.pc|)
  {
    if s.main.Asserting? {
      LeadsToSelf(Next, s);
      m := s;
    } else {
      var s' := NeverStuck(s, nthreads);
      var s0 :| Init(s0, nthreads) && Leads(Next, s0, s);
      LeadsOn(Next, s0, s, s');
      m := CanFinish(s', nthreads);
      LeadsFrom(Next, s, s', m);
    }
  }
}
