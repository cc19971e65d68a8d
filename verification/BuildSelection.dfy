// The dependency resolver of `build`: breadth-first expansion with no visited set, each popped
// component put in front, then the first occurrence of each component kept.
module BuildSelection {
  type Name = string

  // The dependencies of each component, in the order a pass over them meets them.
  type Graph = map<Name, seq<Name>>

  ghost predicate Closed(g: Graph) {
    forall c, d | c in g && d in g[c] :: d in g
  }

  // ---- Reachability ----

  ghost predicate IsPath(g: Graph, p: seq<Name>) {
    && |p| > 0
    && (forall i | 0 <= i < |p| :: p[i] in g)
    && (forall i | 0 <= i < |p| - 1 :: p[i + 1] in g[p[i]])
  }

  ghost predicate Reaches(g: Graph, a: Name, b: Name) {
    exists p :: IsPath(g, p) && p[0] == a && p[|p| - 1] == b
  }

  ghost predicate Repeats(p: seq<Name>) {
    exists i, j :: 0 <= i < j < |p| && p[i] == p[j]
  }

  // Some walk from `c` comes back to a component it has met.
  ghost predicate ReachesCycle(g: Graph, c: Name) {
    exists p :: IsPath(g, p) && p[0] == c && Repeats(p)
  }

  lemma ReachesSelf(g: Graph, c: Name)
    requires c in g
    ensures Reaches(g, c, c)
  {
    assert IsPath(g, [c]);
  }

  lemma SubPath(g: Graph, p: seq<Name>, i: nat, j: nat)
    requires IsPath(g, p) && i < j <= |p|
    ensures IsPath(g, p[i..j])
  {
    var q := p[i..j];
    forall k | 0 <= k < |q| - 1 ensures q[k + 1] in g[q[k]] {
      assert p[i + k + 1] in g[p[i + k]];
    }
  }

  lemma AppendToPath(g: Graph, p: seq<Name>, d: Name)
    requires Closed(g) && IsPath(g, p) && d in g[p[|p| - 1]]
    ensures IsPath(g, p + [d])
  {
    var q := p + [d];
    forall k | 0 <= k < |q| - 1 ensures q[k + 1] in g[q[k]] {
      if k < |p| - 1 {
        assert p[k + 1] in g[p[k]];
      }
    }
  }

  lemma ReachesStep(g: Graph, a: Name, b: Name, d: Name)
    requires Closed(g) && Reaches(g, a, b) && b in g && d in g[b]
    ensures Reaches(g, a, d)
  {
    var p :| IsPath(g, p) && p[0] == a && p[|p| - 1] == b;
    AppendToPath(g, p, d);
    assert (p + [d])[0] == a;
  }

  // A set that holds `a` and all dependencies of what it holds has everything reachable from `a`.
  lemma {:induction false} ClosureHolds(g: Graph, s: set<Name>, p: seq<Name>)
    requires IsPath(g, p) && p[0] in s
    requires forall c, d | c in s && c in g && d in g[c] :: d in s
    ensures p[|p| - 1] in s
  {
    if |p| > 1 {
      assert p[1] in g[p[0]];
      ClosureHolds(g, s, p[1..]);
    }
  }

  // A component that reaches a cycle has a dependency that does.
  lemma CycleStep(g: Graph, c: Name) returns (d: Name)
    requires Closed(g) && ReachesCycle(g, c)
    ensures c in g && d in g[c] && ReachesCycle(g, d)
  {
    var p :| IsPath(g, p) && p[0] == c && Repeats(p);
    var i, j :| 0 <= i < j < |p| && p[i] == p[j];
    d := p[1];
    assert p[0 + 1] in g[p[0]];
    if i > 0 {
      var q := p[1..];
      SubPath(g, p, 1, |p|);
      assert q[i - 1] == q[j - 1];
    } else {
      var a := p[1..j + 1];
      SubPath(g, p, 1, j + 1);
      AppendToPath(g, a, d);
      assert (a + [d])[0] == d && (a + [d])[j] == d;
    }
  }

  // And conversely: what depends on a component that reaches a cycle reaches it too.
  lemma CycleBack(g: Graph, c: Name, d: Name)
    requires c in g && d in g[c] && ReachesCycle(g, d)
    ensures ReachesCycle(g, c)
  {
    var p :| IsPath(g, p) && p[0] == d && Repeats(p);
    var i, j :| 0 <= i < j < |p| && p[i] == p[j];
    var q := [c] + p;
    assert q[i + 1] == q[j + 1];
    forall k | 0 <= k < |q| - 1 ensures q[k + 1] in g[q[k]] {
      if k > 0 {
        assert p[k - 1 + 1] in g[p[k - 1]];
      }
    }
    assert IsPath(g, q);
  }

  // ---- A rank for the components that reach no cycle ----

  ghost predicate IsRank(g: Graph, rank: map<Name, nat>) {
    forall c | c in rank :: c in g && forall d | d in g[c] :: d in rank && rank[d] < rank[c]
  }

  ghost predicate Sink(g: Graph, t: set<Name>, c: Name)
    requires c in g
  {
    forall d | d in g[c] :: d !in t
  }

  // If everything in `t` has a dependency in `t`, walks in `t` go on for ever.
  lemma {:induction false} LongWalk(g: Graph, t: set<Name>, c: Name, n: nat) returns (p: seq<Name>)
    requires c in t && (forall x | x in t :: x in g)
    requires forall x {:trigger Sink(g, t, x)} | x in t :: !Sink(g, t, x)
    ensures IsPath(g, p) && p[0] == c && |p| == n + 1 && forall i | 0 <= i < |p| :: p[i] in t
    decreases n
  {
    if n == 0 {
      p := [c];
    } else {
      assert !Sink(g, t, c);
      var d :| d in g[c] && d in t;
      var q := LongWalk(g, t, d, n - 1);
      p := [c] + q;
      forall k | 0 <= k < |p| - 1 ensures p[k + 1] in g[p[k]] {
        if k > 0 {
          assert q[k - 1 + 1] in g[q[k - 1]];
        }
      }
    }
  }

  lemma {:induction false} Pigeonhole(p: seq<Name>, t: set<Name>)
    requires |p| > |t| && forall i | 0 <= i < |p| :: p[i] in t
    ensures Repeats(p)
    decreases |p|
  {
    var last := |p| - 1;
    if i :| 0 <= i < last && p[i] == p[last] {
      assert Repeats(p);
    } else {
      Pigeonhole(p[..last], t - {p[last]});
      var i, j :| 0 <= i < j < last && p[..last][i] == p[..last][j];
      assert p[i] == p[j];
    }
  }

  lemma SinkExists(g: Graph, t: set<Name>) returns (c: Name)
    requires t != {} && forall x | x in t :: x in g && !ReachesCycle(g, x)
    ensures c in t && Sink(g, t, c)
  {
    if c' :| c' in t && Sink(g, t, c') {
      c := c';
    } else {
      c :| c in t;
      var p := LongWalk(g, t, c, |t|);
      Pigeonhole(p, t);
      assert false;
    }
  }

  ghost function Acyclic(g: Graph): set<Name> {
    set c | c in g && !ReachesCycle(g, c)
  }

  lemma RankOneMore(g: Graph, rank: map<Name, nat>, c: Name) returns (r: map<Name, nat>)
    requires IsRank(g, rank) && forall x | x in rank :: rank[x] < |rank|
    requires c !in rank && c in g && forall d | d in g[c] :: d in rank
    ensures IsRank(g, r) && r.Keys == rank.Keys + {c} && forall x | x in r :: r[x] < |r|
  {
    r := rank[c := |rank|];
    assert r.Keys == rank.Keys + {c};
    assert |r| == |r.Keys| == |rank.Keys| + 1;
    forall x | x in r ensures x in g && forall d | d in g[x] :: d in r && r[d] < r[x] {
    }
  }

  // While some acyclic component has no rank, there is one whose dependencies all have.
  lemma NextToRank(g: Graph, ranked: set<Name>, t: set<Name>) returns (c: Name)
    requires Closed(g) && ranked + t == Acyclic(g) && t != {}
    ensures c in t && c in g && forall d | d in g[c] :: d in ranked
  {
    c := SinkExists(g, t);
    forall d | d in g[c] ensures d in ranked {
      if ReachesCycle(g, d) {
        CycleBack(g, c, d);
      }
      assert d in Acyclic(g);
    }
  }

  // `rank` covers `ranked` with values below their number.
  ghost predicate Ranks(g: Graph, rank: map<Name, nat>, ranked: set<Name>) {
    IsRank(g, rank) && rank.Keys == ranked && forall c | c in rank :: rank[c] < |rank|
  }

  lemma RankNext(g: Graph, rank: map<Name, nat>, ranked: set<Name>, t: set<Name>)
    returns (more: map<Name, nat>, c: Name)
    requires Closed(g) && Ranks(g, rank, ranked) && ranked + t == Acyclic(g) && ranked !! t && t != {}
    ensures c in t && Ranks(g, more, ranked + {c})
  {
    c := NextToRank(g, ranked, t);
    more := RankOneMore(g, rank, c);
  }

  lemma MoveOne(all: set<Name>, ranked: set<Name>, t: set<Name>, c: Name)
    requires ranked + t == all && ranked !! t && c in t
    ensures ranked + {c} + (t - {c}) == all && ranked + {c} !! t - {c} && |t - {c}| < |t|
  {
  }

  lemma {:induction false} ExtendRank(g: Graph, rank: map<Name, nat>, ranked: set<Name>, t: set<Name>)
    returns (full: map<Name, nat>)
    requires Closed(g) && Ranks(g, rank, ranked) && ranked + t == Acyclic(g) && ranked !! t
    ensures Ranks(g, full, Acyclic(g))
    decreases |t|
  {
    if t == {} {
      full := rank;
    } else {
      var more, c := RankNext(g, rank, ranked, t);
      MoveOne(Acyclic(g), ranked, t, c);
      full := ExtendRank(g, more, ranked + {c}, t - {c});
    }
  }

  lemma Rank(g: Graph) returns (rank: map<Name, nat>)
    requires Closed(g)
    ensures Ranks(g, rank, Acyclic(g))
  {
    rank := ExtendRank(g, map[], {}, Acyclic(g));
  }

  // ---- How much expansion is left ----

  // The number of times the expansion of `c` pops a component: one for `c`, and the expansion of
  // each dependency. `r` bounds the ranks of a list.
  ghost function Weight(g: Graph, rank: map<Name, nat>, c: Name): nat
    requires IsRank(g, rank) && c in rank
    decreases rank[c], |g[c]| + 1
  {
    1 + Weights(g, rank, g[c], rank[c])
  }

  ghost function Weights(g: Graph, rank: map<Name, nat>, cs: seq<Name>, r: nat): nat
    requires IsRank(g, rank) && forall c | c in cs :: c in rank && rank[c] < r
    decreases r, |cs|
  {
    if cs == [] then 0 else Weight(g, rank, cs[0]) + Weights(g, rank, cs[1..], r)
  }

  lemma {:induction false} WeightsBound(g: Graph, rank: map<Name, nat>, cs: seq<Name>, r: nat, r': nat)
    requires IsRank(g, rank) && r <= r' && forall c | c in cs :: c in rank && rank[c] < r
    ensures Weights(g, rank, cs, r) == Weights(g, rank, cs, r')
    decreases |cs|
  {
    if cs != [] {
      WeightsBound(g, rank, cs[1..], r, r');
    }
  }

  lemma {:induction false} WeightsConcat(g: Graph, rank: map<Name, nat>, a: seq<Name>, b: seq<Name>, r: nat)
    requires IsRank(g, rank) && forall c | c in a + b :: c in rank && rank[c] < r
    ensures forall c | c in a || c in b :: c in a + b
    ensures Weights(g, rank, a + b, r) == Weights(g, rank, a, r) + Weights(g, rank, b, r)
    decreases |a|
  {
    if a == [] {
      assert a + b == b;
    } else {
      assert (a + b)[1..] == a[1..] + b;
      WeightsConcat(g, rank, a[1..], b, r);
    }
  }

  // Popping a component and pushing its dependencies leaves one pop less to do.
  lemma PopWeighs(g: Graph, rank: map<Name, nat>, todo: seq<Name>, r: nat)
    requires IsRank(g, rank) && todo != [] && forall c | c in todo :: c in rank && rank[c] < r
    ensures forall c | c in todo[1..] + g[todo[0]] :: c in rank && rank[c] < r
    ensures Weights(g, rank, todo, r) == 1 + Weights(g, rank, todo[1..] + g[todo[0]], r)
  {
    var c := todo[0];
    assert rank[c] < r;
    WeightsBound(g, rank, g[c], rank[c], r);
    WeightsConcat(g, rank, todo[1..], g[c], r);
  }

  // ---- The selection loop ----

  // One round: pop the front of `todo`, put it in front of `selected`, push its dependencies.
  datatype Progress = Progress(todo: seq<Name>, selected: seq<Name>)

  function Round(g: Graph, s: Progress): Progress
    requires s.todo != [] ==> s.todo[0] in g
  {
    if s.todo == [] then s
    else Progress(s.todo[1..] + g[s.todo[0]], [s.todo[0]] + s.selected)
  }

  ghost predicate Known(g: Graph, s: Progress) {
    forall c | c in s.todo :: c in g
  }

  ghost function Rounds(g: Graph, s: Progress, n: nat): (r: Progress)
    requires Closed(g) && Known(g, s)
    ensures Known(g, r)
    decreases n
  {
    if n == 0 then s else Rounds(g, Round(g, s), n - 1)
  }

  // With a cycle in reach the loop never runs out of work.
  lemma {:induction false} CycleNeverEnds(g: Graph, s: Progress, c: Name, n: nat)
    requires Closed(g) && Known(g, s) && c in s.todo && ReachesCycle(g, c)
    ensures Rounds(g, s, n).todo != []
    decreases n
  {
    if n > 0 {
      var s' := Round(g, s);
      if c == s.todo[0] {
        var d := CycleStep(g, c);
        assert d in s'.todo;
        CycleNeverEnds(g, s', d, n - 1);
      } else {
        assert c in s.todo[1..];
        assert c in s'.todo;
        CycleNeverEnds(g, s', c, n - 1);
      }
    }
  }

  // Without one it ends, after as many rounds as the work weighs.
  lemma {:induction false} RankedEnds(g: Graph, rank: map<Name, nat>, s: Progress, r: nat)
    requires Closed(g) && Known(g, s) && IsRank(g, rank) && forall c | c in s.todo :: c in rank && rank[c] < r
    ensures Rounds(g, s, Weights(g, rank, s.todo, r)).todo == []
    decreases Weights(g, rank, s.todo, r)
  {
    if s.todo != [] {
      PopWeighs(g, rank, s.todo, r);
      RankedEnds(g, rank, Round(g, s), r);
    }
  }

  // The expansion of a requested component ends if and only if it reaches no cycle.
  lemma TerminatesIff(g: Graph, c: Name, selected: seq<Name>)
    requires Closed(g) && c in g
    ensures (exists n: nat :: Rounds(g, Progress([c], selected), n).todo == []) <==> !ReachesCycle(g, c)
  {
    var s := Progress([c], selected);
    if ReachesCycle(g, c) {
      forall n: nat ensures Rounds(g, s, n).todo != [] {
        CycleNeverEnds(g, s, c, n);
      }
    } else {
      var rank := Rank(g);
      assert c in Acyclic(g);
      RankedEnds(g, rank, s, |rank|);
    }
  }

  // Two components that need each other: the expansion of either goes on for ever.
  lemma TwoInACircle(n: nat)
    ensures var g: Graph := map["a" := ["b"], "b" := ["a"]];
            Closed(g) && ReachesCycle(g, "a") && Rounds(g, Progress(["a"], []), n).todo != []
  {
    var g: Graph := map["a" := ["b"], "b" := ["a"]];
    var p := ["a", "b", "a"];
    assert IsPath(g, p) && p[0] == p[2];
    TerminatesIff(g, "a", []);
  }

  // Every dependency of what is selected stands before it, or is still to do.
  ghost predicate DepsBefore(g: Graph, selected: seq<Name>, todo: seq<Name>) {
    forall i, d | 0 <= i < |selected| && selected[i] in g && d in g[selected[i]] ::
      d in selected[..i] || d in todo
  }

  lemma RoundKeepsDeps(g: Graph, s: Progress)
    requires s.todo != [] && s.todo[0] in g && DepsBefore(g, s.selected, s.todo)
    ensures DepsBefore(g, Round(g, s).selected, Round(g, s).todo)
  {
    var s' := Round(g, s);
    var c := s.todo[0];
    forall i, d | 0 <= i < |s'.selected| && s'.selected[i] in g && d in g[s'.selected[i]]
      ensures d in s'.selected[..i] || d in s'.todo
    {
      if i > 0 {
        assert d in g[s.selected[i - 1]];
        assert d in s.selected[..i - 1] || d in s.todo;
        assert s'.selected[..i] == [c] + s.selected[..i - 1];
        assert s.todo == [c] + s.todo[1..];
      }
    }
  }

  // `selected`, with what is left in `todo`, covers the first `k` requests and holds nothing that
  // they do not reach.
  ghost predicate Covers(g: Graph, requested: seq<Name>, k: nat, s: Progress)
    requires k <= |requested|
  {
    && (forall i | 0 <= i < k :: requested[i] in s.selected || requested[i] in s.todo)
    && (forall c | c in s.selected || c in s.todo :: c in g && ReachedFrom(g, requested[..k], c))
  }

  ghost predicate ReachedFrom(g: Graph, requested: seq<Name>, c: Name) {
    exists r :: r in requested && Reaches(g, r, c)
  }

  lemma RoundKeepsCover(g: Graph, requested: seq<Name>, k: nat, s: Progress)
    requires Closed(g) && k <= |requested| && s.todo != [] && Covers(g, requested, k, s)
    ensures Covers(g, requested, k, Round(g, s))
  {
    var s' := Round(g, s);
    var c := s.todo[0];
    assert s.todo == [c] + s.todo[1..];
    var r :| r in requested[..k] && Reaches(g, r, c);
    forall d | d in s'.selected || d in s'.todo ensures d in g && ReachedFrom(g, requested[..k], d) {
      if d in g[c] {
        ReachesStep(g, r, c, d);
      }
    }
  }

  lemma RequestKeepsCover(g: Graph, requested: seq<Name>, k: nat, selected: seq<Name>)
    requires k < |requested| && requested[k] in g && Covers(g, requested, k, Progress([], selected))
    ensures Covers(g, requested, k + 1, Progress([requested[k]], selected))
  {
    ReachesSelf(g, requested[k]);
    assert requested[k] in requested[..k + 1];
    forall c | c in selected ensures ReachedFrom(g, requested[..k + 1], c) {
      var r :| r in requested[..k] && Reaches(g, r, c);
      assert r in requested[..k + 1];
    }
  }

  // ---- Breadth first ----

  // The dependencies of a list of components, one after the other.
  function Deps(g: Graph, level: seq<Name>): seq<Name>
    requires forall c | c in level :: c in g
  {
    if level == [] then [] else Deps(g, level[..|level| - 1]) + g[level[|level| - 1]]
  }

  lemma {:induction false} DepsKnown(g: Graph, level: seq<Name>)
    requires Closed(g) && forall c | c in level :: c in g
    ensures forall d :: d in Deps(g, level) <==> exists c :: c in level && d in g[c]
    ensures forall d | d in Deps(g, level) :: d in g
  {
    if level != [] {
      var n := |level| - 1;
      DepsKnown(g, level[..n]);
      assert level == level[..n] + [level[n]];
    }
  }

  lemma DepsSnoc(g: Graph, done: seq<Name>, c: Name)
    requires c in g && forall d | d in done :: d in g
    ensures forall d | d in done + [c] :: d in g
    ensures Deps(g, done + [c]) == Deps(g, done) + g[c]
  {
    assert (done + [c])[..|done|] == done;
  }

  // What stands `d` dependencies away from `c`.
  ghost function Level(g: Graph, c: Name, d: nat): (level: seq<Name>)
    requires Closed(g) && c in g
    ensures forall x | x in level :: x in g
    decreases d
  {
    if d == 0 then [c]
    else
      var above := Level(g, c, d - 1);
      DepsKnown(g, above);
      Deps(g, above)
  }

  ghost function Levels(g: Graph, c: Name, d: nat): seq<Name>
    requires Closed(g) && c in g
    decreases d
  {
    if d == 0 then [] else Levels(g, c, d - 1) + Level(g, c, d - 1)
  }

  // Level `d` holds the ends of the walks of that length.
  lemma {:induction false} LevelIsDistance(g: Graph, c: Name, d: nat, x: Name)
    requires Closed(g) && c in g
    ensures x in Level(g, c, d) <==> exists p :: IsPath(g, p) && |p| == d + 1 && p[0] == c && p[d] == x
    decreases d
  {
    if d == 0 {
      assert x == c ==> IsPath(g, [c]) && [c][0] == x;
    } else {
      DepsKnown(g, Level(g, c, d - 1));
      if x in Level(g, c, d) {
        var y :| y in Level(g, c, d - 1) && x in g[y];
        LevelIsDistance(g, c, d - 1, y);
        var p :| IsPath(g, p) && |p| == d && p[0] == c && p[d - 1] == y;
        AppendToPath(g, p, x);
        assert (p + [x])[0] == c && (p + [x])[d] == x;
      }
      if p :| IsPath(g, p) && |p| == d + 1 && p[0] == c && p[d] == x {
        assert p[d - 1 + 1] in g[p[d - 1]];
        SubPath(g, p, 0, d);
        assert p[0..d][0] == c && p[0..d][d - 1] == p[d - 1];
        LevelIsDistance(g, c, d - 1, p[d - 1]);
      }
    }
  }

  function Reversed(s: seq<Name>): seq<Name> {
    if s == [] then [] else [s[|s| - 1]] + Reversed(s[..|s| - 1])
  }

  lemma ReversedSnoc(s: seq<Name>, c: Name)
    ensures Reversed(s + [c]) == [c] + Reversed(s)
  {
    assert (s + [c])[..|s|] == s;
  }

  // The loop is about to pop `rest`, after `done`, both of level `d`.
  ghost predicate AtLevel(g: Graph, c: Name, s: Progress, before: seq<Name>, d: nat, done: seq<Name>, rest: seq<Name>)
    requires Closed(g) && c in g
  {
    && Level(g, c, d) == done + rest && (forall x | x in done :: x in g)
    && s.todo == rest + Deps(g, done)
    && s.selected == Reversed(Levels(g, c, d) + done) + before
  }

  lemma NextLevel(g: Graph, c: Name, s: Progress, before: seq<Name>, d: nat, done: seq<Name>)
    requires Closed(g) && c in g && AtLevel(g, c, s, before, d, done, [])
    ensures AtLevel(g, c, s, before, d + 1, [], s.todo)
  {
    assert done + [] == done && [] + Deps(g, done) == s.todo && s.todo + [] == s.todo && [] + s.todo == s.todo;
    assert Levels(g, c, d + 1) + [] == Levels(g, c, d) + done;
  }

  lemma RoundInLevel(g: Graph, c: Name, s: Progress, before: seq<Name>, d: nat, done: seq<Name>, rest: seq<Name>)
    requires Closed(g) && c in g && AtLevel(g, c, s, before, d, done, rest) && rest != []
    ensures s.todo != [] && s.todo[0] == rest[0] && rest[0] in g
    ensures AtLevel(g, c, Round(g, s), before, d, done + [rest[0]], rest[1..])
  {
    var x := rest[0];
    assert x in Level(g, c, d);
    DepsSnoc(g, done, x);
    assert s.todo[1..] == rest[1..] + Deps(g, done);
    assert rest[1..] + Deps(g, done) + g[x] == rest[1..] + (Deps(g, done) + g[x]);
    assert done + rest == done + [x] + rest[1..];
    assert Levels(g, c, d) + done + [x] == Levels(g, c, d) + (done + [x]);
    ReversedSnoc(Levels(g, c, d) + done, x);
    assert [x] + (Reversed(Levels(g, c, d) + done) + before) == [x] + Reversed(Levels(g, c, d) + done) + before;
  }

  // What the loop for one request puts in front: everything reached, level by level, the furthest
  // first.
  ghost predicate PutsInFront(g: Graph, c: Name, before: seq<Name>, selected: seq<Name>)
    requires Closed(g) && c in g
  {
    exists d: nat :: Level(g, c, d) == [] && selected == Reversed(Levels(g, c, d)) + before
  }

  lemma LastLevel(g: Graph, c: Name, s: Progress, before: seq<Name>, d: nat, done: seq<Name>, rest: seq<Name>)
    requires Closed(g) && c in g && AtLevel(g, c, s, before, d, done, rest) && s.todo == []
    ensures PutsInFront(g, c, before, s.selected)
  {
    assert done + rest == done;
    assert Level(g, c, d + 1) == [];
    assert Levels(g, c, d + 1) == Levels(g, c, d) + done;
  }

  // The requests one after the other.
  ghost predicate Expands(g: Graph, requested: seq<Name>, selected: seq<Name>)
    requires Closed(g) && forall c | c in requested :: c in g
  {
    if requested == [] then selected == []
    else
      var n := |requested| - 1;
      exists before :: Expands(g, requested[..n], before) && PutsInFront(g, requested[n], before, selected)
  }

  // The inner loop of timed_main, for the k-th request: it pops what `todo` holds until it is
  // empty. `before` is what earlier requests selected.
  method ExpandOne(g: Graph, ghost requested: seq<Name>, ghost k: nat, c: Name, before: seq<Name>,
                   ghost rank: map<Name, nat>)
    returns (selected: seq<Name>)
    requires Closed(g) && IsRank(g, rank) && c in rank && rank[c] < |rank|
    requires k < |requested| && Covers(g, requested, k + 1, Progress([c], before)) && DepsBefore(g, before, [])
    ensures DepsBefore(g, selected, [])
    ensures Covers(g, requested, k + 1, Progress([], selected))
    ensures PutsInFront(g, c, before, selected)
  {
    selected := before;
    var todo := [c];
    ghost var d, done, rest := 0, [], [c];
    assert [] + [c] == [c] && [c] + [] == [c] && [] + before == before;
    while todo != []
      invariant forall d | d in todo :: d in rank && rank[d] < |rank|
      invariant DepsBefore(g, selected, todo)
      invariant Covers(g, requested, k + 1, Progress(todo, selected))
      invariant AtLevel(g, c, Progress(todo, selected), before, d, done, rest)
      decreases Weights(g, rank, todo, |rank|)
    {
      if rest == [] {
        NextLevel(g, c, Progress(todo, selected), before, d, done);
        d, done, rest := d + 1, [], todo;
      }
      RoundInLevel(g, c, Progress(todo, selected), before, d, done, rest);
      done, rest := done + [rest[0]], rest[1..];
      RoundKeepsDeps(g, Progress(todo, selected));
      RoundKeepsCover(g, requested, k + 1, Progress(todo, selected));
      PopWeighs(g, rank, todo, |rank|);
      var current := todo[0];
      selected := [current] + selected;
      todo := todo[1..] + g[current];
    }
    LastLevel(g, c, Progress(todo, selected), before, d, done, rest);
  }

  // The selection loops of timed_main, before duplicates are removed.
  method Expand(g: Graph, requested: seq<Name>) returns (selected: seq<Name>)
    requires Closed(g) && forall c | c in requested :: c in g && !ReachesCycle(g, c)
    ensures DepsBefore(g, selected, [])
    ensures Covers(g, requested, |requested|, Progress([], selected))
    ensures Expands(g, requested, selected)
  {
    selected := [];
    ghost var rank := Rank(g);
    for k := 0 to |requested|
      invariant DepsBefore(g, selected, [])
      invariant Covers(g, requested, k, Progress([], selected))
      invariant Expands(g, requested[..k], selected)
    {
      RequestKeepsCover(g, requested, k, selected);
      assert requested[k] in Acyclic(g);
      assert requested[..k + 1][..k] == requested[..k];
      selected := ExpandOne(g, requested, k, requested[k], selected, rank);
    }
    assert requested[..|requested|] == requested;
  }

  // ---- Removing duplicates ----

  // The first occurrence of each element, in order: OrderedDict.fromkeys.
  function KeepFirst(s: seq<Name>): seq<Name> {
    if s == [] then []
    else
      var before := KeepFirst(s[..|s| - 1]);
      if s[|s| - 1] in before then before else before + [s[|s| - 1]]
  }

  function FirstAt(s: seq<Name>, x: Name): nat
    requires x in s
  {
    if s[0] == x then 0 else 1 + FirstAt(s[1..], x)
  }

  lemma {:induction false} FirstAtIs(s: seq<Name>, x: Name)
    requires x in s
    ensures FirstAt(s, x) < |s| && s[FirstAt(s, x)] == x && forall i | 0 <= i < FirstAt(s, x) :: s[i] != x
  {
    if s[0] != x {
      FirstAtIs(s[1..], x);
    }
  }

  lemma FirstAtUnique(s: seq<Name>, x: Name, i: nat)
    requires i < |s| && s[i] == x && forall j | 0 <= j < i :: s[j] != x
    ensures FirstAt(s, x) == i
  {
    FirstAtIs(s, x);
  }

  lemma FirstAtSnoc(s: seq<Name>, x: Name, y: Name)
    ensures x in s ==> FirstAt(s + [y], x) == FirstAt(s, x)
    ensures y !in s ==> FirstAt(s + [y], y) == |s|
  {
    if x in s {
      FirstAtIs(s, x);
      FirstAtUnique(s + [y], x, FirstAt(s, x));
    }
    if y !in s {
      FirstAtUnique(s + [y], y, |s|);
    }
  }

  // The elements stay in the order of their first occurrences.
  ghost predicate InFirstOrder(s: seq<Name>, kept: seq<Name>) {
    && (forall c | c in kept :: c in s)
    && forall i, j | 0 <= i < j < |kept| :: FirstAt(s, kept[i]) < FirstAt(s, kept[j])
  }

  lemma {:induction false} KeepFirstKeepsOrder(s: seq<Name>)
    ensures InFirstOrder(s, KeepFirst(s)) && forall c | c in s :: c in KeepFirst(s)
  {
    if s != [] {
      var n := |s| - 1;
      var before := KeepFirst(s[..n]);
      KeepFirstKeepsOrder(s[..n]);
      assert s == s[..n] + [s[n]];
      forall c | c in before ensures c in s && FirstAt(s, c) == FirstAt(s[..n], c) < n {
        FirstAtSnoc(s[..n], c, s[n]);
        FirstAtIs(s[..n], c);
      }
      FirstAtSnoc(s[..n], s[n], s[n]);
    }
  }

  ghost predicate NoDuplicates(s: seq<Name>) {
    forall i, j | 0 <= i < j < |s| :: s[i] != s[j]
  }

  // Every dependency of a component stands before it.
  ghost predicate Ordered(g: Graph, order: seq<Name>) {
    forall i, d | 0 <= i < |order| && order[i] in g && d in g[order[i]] :: d in order[..i]
  }

  lemma DepsOfLast(g: Graph, before: seq<Name>, x: Name)
    requires DepsBefore(g, before + [x], [])
    ensures DepsBefore(g, before, [])
    ensures x in g ==> forall d | d in g[x] :: d in before
  {
    var s := before + [x];
    forall i, d | 0 <= i < |before| && before[i] in g && d in g[before[i]] ensures d in before[..i] {
      assert d in g[s[i]];
      assert d in s[..i] || d in [];
      assert s[..i] == before[..i];
    }
    if x in g {
      forall d | d in g[x] ensures d in before {
        assert d in g[s[|before|]];
        assert d in s[..|before|] || d in [];
      }
    }
  }

  lemma OrderedSnoc(g: Graph, order: seq<Name>, x: Name)
    requires Ordered(g, order) && (x in g ==> forall d | d in g[x] :: d in order)
    ensures Ordered(g, order + [x])
  {
    var more := order + [x];
    forall i, d | 0 <= i < |more| && more[i] in g && d in g[more[i]] ensures d in more[..i] {
      assert more[..i] == order[..i];
    }
  }

  lemma {:induction false} KeepFirstOrders(g: Graph, s: seq<Name>)
    requires DepsBefore(g, s, [])
    ensures NoDuplicates(KeepFirst(s)) && Ordered(g, KeepFirst(s))
    ensures forall c :: c in KeepFirst(s) <==> c in s
  {
    if s != [] {
      var last := |s| - 1;
      assert s == s[..last] + [s[last]];
      DepsOfLast(g, s[..last], s[last]);
      KeepFirstOrders(g, s[..last]);
      if s[last] !in KeepFirst(s[..last]) {
        OrderedSnoc(g, KeepFirst(s[..last]), s[last]);
      }
    }
  }

  // ---- The whole selection ----

  // What the command line asks for, qemu-buildroot by default.
  function Requested(components: seq<Name>): seq<Name> {
    if components == [] then ["qemu-buildroot"] else components
  }

  method Select(g: Graph, components: seq<Name>) returns (order: seq<Name>)
    requires Closed(g) && forall c | c in Requested(components) :: c in g && !ReachesCycle(g, c)
    ensures NoDuplicates(order)
    ensures forall c :: c in order <==> ReachedFrom(g, Requested(components), c)
    ensures components == [] ==> forall c :: c in order <==> Reaches(g, "qemu-buildroot", c)
    ensures components != [] ==> forall c :: c in order <==> ReachedFrom(g, components, c)
    ensures Ordered(g, order)
    ensures exists selected :: Expands(g, Requested(components), selected) && InFirstOrder(selected, order)
  {
    var requested := Requested(components);
    var selected := Expand(g, requested);
    KeepFirstKeepsOrder(selected);
    KeepFirstOrders(g, selected);
    order := KeepFirst(selected);
    assert requested[..|requested|] == requested;
    ghost var all := set c | c in order;
    forall c | ReachedFrom(g, requested, c) ensures c in order {
      var r :| r in requested && Reaches(g, r, c);
      var p :| IsPath(g, p) && p[0] == r && p[|p| - 1] == c;
      ClosureHolds(g, all, p);
    }
  }

  // ---- Building ----

  // What a run of the build loop did: the components whose build was called, in order, and the
  // status returned, that of the first failure or 0.
  datatype BuildLog = BuildLog(built: seq<Name>, status: int)

  // `status` gives the return value of each component's build.
  method Build(order: seq<Name>, status: map<Name, int>) returns (log: BuildLog)
    requires forall c | c in order :: c in status
    ensures log.built <= order
    ensures log.status == 0 ==> log.built == order && forall c | c in order :: status[c] == 0
    ensures log.status != 0 ==>
              && log.built != [] && status[log.built[|log.built| - 1]] == log.status
              && forall c | c in log.built[..|log.built| - 1] :: status[c] == 0
  {
    for i := 0 to |order|
      invariant forall c | c in order[..i] :: status[c] == 0
    {
      var ret := status[order[i]];
      if ret != 0 {
        assert order[..i + 1][..i] == order[..i];
        return BuildLog(order[..i + 1], ret);
      }
      assert order[..i + 1] == order[..i] + [order[i]];
    }
    assert order[..|order|] == order;
    log := BuildLog(order, 0);
  }

  // In a dependency order everything a component needs, directly or not, stands before it.
  lemma {:induction false} NeedsStandBefore(g: Graph, order: seq<Name>, i: nat, p: seq<Name>)
    requires Ordered(g, order) && NoDuplicates(order) && i < |order|
    requires IsPath(g, p) && |p| > 1 && p[0] == order[i]
    ensures p[|p| - 1] in order[..i]
    decreases |p|
  {
    assert p[0 + 1] in g[p[0]];
    var j :| 0 <= j < i && order[j] == p[1];
    if |p| > 2 {
      SubPath(g, p, 1, |p|);
      NeedsStandBefore(g, order, j, p[1..]);
      var k :| 0 <= k < j && order[k] == p[|p| - 1];
    }
  }

  // When a component's build is called, everything it needs has been built, successfully.
  lemma NeedsAreBuilt(g: Graph, order: seq<Name>, status: map<Name, int>, log: BuildLog, i: nat, d: Name)
    requires Ordered(g, order) && NoDuplicates(order) && forall c | c in order :: c in status
    requires log.built <= order && i < |log.built|
    requires forall c | c in log.built[..|log.built| - 1] :: c in status && status[c] == 0
    requires d != order[i] && Reaches(g, order[i], d)
    ensures d in log.built[..i] && status[d] == 0
  {
    var p :| IsPath(g, p) && p[0] == order[i] && p[|p| - 1] == d;
    NeedsStandBefore(g, order, i, p);
    assert order[..i] == log.built[..i];
    var k :| 0 <= k < i && log.built[k] == d;
    assert log.built[..|log.built| - 1][k] == d;
  }
}
