// The kernel module that starts workers, releases them together, waits for the last one and
// then compares the counter with threads * iterations.
module SyncCounter {
  import opened Runs
  import C = CounterLoop

  type Tid = nat

  datatype Stage = NotStarted | Waiting | Running | Completing | Exited

  datatype Main = Starting(next: nat) | Awaiting | Compared(expected: nat, actual: nat)

  datatype State = State(
    core: C.State,
    stage: seq<Stage>,
    left: int,
    started: bool,
    allDone: bool,
    main: Main)

  // A request for no threads starts one.
  function Workers(threads: nat): nat {
    if threads == 0 then 1 else threads
  }

  ghost predicate Init(s: State, threads: nat) {
    && C.Init(s.core, Workers(threads))
    && |s.stage| == Workers(threads) && (forall t | 0 <= t < |s.stage| :: s.stage[t] == NotStarted)
    && s.left == Workers(threads) && !s.started && !s.allDone && s.main == Starting(0)
  }

  // The success path of the initialisation function.
  ghost predicate MainStep(s: State, s': State) {
    match s.main
    case Starting(next) =>
      if next < |s.stage| then s' == s.(stage := s.stage[next := Waiting], main := Starting(next + 1))
      else s' == s.(started := true, main := Awaiting)
    case Awaiting =>
      s.allDone && s' == s.(main := Compared(|s.stage| * s.core.k % C.WORD, s.core.counter))
    case Compared(_, _) => false
  }

  ghost predicate WorkerStep(s: State, t: Tid, s': State)
    requires t < |s.stage| == |s.core.pc|
  {
    match s.stage[t]
    case NotStarted => false
    case Waiting => s.started && s' == s.(stage := s.stage[t := Running])
    case Running =>
      if s.core.pc[t].Finished? then
        s' == s.(left := s.left - 1, stage := s.stage[t := if s.left - 1 == 0 then Completing else Exited])
      else
        C.Step(s.core, t, s'.core) && s' == s.(core := s'.core)
    case Completing => s' == s.(allDone := true, stage := s.stage[t := Exited])
    case Exited => false
  }

  ghost predicate Next(s: State, s': State) {
    && |s.stage| == |s.core.pc|
    && (MainStep(s, s') || exists t: Tid :: t < |s.stage| && WorkerStep(s, t, s'))
  }

  ghost predicate Reachable(s: State, threads: nat) {
    exists s0 :: Init(s0, threads) && Leads(Next, s0, s)
  }

  // ---- What every state satisfies ----

  // Workers that have not given up their place in `threads_left`.
  function Counted(stage: seq<Stage>): set<Tid> {
    set t: Tid | t < |stage| && !stage[t].Completing? && !stage[t].Exited?
  }

  lemma CountedAfter(stage: seq<Stage>, t: Tid, p: Stage)
    requires t < |stage|
    ensures Counted(stage[t := p])
            == if p.Completing? || p.Exited? then Counted(stage) - {t} else Counted(stage) + {t}
  {
  }

  ghost predicate StageOk(s: State, t: Tid)
    requires t < |s.stage| == |s.core.pc|
  {
    && (s.stage[t].Completing? || s.stage[t].Exited? ==> s.core.pc[t].Finished?)
    && (s.main.Starting? && s.stage[t].NotStarted? <==> s.main.Starting? && t >= s.main.next)
    && (!s.main.Starting? ==> !s.stage[t].NotStarted?)
  }

  ghost predicate HandOff(s: State) {
    && s.left == |Counted(s.stage)|
    && (s.left == 0 <==> s.allDone || exists t: Tid :: t < |s.stage| && s.stage[t].Completing?)
    && (s.started <==> !s.main.Starting?)
    && (s.main.Compared? ==> s.allDone && s.main.actual == s.core.counter
                             && s.main.expected == |s.stage| * s.core.k % C.WORD)
  }

  predicate Racing(s: State) {
    s.core.mode.Unsynchronised? && |s.core.pc| * s.core.k < C.WORD
  }

  ghost predicate Inv(s: State) {
    && |s.stage| == |s.core.pc|
    && C.Inv(s.core)
    && (Racing(s) ==> C.RaceInv(s.core))
    && (forall t: Tid | t < |s.stage| :: StageOk(s, t))
    && HandOff(s)
  }

  lemma InitInv(s: State, threads: nat)
    requires Init(s, threads)
    ensures Inv(s)
  {
    C.InitInv(s.core, Workers(threads));
    if Racing(s) {
      C.InitRace(s.core, Workers(threads));
    }
    CountedOfAll(s.stage);
  }

  lemma {:induction false} CountedOfAll(stage: seq<Stage>)
    requires forall t | 0 <= t < |stage| :: stage[t].NotStarted?
    ensures |Counted(stage)| == |stage|
  {
    if stage == [] {
      assert Counted(stage) == {};
    } else {
      var n := |stage| - 1;
      CountedOfAll(stage[..n]);
      assert Counted(stage) == Counted(stage[..n]) + {n};
    }
  }

  lemma MainKeepsInv(s: State, s': State)
    requires Inv(s) && MainStep(s, s')
    ensures Inv(s')
  {
    if s.main.Starting? && s.main.next < |s.stage| {
      CountedAfter(s.stage, s.main.next, Waiting);
      assert StageOk(s, s.main.next);
      assert Counted(s'.stage) == Counted(s.stage);
      forall t: Tid | t < |s'.stage|
        ensures StageOk(s', t) && (s'.stage[t].Completing? <==> s.stage[t].Completing?)
      {
        assert StageOk(s, t);
      }
    } else {
      forall t: Tid | t < |s'.stage|
        ensures StageOk(s', t)
      {
        assert StageOk(s, t);
      }
    }
  }

  lemma RunningBeforeDone(s: State, t: Tid)
    requires Inv(s) && t < |s.stage| && s.stage[t].Running?
    ensures !s.allDone
  {
    assert t in Counted(s.stage);
  }

  // A worker's increments leave the hand-off alone.
  lemma CoreStepKeepsInv(s: State, t: Tid, s': State)
    requires Inv(s) && t < |s.stage| && s.stage[t].Running?
    requires C.Step(s.core, t, s'.core) && s' == s.(core := s'.core)
    ensures Inv(s')
  {
    RunningBeforeDone(s, t);
    C.StepKeepsInv(s.core, t, s'.core);
    C.StepEffect(s.core, t, s'.core);
    if Racing(s) {
      C.IncrementsIsProduct(|s.core.pc|, s.core.k);
      C.StepKeepsRace(s.core, t, s'.core);
    }
    forall u: Tid | u < |s'.stage|
      ensures StageOk(s', u)
    {
      assert StageOk(s, u);
    }
  }

  lemma StageStepKeepsStages(s: State, t: Tid, s': State)
    requires Inv(s) && t < |s.stage| && WorkerStep(s, t, s') && s'.core == s.core
    requires s.stage[t].Running? ==> s.core.pc[t].Finished?
    ensures |s'.stage| == |s.stage| && forall u: Tid | u < |s'.stage| :: StageOk(s', u)
  {
    assert StageOk(s, t);
    forall u: Tid | u < |s'.stage|
      ensures StageOk(s', u)
    {
      assert StageOk(s, u);
    }
  }

  // The worker that brings `threads_left` to zero is the one that completes.
  lemma FinishedKeepsHandOff(s: State, t: Tid, s': State)
    requires Inv(s) && t < |s.stage| && WorkerStep(s, t, s') && s.stage[t].Running? && s.core.pc[t].Finished?
    ensures HandOff(s')
  {
    CountedAfter(s.stage, t, s'.stage[t]);
    RunningBeforeDone(s, t);
    assert t in Counted(s.stage);
    if s'.left == 0 {
      assert s'.stage[t].Completing?;
    } else {
      forall u: Tid | u < |s'.stage| ensures !s'.stage[u].Completing? {
        assert u != t ==> s'.stage[u] == s.stage[u];
      }
    }
  }

  lemma OtherStepKeepsHandOff(s: State, t: Tid, s': State)
    requires Inv(s) && t < |s.stage| && WorkerStep(s, t, s') && !s.stage[t].Running?
    ensures HandOff(s')
  {
    CountedAfter(s.stage, t, s'.stage[t]);
    assert Counted(s'.stage) == Counted(s.stage);
    if s.stage[t].Waiting? {
      forall u: Tid | u < |s'.stage| ensures s'.stage[u].Completing? <==> s.stage[u].Completing? {
      }
    }
  }

  lemma StageStepKeepsInv(s: State, t: Tid, s': State)
    requires Inv(s) && t < |s.stage| && WorkerStep(s, t, s') && s'.core == s.core
    requires s.stage[t].Running? ==> s.core.pc[t].Finished?
    ensures Inv(s')
  {
    StageStepKeepsStages(s, t, s');
    if s.stage[t].Running? {
      FinishedKeepsHandOff(s, t, s');
    } else {
      OtherStepKeepsHandOff(s, t, s');
    }
  }

  lemma StepKeepsInv(s: State, s': State)
    requires Inv(s) && Next(s, s')
    ensures Inv(s') && |s'.stage| == |s.stage| && s'.core.k == s.core.k && s'.core.mode == s.core.mode
  {
    if MainStep(s, s') {
      MainKeepsInv(s, s');
    } else {
      var t: Tid :| t < |s.stage| && WorkerStep(s, t, s');
      if s.stage[t].Running? && !s.core.pc[t].Finished? {
        CoreStepKeepsInv(s, t, s');
        C.StepEffect(s.core, t, s'.core);
      } else {
        StageStepKeepsInv(s, t, s');
      }
    }
  }

  lemma ReachableInv(s: State, threads: nat)
    requires Reachable(s, threads)
    ensures Inv(s) && |s.stage| == Workers(threads)
  {
    var s0 :| Init(s0, threads) && Leads(Next, s0, s);
    InitInv(s0, threads);
    var inv := (a: State) => Inv(a) && |a.stage| == Workers(threads);
    forall a, b | inv(a) && Next(a, b) ensures inv(b) {
      StepKeepsInv(a, b);
    }
    LeadsKeeps(Next, inv, s0, s);
  }

  // Before the workers are released none has begun.
  ghost predicate Early(s: State) {
    s.main.Starting? ==>
      && !s.started && s.core.counter == 0
      && (forall t: Tid | t < |s.stage| :: s.stage[t].NotStarted? || s.stage[t].Waiting?)
      && (forall t: Tid | t < |s.core.pc| :: s.core.pc[t] == C.Loop(0))
  }

  lemma NextKeepsEarly(s: State, s': State)
    requires Early(s) && Next(s, s')
    ensures Early(s')
  {
  }

  lemma ReachableEarly(s: State, threads: nat)
    requires Reachable(s, threads)
    ensures Early(s)
  {
    var s0 :| Init(s0, threads) && Leads(Next, s0, s);
    forall a, b | Early(a) && Next(a, b) ensures Early(b) {
      NextKeepsEarly(a, b);
    }
    LeadsKeeps(Next, Early, s0, s);
  }

  // ---- Main results ----

  // As many workers as asked for, but at least one, are released together: none increments the
  // counter before, and then all have been started.
  lemma ReleasedTogether(s: State, threads: nat)
    requires Reachable(s, threads)
    ensures |s.stage| == |s.core.pc| && (threads > 0 ==> |s.stage| == threads) && (threads == 0 ==> |s.stage| == 1)
    ensures if s.main.Starting? then s.core.counter == 0 && forall t: Tid | t < |s.stage| :: s.core.pc[t] == C.Loop(0)
            else s.started && forall t: Tid | t < |s.stage| :: !s.stage[t].NotStarted?
  {
    ReachableInv(s, threads);
    ReachableEarly(s, threads);
    if !s.main.Starting? {
      forall t: Tid | t < |s.stage| ensures !s.stage[t].NotStarted? {
        assert StageOk(s, t);
      }
    }
  }

  // The comparison comes after the last increment of every worker.
  lemma WaitCoversAllWorkers(s: State, threads: nat)
    requires Reachable(s, threads) && s.main.Compared?
    ensures |s.core.pc| == Workers(threads) && C.AllFinished(s.core)
  {
    ReachableInv(s, threads);
    assert Counted(s.stage) == {};
    forall t: Tid | t < |s.core.pc|
      ensures s.core.pc[t].Finished?
    {
      assert StageOk(s, t);
      assert t !in Counted(s.stage);
    }
  }

  // With a lock or the atomic instruction the two numbers compared are equal, and they are
  // threads * iterations in 64-bit arithmetic.
  lemma CountIsExact(s: State, threads: nat)
    requires Reachable(s, threads) && s.main.Compared? && !s.core.mode.Unsynchronised?
    ensures s.main.actual == s.main.expected == Workers(threads) * s.core.k % C.WORD
  {
    ReachableInv(s, threads);
    WaitCoversAllWorkers(s, threads);
    C.ExactCount(s.core);
  }

  lemma RaceStaysInBounds(s: State, threads: nat)
    requires Reachable(s, threads) && s.main.Compared? && s.core.mode.Unsynchronised?
    requires Workers(threads) * s.core.k < C.WORD
    ensures C.Least(Workers(threads), s.core.k) <= s.main.actual <= s.main.expected
  {
    ReachableInv(s, threads);
    WaitCoversAllWorkers(s, threads);
    C.RaceBounds(s.core);
  }

  // ---- Progress ----

  function MainLeft(s: State): nat {
    match s.main
    case Starting(next) => 2 + if next < |s.stage| then |s.stage| - next else 0
    case Awaiting => 1
    case Compared(_, _) => 0
  }

  function StageLeft(p: Stage): nat {
    match p
    case NotStarted => 4
    case Waiting => 3
    case Running => 2
    case Completing => 1
    case Exited => 0
  }

  function StagesLeft(stage: seq<Stage>): nat {
    if stage == [] then 0 else StageLeft(stage[0]) + StagesLeft(stage[1..])
  }

  lemma {:induction false} StagesLeftAfter(stage: seq<Stage>, t: nat, p: Stage)
    requires t < |stage|
    ensures StagesLeft(stage[t := p]) == StagesLeft(stage) - StageLeft(stage[t]) + StageLeft(p)
  {
    if t == 0 {
      assert stage[t := p][1..] == stage[1..];
    } else {
      assert stage[t := p][1..] == stage[1..][t - 1 := p];
      StagesLeftAfter(stage[1..], t - 1, p);
    }
  }

  predicate Nearer(s: State, s': State) {
    || MainLeft(s') < MainLeft(s)
    || (&& MainLeft(s') == MainLeft(s)
        && (|| StagesLeft(s'.stage) < StagesLeft(s.stage)
            || (StagesLeft(s'.stage) == StagesLeft(s.stage) && C.Closer(s.core, s'.core))))
  }

  // No run gets stuck before the comparison: some step is possible that brings it nearer.
  lemma NeverStuck(s: State, threads: nat) returns (s': State)
    requires Reachable(s, threads) && !s.main.Compared?
    ensures Next(s, s') && Nearer(s, s')
  {
    ReachableInv(s, threads);
    if s.main.Starting? && s.main.next < |s.stage| {
      s' := s.(stage := s.stage[s.main.next := Waiting], main := Starting(s.main.next + 1));
    } else if s.main.Starting? {
      s' := s.(started := true, main := Awaiting);
    } else if s.allDone {
      s' := s.(main := Compared(|s.stage| * s.core.k % C.WORD, s.core.counter));
    } else if t: Tid :| t < |s.stage| && s.stage[t].Completing? {
      s' := s.(allDone := true, stage := s.stage[t := Exited]);
      StagesLeftAfter(s.stage, t, Exited);
      assert WorkerStep(s, t, s');
    } else {
      assert Counted(s.stage) != {};
      var t :| t in Counted(s.stage);
      assert StageOk(s, t);
      s' := WorkerCanStep(s, t);
    }
  }

  lemma StageCanChange(s: State, t: Tid) returns (s': State)
    requires Inv(s) && t < |s.stage| && s.started
    requires s.stage[t].Waiting? || (s.stage[t].Running? && s.core.pc[t].Finished?)
    ensures Next(s, s') && Nearer(s, s')
  {
    if s.stage[t].Waiting? {
      s' := s.(stage := s.stage[t := Running]);
    } else {
      s' := s.(left := s.left - 1, stage := s.stage[t := if s.left - 1 == 0 then Completing else Exited]);
    }
    StagesLeftAfter(s.stage, t, s'.stage[t]);
    assert WorkerStep(s, t, s');
  }

  lemma WorkerCanStep(s: State, t: Tid) returns (s': State)
    requires Inv(s) && t < |s.stage| && s.started && (s.stage[t].Waiting? || s.stage[t].Running?)
    ensures Next(s, s') && Nearer(s, s')
  {
    if s.stage[t].Waiting? || s.core.pc[t].Finished? {
      s' := StageCanChange(s, t);
    } else {
      var u, core := C.SomeStepIsCloser(s.core, t);
      assert StageOk(s, u);
      if s.stage[u].Waiting? {
        s' := StageCanChange(s, u);
      } else {
        s' := s.(core := core);
        C.StepKeepsInv(s.core, u, core);
        assert WorkerStep(s, u, s');
      }
    }
  }

  // From wherever a run has got to, it can be continued to the comparison: the completion is not
  // lost.
  lemma {:induction false} CanFinish(s: State, threads: nat) returns (m: State)
    requires Reachable(s, threads)
    ensures Leads(Next, s, m) && m.main.Compared?
    decreases MainLeft(s), StagesLeft(s.stage), C.LeftAll(s.core.pc, s.core.k), C.StepsAll(s.core, |s.core.pc|)
  {
    if s.main.Compared? {
      LeadsToSelf(Next, s);
      m := s;
    } else {
      var s' := NeverStuck(s, threads);
      var s0 :| Init(s0, threads) && Leads(Next, s0, s);
      LeadsOn(Next, s0, s, s');
      m := CanFinish(s', threads);
      LeadsFrom(Next, s, s', m);
    }
  }
}
