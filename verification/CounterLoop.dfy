// The loop that any number of threads run to add one to a shared 64-bit counter, under the
// different ways the repository protects the addition. A step is one access to shared state.
module CounterLoop {
  import opened Common
  import opened Runs

  const WORD: nat := 0x1_0000_0000_0000_0000

  type Tid = nat

  // Locked stands for the spinlock and the mutex, Atomic for one read-modify-write instruction,
  // Exclusive for the LDAXR/STLXR retry loop, Unsynchronised for a plain load and store.
  datatype Mode = Unsynchronised | Locked | Atomic | Exclusive

  // `i` is the number of iterations the thread has completed.
  datatype PC =
    | Loop(i: nat)
    | Lock(i: nat)
    | Load(i: nat)
    | Store(i: nat, reg: nat)
    | Unlock(i: nat)
    | Finished

  // `reserved` holds the threads whose exclusive monitor is still set.
  datatype State = State(
    mode: Mode,
    k: nat,
    counter: nat,
    lock: Option<Tid>,
    reserved: set<Tid>,
    pc: seq<PC>)
  {
    function At(t: Tid, p: PC): State
      requires t < |pc|
    {
      this.(pc := pc[t := p])
    }
  }

  function Inc(c: nat): nat {
    (c + 1) % WORD
  }

  ghost predicate Init(s: State, n: nat) {
    && s.counter == 0 && s.lock == None && s.reserved == {} && |s.pc| == n
    && forall t | 0 <= t < n :: s.pc[t] == Loop(0)
  }

  ghost predicate Step(s: State, t: Tid, s': State)
    requires t < |s.pc|
  {
    match s.pc[t]
    case Loop(i) =>
      s' == s.At(t, if i >= s.k then Finished else if s.mode.Locked? then Lock(i) else Load(i))
    case Lock(i) =>
      s.lock == None && s' == s.(lock := Some(t)).At(t, Load(i))
    case Load(i) =>
      if s.mode.Atomic? then s' == s.(counter := Inc(s.counter)).At(t, Loop(i + 1))
      else if s.mode.Exclusive? then s' == s.(reserved := s.reserved + {t}).At(t, Store(i, s.counter))
      else s' == s.At(t, Store(i, s.counter))
    case Store(i, reg) =>
      if s.mode.Exclusive? then
        || (t in s.reserved && s' == s.(counter := Inc(reg), reserved := {}).At(t, Loop(i + 1)))
        || s' == s.(reserved := s.reserved - {t}).At(t, Load(i))
      else
        s' == s.(counter := Inc(reg)).At(t, if s.mode.Locked? then Unlock(i) else Loop(i + 1))
    case Unlock(i) =>
      s' == s.(lock := None).At(t, Loop(i + 1))
    case Finished => false
  }

  // ---- The increments made so far ----

  function Done(p: PC, k: nat): nat {
    match p
    case Loop(i) => i
    case Lock(i) => i
    case Load(i) => i
    case Store(i, _) => i
    case Unlock(i) => i + 1
    case Finished => k
  }

  function Total(pc: seq<PC>, k: nat): nat {
    if pc == [] then 0 else Done(pc[0], k) + Total(pc[1..], k)
  }

  lemma {:induction false} TotalAfter(pc: seq<PC>, k: nat, t: nat, p: PC)
    requires t < |pc|
    ensures Total(pc[t := p], k) == Total(pc, k) - Done(pc[t], k) + Done(p, k)
  {
    if t == 0 {
      assert pc[t := p][1..] == pc[1..];
    } else {
      assert pc[t := p][1..] == pc[1..][t - 1 := p];
      TotalAfter(pc[1..], k, t - 1, p);
    }
  }

  lemma {:induction false} TotalOfUniform(pc: seq<PC>, k: nat, each: nat)
    requires forall t | 0 <= t < |pc| :: Done(pc[t], k) == each
    ensures Total(pc, k) == |pc| * each
  {
    if pc != [] {
      TotalOfUniform(pc[1..], k, each);
      assert |pc| * each == (|pc| - 1) * each + each;
    }
  }

  // The increments of `m` threads.
  function Increments(m: nat, k: nat): nat {
    if m == 0 then 0 else k + Increments(m - 1, k)
  }

  lemma {:induction false} IncrementsIsProduct(m: nat, k: nat)
    ensures Increments(m, k) == m * k
  {
    if m > 0 {
      IncrementsIsProduct(m - 1, k);
      assert m * k == (m - 1) * k + k;
    }
  }

  lemma {:induction false} TotalAtMost(pc: seq<PC>, k: nat)
    requires forall t | 0 <= t < |pc| :: Done(pc[t], k) <= k
    ensures Total(pc, k) <= Increments(|pc|, k)
  {
    if pc != [] {
      TotalAtMost(pc[1..], k);
    }
  }

  // ---- What every state satisfies ----

  ghost predicate InLock(p: PC) {
    p.Load? || p.Store? || p.Unlock?
  }

  predicate PcOk(s: State, p: PC) {
    match p
    case Loop(i) => i <= s.k
    case Lock(i) => i < s.k && s.mode.Locked?
    case Load(i) => i < s.k
    case Store(i, reg) => i < s.k && !s.mode.Atomic?
    case Unlock(i) => i < s.k && s.mode.Locked?
    case Finished => true
  }

  ghost predicate Sane(s: State) {
    s.counter < WORD && forall t | 0 <= t < |s.pc| :: PcOk(s, s.pc[t])
  }

  // A register about to be stored holds the counter's present value.
  ghost predicate Fresh(s: State, t: Tid)
    requires t < |s.pc|
  {
    s.pc[t].Store? ==> s.pc[t].reg == s.counter
  }

  ghost predicate Protected(s: State) {
    match s.mode
    case Locked =>
      && (s.lock.Some? ==> s.lock.value < |s.pc|)
      && forall t | 0 <= t < |s.pc| :: (InLock(s.pc[t]) <==> s.lock == Some(t)) && Fresh(s, t)
    case Exclusive =>
      forall t | t in s.reserved :: t < |s.pc| && s.pc[t].Store? && Fresh(s, t)
    case _ => true
  }

  ghost predicate Inv(s: State) {
    && Sane(s) && Protected(s) && (s.lock.Some? ==> s.mode.Locked?)
    && (!s.mode.Unsynchronised? ==> s.counter == Total(s.pc, s.k) % WORD)
  }

  lemma InitInv(s: State, n: nat)
    requires Init(s, n)
    ensures Inv(s)
  {
    TotalOfUniform(s.pc, s.k, 0);
  }

  // A step completes an increment exactly when it changes the counter.
  ghost predicate Bumps(s: State, t: Tid)
    requires t < |s.pc|
  {
    s.pc[t].Store? || (s.pc[t].Load? && s.mode.Atomic?)
  }

  lemma StepEffect(s: State, t: Tid, s': State)
    requires Sane(s) && t < |s.pc| && Step(s, t, s')
    ensures s'.mode == s.mode && s'.k == s.k && |s'.pc| == |s.pc| && s'.pc == s.pc[t := s'.pc[t]]
    ensures Sane(s')
    ensures Done(s'.pc[t], s.k) <= s.k
    ensures (Done(s'.pc[t], s.k) == Done(s.pc[t], s.k) && s'.counter == s.counter)
            || (Done(s'.pc[t], s.k) == Done(s.pc[t], s.k) + 1 && Bumps(s, t)
                && (s.pc[t].Store? ==> s'.counter == Inc(s.pc[t].reg))
                && (s.pc[t].Load? ==> s'.counter == Inc(s.counter))
                && (s.mode.Exclusive? ==> t in s.reserved && s'.reserved == {}))
  {
  }

  lemma StepKeepsProtected(s: State, t: Tid, s': State)
    requires Inv(s) && t < |s.pc| && Step(s, t, s')
    ensures Protected(s')
  {
  }

  lemma IncIsMod(total: nat)
    ensures Inc(total % WORD) == (total + 1) % WORD
  {
  }

  lemma StepKeepsInv(s: State, t: Tid, s': State)
    requires Inv(s) && t < |s.pc| && Step(s, t, s')
    ensures Inv(s') && s'.mode == s.mode && s'.k == s.k && |s'.pc| == |s.pc|
  {
    StepEffect(s, t, s');
    StepKeepsProtected(s, t, s');
    TotalAfter(s.pc, s.k, t, s'.pc[t]);
    IncIsMod(Total(s.pc, s.k));
    assert Fresh(s, t) || s.mode.Unsynchronised? || !Bumps(s, t) || s.mode.Exclusive?;
  }

  ghost predicate AllFinished(s: State) {
    forall t | 0 <= t < |s.pc| :: s.pc[t].Finished?
  }

  // Once every thread has finished, the protected modes have counted every iteration.
  lemma ExactCount(s: State)
    requires Inv(s) && AllFinished(s) && !s.mode.Unsynchronised?
    ensures s.counter == |s.pc| * s.k % WORD
  {
    TotalOfUniform(s.pc, s.k, s.k);
  }

  // ---- Progress ----

  // The step of a thread that is not disturbed: it takes the lock if it is free, and its
  // exclusive store succeeds while its monitor is set.
  function Own(s: State, t: Tid): State
    requires t < |s.pc|
  {
    match s.pc[t]
    case Loop(i) => s.At(t, if i >= s.k then Finished else if s.mode.Locked? then Lock(i) else Load(i))
    case Lock(i) => s.(lock := Some(t)).At(t, Load(i))
    case Load(i) =>
      if s.mode.Atomic? then s.(counter := Inc(s.counter)).At(t, Loop(i + 1))
      else if s.mode.Exclusive? then s.(reserved := s.reserved + {t}).At(t, Store(i, s.counter))
      else s.At(t, Store(i, s.counter))
    case Store(i, reg) =>
      if !s.mode.Exclusive? then
        s.(counter := Inc(reg)).At(t, if s.mode.Locked? then Unlock(i) else Loop(i + 1))
      else if t in s.reserved then s.(counter := Inc(reg), reserved := {}).At(t, Loop(i + 1))
      else s.(reserved := s.reserved - {t}).At(t, Load(i))
    case Unlock(i) => s.(lock := None).At(t, Loop(i + 1))
    case Finished => s
  }

  lemma OwnSteps(s: State, t: Tid)
    requires t < |s.pc| && !s.pc[t].Finished? && (s.pc[t].Lock? ==> s.lock == None)
    ensures Step(s, t, Own(s, t))
  {
  }

  // Every thread that is not finished can step, save those waiting for the lock; and then the
  // lock's holder can.
  lemma CanStep(s: State, t: Tid) returns (u: Tid, s': State)
    requires Inv(s) && t < |s.pc| && !s.pc[t].Finished?
    ensures u < |s.pc| && !s.pc[u].Finished? && Step(s, u, s')
  {
    u := t;
    if s.pc[t].Lock? && s.lock.Some? {
      u := s.lock.value;
      assert InLock(s.pc[u]);
    }
    OwnSteps(s, u);
    s' := Own(s, u);
  }

  // An upper bound on the steps of its own that a thread needs to complete an increment, or to
  // finish when it has none left.
  function StepsLeft(s: State, t: Tid): nat
    requires t < |s.pc|
  {
    match s.pc[t]
    case Unlock(_) => 5
    case Loop(i) => if i >= s.k then 1 else 4
    case Lock(_) => 3
    case Load(_) => 2
    case Store(_, _) => if s.mode.Exclusive? && t !in s.reserved then 3 else 1
    case Finished => 0
  }

  predicate Advanced(s: State, s': State, t: Tid)
    requires t < |s.pc| == |s'.pc|
  {
    s'.pc[t].Finished? || Done(s'.pc[t], s.k) == Done(s.pc[t], s.k) + 1
  }

  lemma OwnStepAdvances(s: State, t: Tid)
    requires Inv(s) && t < |s.pc| && !s.pc[t].Finished? && (s.lock == None || s.lock == Some(t))
    ensures var s' := Own(s, t);
            && Step(s, t, s') && Inv(s') && |s'.pc| == |s.pc| && s'.k == s.k
            && (s'.lock == None || s'.lock == Some(t))
            && (Advanced(s, s', t) || (StepsLeft(s', t) < StepsLeft(s, t) && !s'.pc[t].Finished?
                                       && Done(s'.pc[t], s.k) == Done(s.pc[t], s.k)))
  {
    if s.mode.Locked? {
      assert InLock(s.pc[t]) <==> s.lock == Some(t);
    }
    OwnSteps(s, t);
    StepKeepsInv(s, t, Own(s, t));
  }

  // The steps of one thread.
  ghost function Solo(t: Tid): (State, State) -> bool {
    (a: State, b: State) => t < |a.pc| && Step(a, t, b)
  }

  // Left to itself, a thread not shut out by the lock completes an increment or finishes.
  lemma {:induction false} SoloRun(s: State, t: Tid) returns (tr: seq<State>)
    requires Inv(s) && t < |s.pc| && !s.pc[t].Finished? && (s.lock == None || s.lock == Some(t))
    ensures 1 < |tr| <= StepsLeft(s, t) + 1 && tr[0] == s && Path(Solo(t), tr)
    ensures |tr[|tr| - 1].pc| == |s.pc| && Advanced(s, tr[|tr| - 1], t)
    decreases StepsLeft(s, t)
  {
    var s' := Own(s, t);
    OwnStepAdvances(s, t);
    if Advanced(s, s', t) {
      PathPrepend(Solo(t), s, [s']);
      tr := [s, s'];
      assert tr == [s] + [s'];
    } else {
      var rest := SoloRun(s', t);
      PathPrepend(Solo(t), s, rest);
      tr := [s] + rest;
    }
  }

  // In every mode, whatever has happened so far, some unfinished thread completes an increment
  // (or finishes) in at most five steps of its own: retries of the exclusive pair need not go on.
  lemma SomeThreadAdvances(s: State, t: Tid) returns (u: Tid, tr: seq<State>)
    requires Inv(s) && t < |s.pc| && !s.pc[t].Finished?
    ensures u < |s.pc| && !s.pc[u].Finished? && (s.lock == None ==> u == t)
    ensures 1 < |tr| <= 6 && tr[0] == s && Path(Solo(u), tr)
    ensures |tr[|tr| - 1].pc| == |s.pc| && Advanced(s, tr[|tr| - 1], u)
  {
    u := t;
    if s.lock.Some? {
      u := s.lock.value;
      assert InLock(s.pc[u]);
    }
    tr := SoloRun(s, u);
  }

  // What all threads have left, in increments and in steps to the next one of each.
  function Left(p: PC, k: nat): nat {
    if p.Finished? then 0 else if Done(p, k) < k then k - Done(p, k) + 1 else 1
  }

  function LeftAll(pc: seq<PC>, k: nat): nat {
    if pc == [] then 0 else Left(pc[0], k) + LeftAll(pc[1..], k)
  }

  lemma {:induction false} LeftAfter(pc: seq<PC>, k: nat, t: nat, p: PC)
    requires t < |pc|
    ensures LeftAll(pc[t := p], k) == LeftAll(pc, k) - Left(pc[t], k) + Left(p, k)
  {
    if t == 0 {
      assert pc[t := p][1..] == pc[1..];
    } else {
      assert pc[t := p][1..] == pc[1..][t - 1 := p];
      LeftAfter(pc[1..], k, t - 1, p);
    }
  }

  function StepsAll(s: State, n: nat): nat
    requires n <= |s.pc|
  {
    if n == 0 then 0 else StepsAll(s, n - 1) + StepsLeft(s, n - 1)
  }

  lemma {:induction false} StepsAllAfter(s: State, t: Tid, s': State, n: nat)
    requires t < |s.pc| == |s'.pc| && n <= |s.pc|
    requires forall u: Tid | u < |s.pc| && u != t :: StepsLeft(s', u) == StepsLeft(s, u)
    ensures StepsAll(s', n) == StepsAll(s, n) + if t < n then StepsLeft(s', t) - StepsLeft(s, t) else 0
  {
    if n > 0 {
      StepsAllAfter(s, t, s', n - 1);
    }
  }

  predicate Closer(s: State, s': State) {
    || LeftAll(s'.pc, s'.k) < LeftAll(s.pc, s.k)
    || (LeftAll(s'.pc, s'.k) == LeftAll(s.pc, s.k) && StepsAll(s', |s'.pc|) < StepsAll(s, |s.pc|))
  }

  lemma OwnStepIsCloser(s: State, t: Tid)
    requires Inv(s) && t < |s.pc| && !s.pc[t].Finished? && (s.lock == None || s.lock == Some(t))
    ensures Closer(s, Own(s, t))
  {
    var s' := Own(s, t);
    OwnStepAdvances(s, t);
    LeftAfter(s.pc, s.k, t, s'.pc[t]);
    if !Advanced(s, s', t) {
      StepsAllAfter(s, t, s', |s.pc|);
    }
  }

  // While a thread is not finished some thread has a step that leaves less to do.
  lemma SomeStepIsCloser(s: State, t: Tid) returns (u: Tid, s': State)
    requires Inv(s) && t < |s.pc| && !s.pc[t].Finished?
    ensures u < |s.pc| && !s.pc[u].Finished? && Step(s, u, s') && Closer(s, s')
  {
    u := t;
    if s.lock.Some? {
      u := s.lock.value;
      assert InLock(s.pc[u]);
    }
    OwnStepAdvances(s, u);
    OwnStepIsCloser(s, u);
    s' := Own(s, u);
  }

  // ---- The unsynchronised counter ----

  ghost predicate RegOk(s: State, p: PC) {
    p.Store? ==> p.reg <= Total(s.pc, s.k) && (p.i >= 1 ==> p.reg >= 1)
  }

  ghost predicate Unfinished(s: State, t: Tid) {
    t < |s.pc| && Done(s.pc[t], s.k) < s.k
  }

  ghost predicate RaceInv(s: State) {
    && Sane(s) && s.mode.Unsynchronised?
    && s.counter <= Total(s.pc, s.k)
    && (forall t | 0 <= t < |s.pc| :: RegOk(s, s.pc[t]))
    && (s.counter >= 1 || forall t | 0 <= t < |s.pc| :: Done(s.pc[t], s.k) == 0)
    && (s.k >= 2 && s.pc != [] ==> s.counter >= 2 || exists t :: Unfinished(s, t))
    && (|s.pc| == 1 ==> Undisturbed(s))
  }

  // A single thread loses nothing.
  ghost predicate Undisturbed(s: State)
    requires s.pc != []
  {
    s.counter == Done(s.pc[0], s.k) && (s.pc[0].Store? ==> s.pc[0].reg == s.counter)
  }

  lemma InitRace(s: State, n: nat)
    requires Init(s, n) && s.mode.Unsynchronised?
    ensures RaceInv(s)
  {
    TotalOfUniform(s.pc, s.k, 0);
    assert s.k >= 2 && n >= 1 ==> Unfinished(s, 0);
  }

  lemma StepKeepsUndisturbed(s: State, s': State)
    requires RaceInv(s) && |s.pc| == 1 && Step(s, 0, s') && Increments(1, s.k) < WORD
    ensures s'.pc != [] && Undisturbed(s')
  {
    StepEffect(s, 0, s');
  }

  lemma StepKeepsRegs(s: State, t: Tid, s': State)
    requires RaceInv(s) && t < |s.pc| && Step(s, t, s')
    ensures forall u | 0 <= u < |s'.pc| :: RegOk(s', s'.pc[u])
  {
    StepEffect(s, t, s');
    TotalAfter(s.pc, s.k, t, s'.pc[t]);
    forall u | 0 <= u < |s'.pc|
      ensures RegOk(s', s'.pc[u])
    {
      assert RegOk(s, s.pc[u]);
    }
  }

  lemma StepKeepsUnfinished(s: State, t: Tid, s': State)
    requires RaceInv(s) && t < |s.pc| && Step(s, t, s') && s.k >= 2 && s'.counter < 2
    requires s.pc[t].Store? ==> s'.counter == s.pc[t].reg + 1
    ensures exists u :: Unfinished(s', u)
  {
    StepEffect(s, t, s');
    assert RegOk(s, s.pc[t]);
    if s.pc[t].Store? {
      assert Unfinished(s', t);
    } else {
      var u :| Unfinished(s, u);
      assert Unfinished(s', u);
    }
  }

  lemma StepKeepsRace(s: State, t: Tid, s': State)
    requires RaceInv(s) && t < |s.pc| && Step(s, t, s') && Increments(|s.pc|, s.k) < WORD
    ensures RaceInv(s') && s'.mode == s.mode && s'.k == s.k && |s'.pc| == |s.pc|
  {
    StepEffect(s, t, s');
    TotalAfter(s.pc, s.k, t, s'.pc[t]);
    forall u | 0 <= u < |s'.pc|
      ensures Done(s'.pc[u], s.k) <= s.k
    {
    }
    TotalAtMost(s'.pc, s.k);
    StepKeepsRegs(s, t, s');
    assert RegOk(s, s.pc[t]);
    if s.k >= 2 && s'.counter < 2 {
      StepKeepsUnfinished(s, t, s');
    }
    if |s.pc| == 1 {
      StepKeepsUndisturbed(s, s');
    }
  }

  // The least result of `n` threads that make `k` increments each.
  function Least(n: nat, k: nat): nat {
    if n == 0 || k == 0 then 0 else if k == 1 then 1 else if n == 1 then k else 2
  }

  // Lost updates can never take the counter below two, or below one for one iteration each, nor
  // above the number of increments; and one thread loses nothing.
  lemma RaceBounds(s: State)
    requires RaceInv(s) && AllFinished(s)
    ensures Least(|s.pc|, s.k) <= s.counter <= |s.pc| * s.k
  {
    TotalOfUniform(s.pc, s.k, s.k);
  }

  // ---- Every value between the bounds is reached ----

  ghost predicate Next(s: State, s': State) {
    exists t: Tid :: t < |s.pc| && Step(s, t, s')
  }

  ghost predicate Reachable(s: State, n: nat) {
    exists s0 :: Init(s0, n) && Leads(Next, s0, s)
  }

  lemma Extend(s: State, n: nat, t: Tid, s': State)
    requires Reachable(s, n) && t < |s.pc| && Step(s, t, s')
    ensures Reachable(s', n)
  {
    var s0 :| Init(s0, n) && Leads(Next, s0, s);
    LeadsOn(Next, s0, s, s');
  }

  // A run in progress with `n` threads and `k` iterations each, all between iterations but for
  // the first `t`.
  ghost predicate Racing(s: State, n: nat, k: nat, t: nat) {
    && Reachable(s, n) && s == State(Unsynchronised, k, s.counter, None, {}, s.pc) && |s.pc| == n
    && (forall u | 0 <= u < n :: Done(s.pc[u], k) <= k && (u >= t ==> s.pc[u].Loop?))
    && s.counter <= Total(s.pc, k)
  }

  // There is room in the word for what a thread has left to do.
  lemma RoomLeft(s: State, n: nat, k: nat, t: Tid, j: nat)
    requires t < |s.pc| == n && s.pc[t].Loop? && s.pc[t].i <= j <= k && s.counter <= Total(s.pc, k)
    requires (forall u | 0 <= u < n :: Done(s.pc[u], k) <= k) && Increments(n, k) < WORD
    ensures s.counter + (j - s.pc[t].i) < WORD
    ensures Total(s.pc[t := Loop(j)], k) == Total(s.pc, k) + (j - s.pc[t].i)
    ensures Total(s.pc[t := Finished], k) == Total(s.pc, k) + (k - s.pc[t].i)
  {
    TotalAfter(s.pc, k, t, Loop(j));
    TotalAfter(s.pc, k, t, Finished);
    TotalAtMost(s.pc[t := Loop(j)], k);
  }

  // An undisturbed thread adds one per iteration.
  lemma {:induction false} RunAlone(s: State, n: nat, t: Tid, j: nat) returns (s': State)
    requires Reachable(s, n) && s.mode.Unsynchronised? && t < |s.pc|
    requires s.pc[t].Loop? && s.pc[t].i <= j <= s.k && s.counter + (j - s.pc[t].i) < WORD
    ensures Reachable(s', n)
    ensures s' == s.(counter := s.counter + (j - s.pc[t].i)).At(t, Loop(j))
    decreases j - s.pc[t].i
  {
    var i := s.pc[t].i;
    if i == j {
      s' := s;
      assert s.pc == s.pc[t := Loop(j)];
    } else {
      var s1 := LoadNext(s, n, t);
      var s2 := s1.(counter := Inc(s.counter)).At(t, Loop(i + 1));
      Extend(s1, n, t, s2);
      s' := RunAlone(s2, n, t, j);
      assert s.pc[t := Store(i, s.counter)][t := Loop(i + 1)][t := Loop(j)] == s.pc[t := Loop(j)];
    }
  }

  // A thread enters its next iteration and loads the counter.
  lemma LoadNext(s: State, n: nat, t: Tid) returns (s': State)
    requires Reachable(s, n) && s.mode.Unsynchronised? && t < |s.pc| && s.pc[t].Loop? && s.pc[t].i < s.k
    ensures Reachable(s', n) && s' == s.At(t, Store(s.pc[t].i, s.counter))
  {
    var i := s.pc[t].i;
    var s1 := s.At(t, Load(i));
    Extend(s, n, t, s1);
    s' := s1.At(t, Store(i, s.counter));
    Extend(s1, n, t, s');
    assert s.pc[t := Load(i)][t := Store(i, s.counter)] == s.pc[t := Store(i, s.counter)];
  }

  // It then runs its remaining iterations and finishes.
  lemma RunToEnd(s: State, n: nat, t: Tid) returns (s': State)
    requires Reachable(s, n) && s.mode.Unsynchronised? && t < |s.pc|
    requires s.pc[t].Loop? && s.pc[t].i <= s.k && s.counter + (s.k - s.pc[t].i) < WORD
    ensures Reachable(s', n)
    ensures s' == s.(counter := s.counter + (s.k - s.pc[t].i)).At(t, Finished)
  {
    var s1 := RunAlone(s, n, t, s.k);
    s' := s1.At(t, Finished);
    Extend(s1, n, t, s');
    assert s.pc[t := Loop(s.k)][t := Finished] == s.pc[t := Finished];
  }

  // The threads from `t` on run to their ends one after the other.
  lemma {:induction false} RunRest(s: State, n: nat, k: nat, t: nat) returns (s': State)
    requires Racing(s, n, k, t) && t <= n && Increments(n, k) < WORD
    ensures Racing(s', n, k, n) && s'.counter - s.counter == Total(s'.pc, k) - Total(s.pc, k)
    ensures forall u | 0 <= u < n :: s'.pc[u] == if u < t then s.pc[u] else Finished
    decreases n - t
  {
    if t == n {
      s' := s;
    } else {
      RoomLeft(s, n, k, t, k);
      var s1 := RunToEnd(s, n, t);
      s' := RunRest(s1, n, k, t + 1);
    }
  }

  // The threads from `t` on, which have not begun, make `y` increments together.
  lemma {:induction false} RunSome(s: State, n: nat, k: nat, t: nat, y: nat) returns (s': State)
    requires Racing(s, n, k, t) && t <= n && Increments(n, k) < WORD && y <= Increments(n - t, k)
    requires forall u | t <= u < n :: s.pc[u] == Loop(0)
    ensures Racing(s', n, k, t) && s'.counter == s.counter + y && Total(s'.pc, k) == Total(s.pc, k) + y
    ensures forall u | 0 <= u < t :: s'.pc[u] == s.pc[u]
    decreases n - t
  {
    if t == n {
      s' := s;
    } else {
      var j := if y <= k then y else k;
      RoomLeft(s, n, k, t, j);
      var s1 := RunAlone(s, n, t, j);
      assert Increments(n - t, k) == k + Increments(n - (t + 1), k);
      s' := RunSome(s1, n, k, t + 1, y - j);
      assert s'.pc[t] == s1.pc[t];
    }
  }

  lemma Start(n: nat, k: nat) returns (s: State)
    ensures Racing(s, n, k, 0) && s.counter == 0 && Total(s.pc, k) == 0
    ensures forall t | 0 <= t < n :: s.pc[t] == Loop(0)
  {
    s := State(Unsynchronised, k, 0, None, {}, seq(n, _ => Loop(0)));
    assert Init(s, n);
    LeadsToSelf(Next, s);
    TotalOfUniform(s.pc, k, 0);
  }

  // A run of `n` threads with `k` iterations each has ended with `v`.
  ghost predicate EndsWith(s: State, n: nat, k: nat, v: nat) {
    Reachable(s, n) && s.mode.Unsynchronised? && s.k == k && |s.pc| == n && AllFinished(s) && s.counter == v
  }

  // Thread 0 keeps the zero it loaded while the others make `y` increments, and throws them away.
  lemma LoseSome(n: nat, k: nat, y: nat) returns (s: State)
    requires n >= 1 && k >= 1 && Increments(n, k) < WORD && y <= Increments(n - 1, k)
    ensures EndsWith(s, n, k, Increments(n, k) - y)
  {
    var s0 := Start(n, k);
    var s1 := LoadNext(s0, n, 0);
    TotalAfter(s0.pc, k, 0, Store(0, 0));
    var s2 := RunSome(s1, n, k, 1, y);
    var s3 := s2.(counter := 1).At(0, Loop(1));
    Extend(s2, n, 0, s3);
    TotalAfter(s2.pc, k, 0, Loop(1));
    s := RunRest(s3, n, k, 0);
    TotalOfUniform(s.pc, k, k);
    IncrementsIsProduct(n, k);
  }

  // Thread 0 keeps the zero it loaded while the others run, all but the last iteration of
  // thread 1, and then throws their work away.
  lemma WorkThrownAway(n: nat, k: nat) returns (s: State)
    requires n >= 2 && k >= 2 && Increments(n, k) < WORD
    ensures Reachable(s, n) && s == State(Unsynchronised, k, 1, None, {}, s.pc) && |s.pc| == n
    ensures s.pc[0] == Loop(1) && s.pc[1] == Loop(k - 1)
    ensures forall t | 2 <= t < n :: s.pc[t].Finished?
  {
    var s0 := Start(n, k);
    var s1 := LoadNext(s0, n, 0);
    TotalAfter(s0.pc, k, 0, Store(0, 0));
    var s2 := RunRest(s1, n, k, 2);
    RoomLeft(s2, n, k, 1, k - 1);
    var s3 := RunAlone(s2, n, 1, k - 1);
    s := s3.(counter := 1).At(0, Loop(1));
    Extend(s3, n, 0, s);
  }

  // Thread 1 then keeps a value that thread 0 has reached, and does the same to thread 0.
  lemma LoseMore(n: nat, k: nat, v: nat) returns (s: State)
    requires n >= 2 && k >= 2 && Increments(n, k) < WORD && 2 <= v <= k
    ensures EndsWith(s, n, k, v)
  {
    assert Increments(n, k) == k + Increments(n - 1, k);
    var s0 := WorkThrownAway(n, k);
    var s1 := RunAlone(s0, n, 0, v - 1);
    var s2 := LoadNext(s1, n, 1);
    var s3 := RunToEnd(s2, n, 0);
    var s4 := s3.(counter := v).At(1, Loop(k));
    Extend(s3, n, 1, s4);
    s := s4.At(1, Finished);
    Extend(s4, n, 1, s);
  }

  lemma NoWork(n: nat, k: nat) returns (s: State)
    requires n == 0 || k == 0
    ensures EndsWith(s, n, k, 0)
  {
    var s0 := Start(n, k);
    IncrementsIsProduct(n, k);
    s := RunRest(s0, n, k, 0);
    TotalOfUniform(s.pc, k, k);
  }

  lemma EveryResultIsReached(n: nat, k: nat, v: nat) returns (s: State)
    requires n * k < WORD && Least(n, k) <= v <= n * k
    ensures EndsWith(s, n, k, v)
  {
    IncrementsIsProduct(n, k);
    if n == 0 || k == 0 {
      s := NoWork(n, k);
    } else {
      assert Increments(n, k) == k + Increments(n - 1, k);
      if v >= k {
        s := LoseSome(n, k, n * k - v);
      } else {
        s := LoseMore(n, k, v);
      }
    }
  }

  lemma ReachableRace(s: State, n: nat)
    requires Reachable(s, n) && s.mode.Unsynchronised? && Increments(n, s.k) < WORD
    ensures RaceInv(s) && |s.pc| == n
  {
    var s0 :| Init(s0, n) && Leads(Next, s0, s);
    var k := s0.k;
    var mode := s0.mode;
    var inv := (a: State) => RunKeeps(a, n, k, mode);
    assert inv(s0) by {
      if mode.Unsynchronised? {
        InitRace(s0, n);
      }
      InitInv(s0, n);
    }
    forall a, b | inv(a) && Next(a, b) ensures inv(b) {
      NextKeepsRace(a, b, n, k, mode);
    }
    LeadsKeeps(Next, inv, s0, s);
  }

  ghost predicate RunKeeps(s: State, n: nat, k: nat, mode: Mode) {
    && Inv(s) && |s.pc| == n && s.k == k && s.mode == mode
    && (mode.Unsynchronised? && Increments(n, k) < WORD ==> RaceInv(s))
  }

  lemma NextKeepsRace(s: State, s': State, n: nat, k: nat, mode: Mode)
    requires RunKeeps(s, n, k, mode) && Next(s, s')
    ensures RunKeeps(s', n, k, mode)
  {
    var t: Tid :| t < |s.pc| && Step(s, t, s');
    StepKeepsInv(s, t, s');
    if mode.Unsynchronised? && Increments(n, k) < WORD {
      StepKeepsRace(s, t, s');
    }
  }

  // What unsynchronised threads can end with, exactly.
  lemma RaceResultsAre(n: nat, k: nat, v: nat)
    requires n * k < WORD
    ensures (exists s :: EndsWith(s, n, k, v)) <==> Least(n, k) <= v <= n * k
  {
    IncrementsIsProduct(n, k);
    if Least(n, k) <= v <= n * k {
      var s := EveryResultIsReached(n, k, v);
    }
    forall s | EndsWith(s, n, k, v) ensures Least(n, k) <= v <= n * k {
      ReachableRace(s, n);
      RaceBounds(s);
    }
  }
}
