// The open and release protocols of the access-controlled scull devices, as interleaved steps.
//
// An opener stands for one open call and, when it succeeds, the file it leaves open until its
// release. There may be any number of them.

// scullsingle: one atomic counter admits one opener at a time.
module SingleOpen {
  import opened Runs

  type Tid = nat

  // Failed is a caller whose decrement did not reach zero and who has not put it back yet.
  datatype PC = Idle | Failed | Holder

  datatype State = State(available: int, pc: map<Tid, PC>)

  function In(s: State, p: PC): set<Tid> {
    set t | t in s.pc && s.pc[t] == p
  }

  ghost predicate Init(s: State) {
    s.available == 1 && forall t | t in s.pc :: s.pc[t] == Idle
  }

  ghost predicate Step(s: State, t: Tid, s': State)
    requires t in s.pc
  {
    match s.pc[t]
    case Idle =>
      s' == State(s.available - 1, s.pc[t := if s.available - 1 == 0 then Holder else Failed])
    case Failed => s' == State(s.available + 1, s.pc[t := Idle])
    case Holder => s' == State(s.available + 1, s.pc[t := Idle])
  }

  ghost predicate Next(s: State, s': State) {
    exists t :: t in s.pc && Step(s, t, s')
  }

  ghost predicate Reachable(s: State) {
    exists s0 :: Init(s0) && Leads(Next, s0, s)
  }

  ghost predicate Inv(s: State) {
    && s.available == 1 - |In(s, Holder)| - |In(s, Failed)|
    && |In(s, Holder)| <= 1
  }

  lemma InAfter(s: State, t: Tid, p: PC, available: int, q: PC)
    requires t in s.pc
    ensures In(State(available, s.pc[t := p]), q) == if p == q then In(s, q) + {t} else In(s, q) - {t}
  {
  }

  lemma StepKeepsInv(s: State, t: Tid, s': State)
    requires Inv(s) && t in s.pc && Step(s, t, s')
    ensures Inv(s')
  {
    InAfter(s, t, s'.pc[t], s'.available, Holder);
    InAfter(s, t, s'.pc[t], s'.available, Failed);
  }

  lemma InitInv(s: State)
    requires Init(s)
    ensures Inv(s)
  {
    assert In(s, Holder) == {} && In(s, Failed) == {};
  }

  lemma ReachableInv(s: State)
    requires Reachable(s)
    ensures Inv(s)
  {
    var s0 :| Init(s0) && Leads(Next, s0, s);
    InitInv(s0);
    forall a, b | Inv(a) && Next(a, b) ensures Inv(b) {
      var t :| t in a.pc && Step(a, t, b);
      StepKeepsInv(a, t, b);
    }
    LeadsKeeps(Next, Inv, s0, s);
  }

  // The counter accounts for the holder and for every failed open not yet undone.
  lemma CounterAccountsForAll(s: State)
    requires Reachable(s)
    ensures s.available == 1 - |In(s, Holder)| - |In(s, Failed)|
  {
    ReachableInv(s);
  }

  lemma TwoInSet(a: Tid, b: Tid, x: set<Tid>)
    requires a in x && b in x && a != b
    ensures |x| >= 2
  {
    assert |x - {a}| > 0 by {
      assert b in x - {a};
    }
  }

  lemma AtMostOneHolder(s: State, a: Tid, b: Tid)
    requires Reachable(s)
    requires a in s.pc && b in s.pc && s.pc[a] == Holder && s.pc[b] == Holder
    ensures a == b
  {
    ReachableInv(s);
    if a != b {
      TwoInSet(a, b, In(s, Holder));
    }
  }

  // An open is refused exactly when the device is held or another refused open has not yet put
  // its decrement back.
  lemma RefusedIff(s: State, t: Tid, s': State)
    requires Reachable(s) && t in s.pc && s.pc[t] == Idle && Step(s, t, s')
    ensures s'.pc[t] == Failed <==> exists u :: u in s.pc && u != t && s.pc[u] != Idle
  {
    ReachableInv(s);
    if s'.pc[t] == Failed {
      assert |In(s, Holder)| + |In(s, Failed)| > 0;
      if In(s, Holder) != {} {
        var u :| u in In(s, Holder);
        assert u in s.pc && u != t && s.pc[u] != Idle;
      } else {
        var u :| u in In(s, Failed);
        assert u in s.pc && u != t && s.pc[u] != Idle;
      }
    } else {
      assert s.available == 1;
      forall u | u in s.pc && u != t
        ensures s.pc[u] == Idle
      {
        assert In(s, Holder) == {} && In(s, Failed) == {};
        assert u !in In(s, Holder) && u !in In(s, Failed);
      }
    }
  }

  // So a caller can be refused although nobody holds the device: three callers suffice.
  lemma FreeDeviceCanRefuse() returns (before: State, after: State)
    ensures Reachable(before) && Next(before, after)
    ensures In(before, Holder) == {}
    ensures 2 in before.pc && before.pc[2] == Idle && 2 in after.pc && after.pc[2] == Failed
  {
    var s0 := State(1, map[0 := Idle, 1 := Idle, 2 := Idle]);
    var s1 := State(0, s0.pc[0 := Holder]);
    var s2 := State(-1, s1.pc[1 := Failed]);
    before := State(0, s2.pc[0 := Idle]);
    after := State(-1, before.pc[2 := Failed]);
    assert Step(s0, 0, s1) && Step(s1, 1, s2) && Step(s2, 0, before) && Step(before, 2, after);
    assert Init(s0);
    LeadsToSelf(Next, s0);
    LeadsOn(Next, s0, s0, s1);
    LeadsOn(Next, s0, s1, s2);
    LeadsOn(Next, s0, s2, before);
  }
}

// scullwuid: several openers of one owner at a time, the others sleep until the device is free.
module OwnedOpen {
  import opened Common
  import opened Runs

  type Tid = nat

  datatype Cred = Cred(uid: nat, euid: nat, capable: bool, nonblock: bool)

  // `queued` tells the tests made after joining the wait queue from those made before. The
  // names in W load one shared variable each, without the lock; the two comparisons with the owner
  // may share one load.
  datatype PC =
    | Idle
      // scull_w_open
    | OLock
    | OTest
    | OGrab
    | OCount
    | OUnlock
    | OBack
    | WCount(queued: bool)
    | WOwner(queued: bool)
    | WOwnerAgain(queued: bool)
    | WPrepare
    | WSched
    | WFinish
      // the file is open
    | Holding
      // scull_w_release
    | RLock
    | RDec
    | RUnlock(temp: int)
    | RWake

  datatype State = State(
    count: int,
    owner: nat,
    lock: Option<Tid>,
    waiters: set<Tid>,
    cred: map<Tid, Cred>,
    pc: map<Tid, PC>)
  {
    function At(t: Tid, p: PC): State {
      this.(pc := pc[t := p])
    }

    predicate Available(t: Tid)
      requires t in cred
    {
      count == 0 || owner == cred[t].uid || owner == cred[t].euid || cred[t].capable
    }
  }

  ghost predicate Init(s: State) {
    && s.count == 0 && s.lock == None && s.waiters == {}
    && s.pc.Keys == s.cred.Keys
    && forall t | t in s.pc :: s.pc[t] == Idle
  }

  function Admitted(queued: bool): PC {
    if queued then WFinish else OLock
  }

  // The end of a test that has not found the owner to be the caller.
  function Tested(s: State, t: Tid, queued: bool): PC
    requires t in s.cred
  {
    if s.owner == s.cred[t].euid || s.cred[t].capable then Admitted(queued) else if queued then WSched else WPrepare
  }

  ghost predicate Step(s: State, t: Tid, s': State)
    requires t in s.pc && t in s.cred
  {
    match s.pc[t]
    case Idle => s' == s.At(t, OLock)
    case OLock => s.lock == None && s' == s.(lock := Some(t)).At(t, OTest)
    case OTest =>
      s' == s.At(t, if !s.Available(t) then OBack else if s.count == 0 then OGrab else OCount)
    case OGrab => s' == s.(owner := s.cred[t].uid).At(t, OCount)
    case OCount => s' == s.(count := s.count + 1).At(t, OUnlock)
    case OUnlock => s' == s.(lock := None).At(t, Holding)
    case OBack => s' == s.(lock := None).At(t, if s.cred[t].nonblock then Idle else WCount(false))
    case WCount(q) => s' == s.At(t, if s.count == 0 then Admitted(q) else WOwner(q))
    case WOwner(q) =>
      || s' == s.At(t, if s.owner == s.cred[t].uid then Admitted(q) else WOwnerAgain(q))
      || s' == s.At(t, if s.owner == s.cred[t].uid then Admitted(q) else Tested(s, t, q))
    case WOwnerAgain(q) => s' == s.At(t, Tested(s, t, q))
    case WPrepare => s' == s.(waiters := s.waiters + {t}).At(t, WCount(true))
    case WSched =>
      || (t !in s.waiters && s' == s.At(t, WPrepare))
      || s' == s.(waiters := s.waiters - {t}).At(t, Idle)
    case WFinish => s' == s.(waiters := s.waiters - {t}).At(t, OLock)
    case Holding => s' == s.At(t, RLock)
    case RLock => s.lock == None && s' == s.(lock := Some(t)).At(t, RDec)
    case RDec => s' == s.(count := s.count - 1).At(t, RUnlock(s.count - 1))
    case RUnlock(temp) => s' == s.(lock := None).At(t, if temp == 0 then RWake else Idle)
    case RWake => s' == s.(waiters := {}).At(t, Idle)
  }

  ghost predicate Next(s: State, s': State) {
    exists t :: t in s.pc && t in s.cred && Step(s, t, s')
  }

  ghost predicate Reachable(s: State) {
    exists s0 :: Init(s0) && Leads(Next, s0, s)
  }

  // ---- What every state of a run satisfies ----

  predicate InLock(p: PC) {
    p.OTest? || p.OGrab? || p.OCount? || p.OUnlock? || p.OBack? || p.RDec? || p.RUnlock?
  }

  // Openers that the counter counts: admitted, and not yet taken off by their release.
  predicate Counted(p: PC) {
    p.OUnlock? || p.Holding? || p.RLock? || p.RDec?
  }

  function Holders(s: State): set<Tid> {
    set t | t in s.pc && Counted(s.pc[t])
  }

  // A release has brought the counter to zero but has not woken the queue yet.
  ghost predicate WakePending(s: State) {
    exists u :: u in s.pc && (s.pc[u] == RUnlock(0) || s.pc[u].RWake?)
  }

  predicate Allowed(s: State, t: Tid)
    requires t in s.cred
  {
    s.owner == s.cred[t].uid || s.owner == s.cred[t].euid || s.cred[t].capable
  }

  ghost predicate LockInv(s: State) {
    && s.pc.Keys == s.cred.Keys
    && (s.lock.Some? ==> s.lock.value in s.pc)
    && forall t | t in s.pc :: InLock(s.pc[t]) <==> s.lock == Some(t)
  }

  // What the lock holder knows, and why every holder may hold.
  ghost predicate OwnerInv(s: State)
    requires s.pc.Keys == s.cred.Keys
  {
    forall t | t in s.pc ::
      && (s.pc[t].OGrab? ==> s.count == 0)
      && (s.pc[t].OCount? || Counted(s.pc[t]) ==> Allowed(s, t))
  }

  // What a waiter that is still on the queue has learnt stays true until a wake-up is due.
  ghost predicate Learnt(s: State, t: Tid)
    requires t in s.pc && t in s.cred
  {
    match s.pc[t]
    case WCount(q) => q
    case WOwner(q) => q && (s.count != 0 || WakePending(s))
    case WOwnerAgain(q) => q && ((s.count != 0 && s.owner != s.cred[t].uid) || WakePending(s))
    case WSched => !s.Available(t) || WakePending(s)
    case WFinish => true
    case _ => false
  }

  ghost predicate QueueInv(s: State) {
    forall t | t in s.waiters :: t in s.pc && t in s.cred && Learnt(s, t)
  }

  ghost predicate Inv(s: State) {
    LockInv(s) && OwnerInv(s) && QueueInv(s) && s.count == |Holders(s)|
  }

  // ---- Preservation ----

  lemma HoldersAfter(s: State, t: Tid, s': State)
    requires t in s.pc && t in s.cred && Step(s, t, s')
    ensures t in s'.pc && s'.pc == s.pc[t := s'.pc[t]] && s'.cred == s.cred
    ensures Holders(s') == if Counted(s'.pc[t]) then Holders(s) + {t} else Holders(s) - {t}
  {
  }

  // The two variables the tests read change only in these steps.
  lemma SharedEffect(s: State, t: Tid, s': State)
    requires t in s.pc && t in s.cred && Step(s, t, s')
    ensures s'.owner != s.owner ==> s.pc[t].OGrab?
    ensures s'.count == s.count + (if s.pc[t].OCount? then 1 else if s.pc[t].RDec? then -1 else 0)
    ensures s.pc[t].RDec? ==> s'.pc[t] == RUnlock(s'.count)
  {
  }

  ghost predicate LockEffect(s: State, t: Tid, s': State)
    requires t in s.pc
  {
    && t in s'.pc
    && (|| (s'.lock == s.lock && (InLock(s'.pc[t]) <==> InLock(s.pc[t])))
        || (s.lock == None && s'.lock == Some(t) && InLock(s'.pc[t]))
        || (InLock(s.pc[t]) && s'.lock == None && !InLock(s'.pc[t])))
  }

  lemma StepLock(s: State, t: Tid, s': State)
    requires t in s.pc && t in s.cred && Step(s, t, s')
    ensures LockEffect(s, t, s')
  {
  }

  lemma StepKeepsLock(s: State, t: Tid, s': State)
    requires LockInv(s) && t in s.pc && Step(s, t, s')
    ensures LockInv(s')
  {
    HoldersAfter(s, t, s');
    StepLock(s, t, s');
    EffectKeepsLock(s, t, s');
  }

  lemma EffectKeepsLock(s: State, t: Tid, s': State)
    requires LockInv(s) && t in s.pc && LockEffect(s, t, s')
    requires s'.pc == s.pc[t := s'.pc[t]] && s'.cred == s.cred
    ensures LockInv(s')
  {
  }

  lemma StepKeepsCount(s: State, t: Tid, s': State)
    requires Inv(s) && t in s.pc && Step(s, t, s')
    ensures s'.count == |Holders(s')|
  {
    HoldersAfter(s, t, s');
  }

  // The owner is set by a thread inside the lock that has seen no holder.
  lemma OwnerSet(s: State, t: Tid, s': State)
    requires Inv(s) && t in s.pc && Step(s, t, s') && s'.owner != s.owner
    ensures s.pc[t].OGrab? && s.lock == Some(t) && Holders(s) == {}
  {
    SharedEffect(s, t, s');
    assert InLock(s.pc[t]) <==> s.lock == Some(t);
  }

  lemma StepKeepsOwner(s: State, t: Tid, s': State)
    requires Inv(s) && t in s.pc && Step(s, t, s')
    ensures s'.pc.Keys == s'.cred.Keys && OwnerInv(s')
  {
    HoldersAfter(s, t, s');
    SharedEffect(s, t, s');
    if s'.owner != s.owner {
      OwnerSet(s, t, s');
    }
    forall u | u in s'.pc
      ensures s'.pc[u].OGrab? ==> s'.count == 0
      ensures s'.pc[u].OCount? || Counted(s'.pc[u]) ==> Allowed(s', u)
    {
      assert Counted(s.pc[u]) ==> u in Holders(s);
      assert InLock(s.pc[u]) <==> s.lock == Some(u);
    }
  }

  // A pending wake-up stays pending until it empties the queue.
  lemma PendingStays(s: State, t: Tid, s': State)
    requires LockInv(s) && t in s.pc && Step(s, t, s') && WakePending(s)
    ensures WakePending(s') || s'.waiters == {}
  {
    var u :| u in s.pc && (s.pc[u] == RUnlock(0) || s.pc[u].RWake?);
    HoldersAfter(s, t, s');
    if u != t {
      assert s'.pc[u] == s.pc[u];
    } else if s.pc[t] == RUnlock(0) {
      assert s'.pc[u].RWake?;
    }
  }

  lemma OthersStayLearnt(s: State, t: Tid, s': State, u: Tid)
    requires Inv(s) && t in s.pc && Step(s, t, s')
    requires u in s'.waiters && u != t
    ensures u in s.waiters && u in s'.pc && u in s'.cred && Learnt(s', u)
  {
    HoldersAfter(s, t, s');
    SharedEffect(s, t, s');
    assert u in s.waiters && Learnt(s, u);
    if WakePending(s) {
      PendingStays(s, t, s');
    } else if s.pc[t].RDec? && s'.count == 0 {
      assert s'.pc[t] == RUnlock(0);
      assert WakePending(s');
    } else if s.count != 0 {
      assert s'.owner == s.owner;
    }
  }

  lemma OwnLearnt(s: State, t: Tid, s': State)
    requires LockInv(s) && QueueInv(s) && t in s.pc && Step(s, t, s') && t in s'.waiters
    ensures t in s'.pc && t in s'.cred && Learnt(s', t)
  {
    if WakePending(s) {
      PendingStays(s, t, s');
    }
  }

  lemma StepKeepsInv(s: State, t: Tid, s': State)
    requires Inv(s) && t in s.pc && Step(s, t, s')
    ensures Inv(s')
  {
    StepKeepsLock(s, t, s');
    StepKeepsOwner(s, t, s');
    StepKeepsCount(s, t, s');
    HoldersAfter(s, t, s');
    forall u | u in s'.waiters
      ensures u in s'.pc && u in s'.cred && Learnt(s', u)
    {
      if u != t {
        OthersStayLearnt(s, t, s', u);
      } else {
        OwnLearnt(s, t, s');
      }
    }
  }

  lemma InitInv(s: State)
    requires Init(s)
    ensures Inv(s)
  {
    assert Holders(s) == {};
  }

  lemma NextKeepsInv(s: State, s': State)
    requires Inv(s) && Next(s, s')
    ensures Inv(s')
  {
    var t :| t in s.pc && t in s.cred && Step(s, t, s');
    StepKeepsInv(s, t, s');
  }

  lemma ReachableInv(s: State)
    requires Reachable(s)
    ensures Inv(s)
  {
    var s0 :| Init(s0) && Leads(Next, s0, s);
    InitInv(s0);
    forall a, b | Inv(a) && Next(a, b) ensures Inv(b) {
      NextKeepsInv(a, b);
    }
    LeadsKeeps(Next, Inv, s0, s);
  }

  // ---- Main results ----

  // The counter is the number of open files, and each of them passes the check against the
  // present owner.
  lemma CountIsHolders(s: State)
    requires Reachable(s)
    ensures s.count == |Holders(s)|
    ensures forall t | t in Holders(s) :: t in s.cred && Allowed(s, t)
  {
    ReachableInv(s);
  }

  // The owner is the uid of an opener that has found the device free.
  lemma OwnerChangesOnlyWhenFree(s: State, s': State)
    requires Reachable(s) && Next(s, s') && s'.owner != s.owner
    ensures Holders(s) == {}
    ensures exists t :: t in s.pc && t in s.cred && s.pc[t].OGrab? && s'.owner == s.cred[t].uid
  {
    ReachableInv(s);
    var t :| t in s.pc && t in s.cred && Step(s, t, s');
    SharedEffect(s, t, s');
    assert s.count == 0;
  }

  // ---- Who is admitted ----

  // An opener is refused exactly when somebody has the device open, the owner is neither its uid
  // nor its euid, and it has not the capability. It takes a device that nobody has open.
  lemma RefusedIff(s: State, t: Tid, s': State)
    requires Reachable(s) && t in s.pc && t in s.cred && s.pc[t].OTest? && Step(s, t, s')
    ensures t in s'.pc
    ensures s'.pc[t].OBack? <==>
            Holders(s) != {} && s.owner != s.cred[t].uid && s.owner != s.cred[t].euid && !s.cred[t].capable
    ensures s'.pc[t].OGrab? <==> Holders(s) == {}
    ensures s'.pc[t].OBack? || s'.pc[t].OGrab? || s'.pc[t].OCount?
  {
    ReachableInv(s);
    if s.count == 0 {
      assert Holders(s) == {};
    }
  }

  // A signal can end the wait of a sleeper, which leaves the queue and nothing else behind.
  lemma SignalEndsWait(s: State, t: Tid) returns (s': State)
    requires t in s.pc && t in s.cred && s.pc[t].WSched?
    ensures Step(s, t, s') && s' == s.(waiters := s.waiters - {t}).At(t, Idle)
  {
    s' := s.(waiters := s.waiters - {t}).At(t, Idle);
  }

  // A waiter is on the queue when it starts the test that can send it to sleep, and is taken off
  // by its own return or next attempt, or by a release that wakes them all.
  lemma QueueChanges(s: State, t: Tid, s': State)
    requires Reachable(s) && Next(s, s') && t in s.pc && t in s'.pc
    ensures s.pc[t].WPrepare? && s'.pc[t] != s.pc[t] ==> t in s'.waiters
    ensures t in s.waiters && t !in s'.waiters ==>
              || s'.pc[t].OLock? || s'.pc[t].Idle?
              || (s'.waiters == {} && exists u :: u in s.pc && s.pc[u].RWake?)
    ensures s.pc[t].WSched? && t in s.waiters && s'.pc[t] != s.pc[t] ==> s'.pc[t].Idle?
  {
    var u :| u in s.pc && u in s.cred && Step(s, u, s');
  }

  predicate Waits(p: PC) {
    p.WCount? || p.WOwner? || p.WOwnerAgain? || p.WPrepare? || p.WSched? || p.WFinish?
  }

  ghost predicate CallOk(s: State, t: Tid)
    requires t in s.pc && t in s.cred
  {
    && (s.pc[t].RUnlock? ==> s.pc[t].temp == s.count)
    && (s.cred[t].nonblock ==> !Waits(s.pc[t]) && t !in s.waiters)
  }

  ghost predicate CallsOk(s: State) {
    Inv(s) && forall t | t in s.pc :: CallOk(s, t)
  }

  lemma OwnCallOk(s: State, t: Tid, s': State)
    requires CallsOk(s) && t in s.pc && t in s.cred && Step(s, t, s')
    ensures t in s'.pc && t in s'.cred && CallOk(s', t)
  {
    assert CallOk(s, t);
  }

  lemma OtherCallOk(s: State, t: Tid, s': State, u: Tid)
    requires CallsOk(s) && t in s.pc && t in s.cred && Step(s, t, s') && u in s.pc && u != t
    ensures u in s'.pc && u in s'.cred && CallOk(s', u)
  {
    HoldersAfter(s, t, s');
    SharedEffect(s, t, s');
    assert CallOk(s, u);
    assert InLock(s.pc[u]) <==> s.lock == Some(u);
    assert InLock(s.pc[t]) <==> s.lock == Some(t);
  }

  lemma ReachableCallsOk(s: State)
    requires Reachable(s)
    ensures CallsOk(s)
  {
    var s0 :| Init(s0) && Leads(Next, s0, s);
    InitInv(s0);
    forall a, b | CallsOk(a) && Next(a, b) ensures CallsOk(b) {
      var t :| t in a.pc && t in a.cred && Step(a, t, b);
      StepKeepsInv(a, t, b);
      HoldersAfter(a, t, b);
      forall u | u in b.pc ensures CallOk(b, u) {
        if u == t {
          OwnCallOk(a, t, b);
        } else {
          OtherCallOk(a, t, b, u);
        }
      }
    }
    LeadsKeeps(Next, CallsOk, s0, s);
  }

  // A refused opener returns exactly if it asked not to block, and then it never waits.
  lemma RefusedReturnsIff(s: State, t: Tid, s': State)
    requires Reachable(s) && t in s.pc && t in s.cred && s.pc[t].OBack? && Step(s, t, s')
    ensures t in s'.pc && (s'.pc[t].Idle? <==> s.cred[t].nonblock) && (s'.pc[t].Idle? || Waits(s'.pc[t]))
  {
  }

  lemma NonblockingNeverWaits(s: State, t: Tid)
    requires Reachable(s) && t in s.pc && t in s.cred && s.cred[t].nonblock
    ensures !Waits(s.pc[t]) && t !in s.waiters
  {
    ReachableCallsOk(s);
    assert CallOk(s, t);
  }

  // A test made by a waiter lets it go on only if the device is available to it at that moment.
  lemma WaiterGoesOnRightly(s: State, t: Tid, s': State)
    requires t in s.pc && t in s.cred && Step(s, t, s') && t in s'.pc
    requires s.pc[t].WCount? || s.pc[t].WOwner? || s.pc[t].WOwnerAgain?
    requires s'.pc[t].WFinish? || s'.pc[t].OLock?
    ensures s.Available(t)
  {
  }

  // A release wakes the queue exactly if nobody has the device open any more.
  lemma ReleaseWakesIff(s: State, t: Tid, s': State)
    requires Reachable(s) && t in s.pc && t in s.cred && s.pc[t].RUnlock? && Step(s, t, s')
    ensures t in s'.pc && (s'.pc[t].RWake? <==> Holders(s) == {}) && (s'.pc[t].RWake? || s'.pc[t].Idle?)
  {
    ReachableCallsOk(s);
    assert CallOk(s, t);
    if s.count == 0 {
      assert Holders(s) == {};
    }
  }

  // ---- Sleep ----

  // A waiter asleep on the queue although it could open: a release is about to wake it.
  lemma NoLostWakeup(s: State, t: Tid)
    requires Reachable(s) && t in s.pc && s.pc[t] == WSched && t in s.waiters
    ensures t in s.cred && (s.Available(t) ==> WakePending(s))
  {
    ReachableInv(s);
    assert Learnt(s, t);
  }

  // Openers sleep only while somebody else holds the device or is about to wake them.
  lemma SleepersWaitForHolders(s: State, t: Tid)
    requires Reachable(s) && t in s.pc && s.pc[t] == WSched && t in s.waiters
    ensures WakePending(s) || exists u :: u in Holders(s) && u != t
  {
    NoLostWakeup(s, t);
    ReachableInv(s);
    if !WakePending(s) {
      assert Holders(s) != {};
      var u :| u in Holders(s);
      assert u != t;
    }
  }

  // Nothing but the spinlock and sleep on the queue stops an opener.
  lemma CanStep(s: State, t: Tid) returns (s': State)
    requires Reachable(s) && t in s.pc && t in s.cred
    requires !(s.pc[t].WSched? && t in s.waiters)
    requires s.pc[t].OLock? || s.pc[t].RLock? ==> s.lock == None
    ensures Step(s, t, s') && t in s'.pc && s'.pc[t] != s.pc[t]
  {
    ReachableInv(s);
    assert InLock(s.pc[t]) <==> s.lock == Some(t);
    var c := s.cred[t];
    match s.pc[t] {
      case Idle => s' := s.At(t, OLock);
      case OLock => s' := s.(lock := Some(t)).At(t, OTest);
      case OTest => s' := s.At(t, if !s.Available(t) then OBack else if s.count == 0 then OGrab else OCount);
      case OGrab => s' := s.(owner := c.uid).At(t, OCount);
      case OCount => s' := s.(count := s.count + 1).At(t, OUnlock);
      case OUnlock => s' := s.(lock := None).At(t, Holding);
      case OBack => s' := s.(lock := None).At(t, if c.nonblock then Idle else WCount(false));
      case WCount(q) => s' := s.At(t, if s.count == 0 then Admitted(q) else WOwner(q));
      case WOwner(q) => s' := s.At(t, if s.owner == c.uid then Admitted(q) else WOwnerAgain(q));
      case WOwnerAgain(q) => s' := s.At(t, Tested(s, t, q));
      case WPrepare => s' := s.(waiters := s.waiters + {t}).At(t, WCount(true));
      case WSched => s' := s.At(t, WPrepare);
      case WFinish => s' := s.(waiters := s.waiters - {t}).At(t, OLock);
      case Holding => s' := s.At(t, RLock);
      case RLock => s' := s.(lock := Some(t)).At(t, RDec);
      case RDec => s' := s.(count := s.count - 1).At(t, RUnlock(s.count - 1));
      case RUnlock(temp) => s' := s.(lock := None).At(t, if temp == 0 then RWake else Idle);
      case RWake => s' := s.(waiters := {}).At(t, Idle);
    }
  }

  // While one opener sleeps on the queue, another one that does not sleep can move without
  // waiting for a signal: whoever is inside the lock, a release on its way to the wake-up, or a
  // holder who may release.
  lemma SleeperIsNotAlone(s: State, t: Tid) returns (u: Tid, s': State)
    requires Reachable(s) && t in s.pc && s.pc[t] == WSched && t in s.waiters
    ensures u in s.pc && u in s.cred && u != t && !s.pc[u].WSched?
    ensures Step(s, u, s') && u in s'.pc && s'.pc[u] != s.pc[u]
  {
    ReachableInv(s);
    SleepersWaitForHolders(s, t);
    if s.lock.Some? {
      u := s.lock.value;
      assert InLock(s.pc[u]);
    } else if WakePending(s) {
      u :| u in s.pc && (s.pc[u] == RUnlock(0) || s.pc[u].RWake?);
    } else {
      u :| u in Holders(s) && u != t;
    }
    s' := CanStep(s, u);
  }
}
