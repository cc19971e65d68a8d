// Blocking readers and writers of one scull pipe, as interleaved steps.
//
// Any number of threads call scull_p_read, scull_p_write and scull_p_open on the same device. A
// step is one access to shared state: taking or dropping the mutex, one load of `rp` or `wp` by
// the tests that run without the mutex, one store to them, joining or leaving a wait queue,
// going to sleep, waking a queue. Copying bytes and adding to a pointer are one step, given by
// PipeRing: nobody else looks at the bytes meanwhile.
module PipeProtocol {
  import opened Common
  import opened PipeRing
  import opened Runs
  import DivMod

  type Tid = nat

  // A test without the mutex compares the two pointers, and scull_getwritespace then subtracts
  // them. The operands of either may be loaded in any order, and the subtraction may use again
  // what the comparison has loaded. This is what is loaded for the one under way.
  datatype Seen = Nothing | SeenRp(p: nat) | SeenWp(p: nat)

  // Where a thread is. `looping` tells the test inside wait_event_interruptible's loop, made
  // after joining the queue, from the one made before joining it.
  datatype PC =
    | Idle
      // scull_p_read
    | RLock(count: nat)
    | RTest(count: nat)
    | RCompare(count: nat, looping: bool, seen: Seen)
    | RPrepare(count: nat)
    | RSched(count: nat)
    | RFinish(count: nat)
    | RWrap
    | RUnlock
    | RWake
      // scull_p_write and scull_getwritespace
    | WLock(src: seq<Byte>)
    | WTest(src: seq<Byte>)
    | WPrepare(src: seq<Byte>)
    | WCompare(src: seq<Byte>, seen: Seen)
    | WSubtract(src: seq<Byte>, seen: Seen)
    | WSched(src: seq<Byte>)
    | WFinish(src: seq<Byte>)
    | WWrap
    | WUnlock
    | WWake
      // scull_p_open
    | OLock
    | OWp
    | ORp
    | OUnlock

  // `accepted` and `returned` record the bytes taken from writers and given to readers. A pointer
  // that has been added to and not yet wrapped stands at the end of the buffer; `ring` has it
  // wrapped already, and the flags tell.
  datatype State = State(
    ring: Ring,
    rpAtEnd: bool,
    wpAtEnd: bool,
    lock: Option<Tid>,
    inq: set<Tid>,
    outq: set<Tid>,
    pc: map<Tid, PC>,
    accepted: seq<Byte>,
    returned: seq<Byte>)
  {
    function At(t: Tid, p: PC): State {
      this.(pc := pc[t := p])
    }

    function Unlocked(): State {
      this.(lock := None)
    }

    // What a load of the pointer gives.
    function Rp(): nat {
      if rpAtEnd then |ring.buf| else ring.rp
    }

    function Wp(): nat {
      if wpAtEnd then |ring.buf| else ring.wp
    }

    // The pair of values once the missing one is loaded.
    function RpWith(seen: Seen): nat {
      if seen.SeenRp? then seen.p else Rp()
    }

    function WpWith(seen: Seen): nat {
      if seen.SeenWp? then seen.p else Wp()
    }

    predicate Loads(seen: Seen) {
      seen == SeenRp(Rp()) || seen == SeenWp(Wp())
    }
  }

  // ---- Steps ----

  ghost predicate Init(s: State) {
    && |s.ring.buf| > 0 && s.ring.rp == 0 && s.ring.wp == 0 && !s.rpAtEnd && !s.wpAtEnd
    && s.lock == None && s.inq == {} && s.outq == {}
    && (forall t | t in s.pc :: s.pc[t] == Idle)
    && s.accepted == [] && s.returned == []
  }

  ghost predicate ReadStep(s: State, t: Tid, s': State)
    requires t in s.pc && s.ring.Valid()
  {
    match s.pc[t]
    case RLock(count) =>
      s.lock == None && s' == s.(lock := Some(t)).At(t, RTest(count))
    case RTest(count) =>
      if s.ring.rp == s.ring.wp then
        || s' == s.Unlocked().At(t, Idle)
        || s' == s.Unlocked().At(t, RCompare(count, false, Nothing))
      else
        || s' == s.Unlocked().At(t, Idle)
        || s' == TakeBytes(s, t, count)
    case RWrap =>
      s' == s.(rpAtEnd := false).At(t, RUnlock)
    case RUnlock =>
      s' == s.Unlocked().At(t, RWake)
    case RWake =>
      s' == s.(outq := {}).At(t, Idle)
    case _ => false
  }

  // wait_event_interruptible, after the reader has dropped the mutex.
  ghost predicate AwaitStep(s: State, t: Tid, s': State)
    requires t in s.pc
  {
    match s.pc[t]
    case RCompare(count, looping, seen) =>
      if seen.Nothing? then
        || s' == s.At(t, RCompare(count, looping, SeenRp(s.Rp())))
        || s' == s.At(t, RCompare(count, looping, SeenWp(s.Wp())))
      else
        s' == s.At(t, if s.RpWith(seen) != s.WpWith(seen) then (if looping then RFinish(count) else RLock(count))
                      else (if looping then RSched(count) else RPrepare(count)))
    case RPrepare(count) =>
      s' == s.(inq := s.inq + {t}).At(t, RCompare(count, true, Nothing))
    case RSched(count) =>
      t !in s.inq && s' == s.At(t, RPrepare(count))
    case RFinish(count) =>
      s' == s.(inq := s.inq - {t}).At(t, RLock(count))
    case _ => false
  }

  ghost predicate WriteStep(s: State, t: Tid, s': State)
    requires t in s.pc && s.ring.Valid()
  {
    match s.pc[t]
    case WLock(src) =>
      s.lock == None && s' == s.(lock := Some(t)).At(t, WTest(src))
    case WTest(src) =>
      if s.ring.SpaceFree() == 0 then
        || s' == s.Unlocked().At(t, Idle)
        || s' == s.Unlocked().At(t, WPrepare(src))
      else
        && s.ring.SpaceFree() > 0
        && (|| (exists reach: nat :: reach < s.ring.WriteCount(|src|) && s' == FaultingWrite(s, t, src, reach))
            || s' == PutBytes(s, t, src))
    case WWrap =>
      s' == s.(wpAtEnd := false).At(t, WUnlock)
    case WUnlock =>
      s' == s.Unlocked().At(t, WWake)
    case WWake =>
      s' == s.(inq := {}).At(t, Idle)
    case _ => false
  }

  // spacefree(), called without the mutex.
  ghost predicate SpaceFreeStep(s: State, t: Tid, s': State)
    requires t in s.pc && s.ring.Valid()
  {
    match s.pc[t]
    case WCompare(src, seen) =>
      if seen.Nothing? then
        || s' == s.At(t, WCompare(src, SeenRp(s.Rp())))
        || s' == s.At(t, WCompare(src, SeenWp(s.Wp())))
      else if s.RpWith(seen) == s.WpWith(seen) then
        s' == s.At(t, if |s.ring.buf| - 1 == 0 then WSched(src) else WFinish(src))
      else
        || s' == s.At(t, WSubtract(src, Nothing))
        || s' == s.At(t, WSubtract(src, SeenRp(s.RpWith(seen))))
        || s' == s.At(t, WSubtract(src, SeenWp(s.WpWith(seen))))
        || s' == s.At(t, Tested(s, src, seen))
    case WSubtract(src, seen) =>
      if seen.Nothing? then
        || s' == s.At(t, WSubtract(src, SeenRp(s.Rp())))
        || s' == s.At(t, WSubtract(src, SeenWp(s.Wp())))
      else
        s' == s.At(t, Tested(s, src, seen))
    case _ => false
  }

  // The rest of scull_getwritespace, after it has dropped the mutex.
  ghost predicate GetSpaceStep(s: State, t: Tid, s': State)
    requires t in s.pc && s.ring.Valid()
  {
    match s.pc[t]
    case WPrepare(src) =>
      s' == s.(outq := s.outq + {t}).At(t, WCompare(src, Nothing))
    case WSched(src) =>
      t !in s.outq && s' == s.At(t, WFinish(src))
    case WFinish(src) =>
      s' == s.(outq := s.outq - {t}).At(t, WLock(src))
    case _ => false
  }

  ghost predicate WaitStep(s: State, t: Tid, s': State)
    requires t in s.pc && s.ring.Valid()
  {
    AwaitStep(s, t, s') || SpaceFreeStep(s, t, s') || GetSpaceStep(s, t, s')
  }

  // The steps of readers and writers, and the end of an open.
  ghost predicate Proceed(s: State, t: Tid, s': State)
    requires t in s.pc && s.ring.Valid()
  {
    match s.pc[t]
    case Idle => t in s'.pc && (s'.pc[t].RLock? || s'.pc[t].WLock?) && s' == s.At(t, s'.pc[t])
    case OUnlock => s' == s.Unlocked().At(t, Idle)
    case _ => ReadStep(s, t, s') || WriteStep(s, t, s') || WaitStep(s, t, s')
  }

  // The end of a writer's test, once both operands of the subtraction are there.
  function Tested(s: State, src: seq<Byte>, seen: Seen): PC
    requires |s.ring.buf| > 0
  {
    if TestsFull(s.RpWith(seen), s.WpWith(seen), |s.ring.buf|) then WSched(src) else WFinish(src)
  }

  predicate TestsFull(rp: nat, wp: nat, size: nat)
    requires size > 0
  {
    (rp + size - wp) % size - 1 == 0
  }

  // A signal makes the interruptible lock attempts and sleeps give up.
  ghost predicate Signal(s: State, t: Tid, s': State)
    requires t in s.pc
  {
    match s.pc[t]
    case RLock(_) => s' == s.At(t, Idle)
    case WLock(_) => s' == s.At(t, Idle)
    case OLock => s' == s.At(t, Idle)
    case RSched(_) => s' == s.(inq := s.inq - {t}).At(t, Idle)
    case WSched(_) => s' == s.(outq := s.outq - {t}).At(t, Idle)
    case _ => false
  }

  ghost predicate Step(s: State, t: Tid, s': State)
    requires t in s.pc && s.ring.Valid()
  {
    Proceed(s, t, s') || Signal(s, t, s')
  }

  // An open of a device that has its buffer: the two stores that reset the pointers, with the
  // mutex held.
  ghost predicate OpenStep(s: State, t: Tid, s': State)
    requires t in s.pc
  {
    match s.pc[t]
    case Idle => s' == s.At(t, OLock)
    case OLock => s.lock == None && s' == s.(lock := Some(t)).At(t, OWp)
    case OWp => s' == s.(ring := s.ring.(wp := 0)).At(t, ORp)
    case ORp => s' == s.(ring := s.ring.(rp := 0), accepted := [], returned := []).At(t, OUnlock)
    case _ => false
  }

  function TakeBytes(s: State, t: Tid, count: nat): State
    requires s.ring.Valid()
  {
    var n := s.ring.ReadCount(count);
    s.(ring := s.ring.AdvanceRead(n), rpAtEnd := s.ring.rp + n == |s.ring.buf|,
       returned := s.returned + s.ring.buf[s.ring.rp..s.ring.rp + n]).At(t, RWrap)
  }

  function PutBytes(s: State, t: Tid, src: seq<Byte>): State
    requires s.ring.Valid() && s.ring.SpaceFree() > 0
  {
    var n := s.ring.WriteCount(|src|);
    s.(ring := s.ring.CopyIn(src[..n]).AdvanceWrite(n), wpAtEnd := s.ring.wp + n == |s.ring.buf|,
       accepted := s.accepted + src[..n]).At(t, WWrap)
  }

  function FaultingWrite(s: State, t: Tid, src: seq<Byte>, reach: nat): State
    requires s.ring.Valid() && s.ring.SpaceFree() > 0 && reach < s.ring.WriteCount(|src|)
  {
    s.(ring := s.ring.CopyIn(src[..reach])).Unlocked().At(t, Idle)
  }

  ghost predicate Next(s: State, s': State) {
    s.ring.Valid() && exists t :: t in s.pc && Step(s, t, s')
  }

  // Runs without a further open, from the state the first open leaves.
  ghost predicate Reachable(s: State) {
    exists s0 :: Init(s0) && Leads(Next, s0, s)
  }

  ghost predicate OpenNext(s: State, s': State) {
    exists t :: t in s.pc && OpenStep(s, t, s')
  }

  ghost predicate AnyNext(s: State, s': State) {
    Next(s, s') || OpenNext(s, s')
  }

  // Runs with any number of opens.
  ghost predicate OpenReachable(s: State) {
    exists s0 :: Init(s0) && Leads(AnyNext, s0, s)
  }

  // ---- What every state of a run satisfies ----

  // A writer has published bytes but has not woken the readers yet; and the other way round.
  ghost predicate ReadersWakePending(s: State) {
    exists u :: u in s.pc && (s.pc[u].WWrap? || s.pc[u].WUnlock? || s.pc[u].WWake?)
  }

  ghost predicate WritersWakePending(s: State) {
    exists u :: u in s.pc && (s.pc[u].RWrap? || s.pc[u].RUnlock? || s.pc[u].RWake?)
  }

  // No space, told from where the pointers stand.
  predicate FullAt(rp: nat, wp: nat, size: nat) {
    if rp <= wp then wp - rp == size - 1 else rp - wp == 1
  }

  predicate Full(s: State) {
    FullAt(s.ring.rp, s.ring.wp, |s.ring.buf|)
  }

  lemma FullMeansNoSpace(s: State)
    requires s.ring.Valid()
    ensures Full(s) <==> s.ring.SpaceFree() == 0
    ensures !Full(s) <==> s.ring.SpaceFree() > 0
  {
  }

  predicate HoldsLock(p: PC) {
    || p.RTest? || p.RWrap? || p.RUnlock? || p.WTest? || p.WWrap? || p.WUnlock?
    || p.OWp? || p.ORp? || p.OUnlock?
  }

  // Where a thread may be while it is on a queue.
  predicate OnReadersQueue(p: PC) {
    (p.RCompare? && p.looping) || p.RSched? || p.RFinish?
  }

  predicate OnWritersQueue(p: PC) {
    Tests(p) || p.WSched? || p.WFinish?
  }

  // A writer in the middle of its test.
  predicate Tests(p: PC) {
    p.WCompare? || p.WSubtract?
  }

  predicate LoadedInRange(p: PC, size: nat) {
    (p.RCompare? || Tests(p)) && !p.seen.Nothing? ==> p.seen.p <= size
  }

  // The place in the buffer that the value of a pointer stands for.
  function Place(p: nat, size: nat): nat {
    if p == size then 0 else p
  }

  ghost predicate LockInv(s: State) {
    && (s.lock.Some? ==> s.lock.value in s.pc)
    && forall t | t in s.pc :: HoldsLock(s.pc[t]) <==> s.lock == Some(t)
  }

  // Only the thread that is about to wrap a pointer leaves it at the end; and an open resets
  // `wp` first.
  ghost predicate EndInv(s: State) {
    && (s.rpAtEnd ==> s.ring.rp == 0 && s.lock.Some? && s.lock.value in s.pc && s.pc[s.lock.value].RWrap?)
    && (s.wpAtEnd ==> s.ring.wp == 0 && s.lock.Some? && s.lock.value in s.pc && s.pc[s.lock.value].WWrap?)
    && (s.lock.Some? && s.lock.value in s.pc && s.pc[s.lock.value].ORp? ==> s.ring.wp == 0)
  }

  ghost predicate QueueShape(s: State) {
    && (forall t | t in s.inq :: t in s.pc && OnReadersQueue(s.pc[t]))
    && (forall t | t in s.outq :: t in s.pc && OnWritersQueue(s.pc[t]))
    && (forall t | t in s.pc :: LoadedInRange(s.pc[t], |s.ring.buf|))
  }

  // What holds in every run, whatever opens do to the data.
  ghost predicate Shape(s: State) {
    s.ring.Valid() && LockInv(s) && EndInv(s) && QueueShape(s)
  }

  ghost predicate DataInv(s: State) {
    s.ring.Valid() && s.accepted == s.returned + s.ring.Contents()
  }

  // What is known about a reader still on the queue, that is, not woken since it joined, if
  // nothing has been put since: a pointer it loaded still tells whether the pipe is empty.
  ghost predicate ReaderKnows(s: State, p: PC)
    requires s.ring.Valid()
  {
    || ReadersWakePending(s)
    || (&& (p.RCompare? && p.seen.SeenRp? && s.ring.wp == p.seen.p ==> s.ring.rp == s.ring.wp)
        && (p.RCompare? && p.seen.SeenWp? ==> Place(p.seen.p, |s.ring.buf|) == s.ring.wp || s.ring.rp == s.ring.wp)
        && (p.RSched? ==> s.ring.rp == s.ring.wp))
  }

  // And about a writer, if nothing has been taken since: `rp` is what it loaded, and a `wp` at
  // which the pipe would be full is where `wp` is.
  ghost predicate WriterKnows(s: State, p: PC)
    requires s.ring.Valid()
  {
    || WritersWakePending(s)
    || ((Tests(p) ==> SeenHolds(s.ring, p.seen)) && (p.WSched? ==> Full(s)))
  }

  predicate SeenHolds(r: Ring, seen: Seen) {
    match seen
    case Nothing => true
    case SeenRp(p) => Place(p, |r.buf|) == r.rp
    case SeenWp(p) => FullAt(r.rp, Place(p, |r.buf|), |r.buf|) ==> Place(p, |r.buf|) == r.wp
  }

  ghost predicate KnowledgeInv(s: State)
    requires s.ring.Valid()
  {
    && (forall t | t in s.inq :: t in s.pc && ReaderKnows(s, s.pc[t]))
    && (forall t | t in s.outq :: t in s.pc && WriterKnows(s, s.pc[t]))
  }

  ghost predicate Inv(s: State) {
    Shape(s) && DataInv(s) && KnowledgeInv(s)
  }

  // ---- Preservation ----

  lemma TakeKeepsData(s: State, t: Tid, count: nat)
    requires DataInv(s) && s.ring.rp != s.ring.wp
    ensures DataInv(TakeBytes(s, t, count))
  {
    var r := s.ring;
    ReadTakesPrefix(r, count);
    var n := r.ReadCount(count);
    Assoc(s.returned, r.buf[r.rp..r.rp + n], r.AdvanceRead(n).Contents());
  }

  lemma PutKeepsData(s: State, t: Tid, src: seq<Byte>)
    requires DataInv(s) && s.ring.SpaceFree() > 0
    ensures DataInv(PutBytes(s, t, src))
  {
    WriteAppends(s.ring, src);
    Assoc(s.returned, s.ring.Contents(), src[..s.ring.WriteCount(|src|)]);
  }

  // The ways a step can touch the data.
  ghost predicate Takes(s: State, t: Tid, s': State)
    requires s.ring.Valid() && t in s.pc
  {
    s.pc[t].RTest? && s.ring.rp != s.ring.wp && s' == TakeBytes(s, t, s.pc[t].count)
  }

  ghost predicate Puts(s: State, t: Tid, s': State)
    requires s.ring.Valid() && t in s.pc
  {
    s.pc[t].WTest? && s.ring.SpaceFree() > 0 && s' == PutBytes(s, t, s.pc[t].src)
  }

  ghost predicate Faults(s: State, t: Tid, s': State)
    requires s.ring.Valid() && t in s.pc
  {
    && s.pc[t].WTest? && s.ring.SpaceFree() > 0
    && exists reach: nat :: reach < s.ring.WriteCount(|s.pc[t].src|) && s' == FaultingWrite(s, t, s.pc[t].src, reach)
  }

  ghost predicate DataUntouched(s: State, s': State) {
    s'.ring == s.ring && s'.accepted == s.accepted && s'.returned == s.returned
  }

  // A step of a call that waits, or a signal to it.
  ghost predicate Apart(s: State, s': State) {
    && s'.ring == s.ring && s'.rpAtEnd == s.rpAtEnd && s'.wpAtEnd == s.wpAtEnd
    && s'.accepted == s.accepted && s'.returned == s.returned
  }

  lemma AwaitApart(s: State, t: Tid, s': State)
    requires t in s.pc && AwaitStep(s, t, s')
    ensures Apart(s, s')
  {
  }

  lemma SpaceFreeApart(s: State, t: Tid, s': State)
    requires t in s.pc && s.ring.Valid() && SpaceFreeStep(s, t, s')
    ensures Apart(s, s')
  {
  }

  lemma GetSpaceApart(s: State, t: Tid, s': State)
    requires t in s.pc && s.ring.Valid() && GetSpaceStep(s, t, s')
    ensures Apart(s, s')
  {
  }

  lemma WaitApart(s: State, t: Tid, s': State)
    requires t in s.pc && s.ring.Valid() && WaitStep(s, t, s')
    ensures Apart(s, s') && !s.pc[t].RWrap? && !s.pc[t].WWrap?
  {
    if AwaitStep(s, t, s') {
      AwaitApart(s, t, s');
    } else if SpaceFreeStep(s, t, s') {
      SpaceFreeApart(s, t, s');
    } else {
      GetSpaceApart(s, t, s');
    }
  }

  lemma ReadData(s: State, t: Tid, s': State)
    requires s.ring.Valid() && t in s.pc && ReadStep(s, t, s')
    ensures DataUntouched(s, s') || Takes(s, t, s')
  {
  }

  lemma WriteData(s: State, t: Tid, s': State)
    requires s.ring.Valid() && t in s.pc && WriteStep(s, t, s')
    ensures DataUntouched(s, s') || Puts(s, t, s') || Faults(s, t, s')
  {
  }

  lemma DataEffect(s: State, t: Tid, s': State)
    requires s.ring.Valid() && t in s.pc && Step(s, t, s')
    ensures DataUntouched(s, s') || Takes(s, t, s') || Puts(s, t, s') || Faults(s, t, s')
  {
    if Signal(s, t, s') || s.pc[t].Idle? || s.pc[t].OUnlock? {
    } else if ReadStep(s, t, s') {
      ReadData(s, t, s');
    } else if WriteStep(s, t, s') {
      WriteData(s, t, s');
    } else {
      WaitApart(s, t, s');
    }
  }

  lemma DataStep(s: State, t: Tid, s': State)
    requires DataInv(s) && t in s.pc && Step(s, t, s')
    ensures DataInv(s')
  {
    DataEffect(s, t, s');
    if Takes(s, t, s') {
      TakeKeepsData(s, t, s.pc[t].count);
    } else if Puts(s, t, s') {
      PutKeepsData(s, t, s.pc[t].src);
    } else if Faults(s, t, s') {
      var src := s.pc[t].src;
      var reach: nat :| reach < s.ring.WriteCount(|src|) && s' == FaultingWrite(s, t, src, reach);
      FaultKeepsQueue(s.ring, src[..reach]);
    }
  }

  // What any step does to the mutex.
  ghost predicate LockEffect(s: State, t: Tid, s': State)
    requires t in s.pc
  {
    && t in s'.pc && s'.pc == s.pc[t := s'.pc[t]]
    && (|| (s'.lock == s.lock && (HoldsLock(s'.pc[t]) <==> HoldsLock(s.pc[t])))
        || (s.lock == None && s'.lock == Some(t) && HoldsLock(s'.pc[t]))
        || (HoldsLock(s.pc[t]) && s'.lock == None && !HoldsLock(s'.pc[t])))
  }

  // Only the stepping thread joins a queue, and it stays only where queued threads may be.
  ghost predicate QueueEffect(s: State, t: Tid, s': State) {
    && t in s'.pc
    && s'.inq <= s.inq + {t} && s'.outq <= s.outq + {t}
    && (t in s'.inq ==> OnReadersQueue(s'.pc[t]))
    && (t in s'.outq ==> OnWritersQueue(s'.pc[t]))
    && LoadedInRange(s'.pc[t], |s.ring.buf|)
  }

  // How a thread comes to have a pointer loaded, to sleep, or to reset `rp`.
  ghost predicate TestEffect(s: State, t: Tid, s': State)
    requires t in s.pc && s.ring.Valid()
  {
    && t in s'.pc
    && (OnReadersQueue(s'.pc[t]) || OnWritersQueue(s'.pc[t]) ==> s'.ring == s.ring)
    && (t in s'.inq && t !in s.inq ==> s'.pc[t].RCompare? && s'.pc[t].seen.Nothing?)
    && (t in s'.outq && t !in s.outq ==> s'.pc[t].WCompare? && s'.pc[t].seen.Nothing?)
    && (s'.pc[t].RCompare? ==> s'.pc[t].seen.Nothing? || s.Loads(s'.pc[t].seen))
    && (s'.pc[t].RSched? ==>
          && s.pc[t].RCompare? && !s.pc[t].seen.Nothing?
          && s.RpWith(s.pc[t].seen) == s.WpWith(s.pc[t].seen))
    && (Tests(s'.pc[t]) ==>
          || s'.pc[t].seen.Nothing? || s.Loads(s'.pc[t].seen)
          || (Tests(s.pc[t]) && s'.pc[t].seen == s.pc[t].seen))
    && (s'.pc[t].WSched? ==>
          || |s.ring.buf| == 1
          || (Tests(s.pc[t]) && !s.pc[t].seen.Nothing?
              && TestsFull(s.RpWith(s.pc[t].seen), s.WpWith(s.pc[t].seen), |s.ring.buf|)))
    && !s'.pc[t].ORp?
  }

  ghost predicate Placed(s: State, t: Tid)
    requires t in s.pc
  {
    && (t in s.inq ==> OnReadersQueue(s.pc[t])) && (t in s.outq ==> OnWritersQueue(s.pc[t]))
    && LoadedInRange(s.pc[t], |s.ring.buf|)
  }

  lemma ReadLock(s: State, t: Tid, s': State)
    requires s.ring.Valid() && t in s.pc && ReadStep(s, t, s')
    ensures LockEffect(s, t, s')
  {
  }

  lemma ReadQueue(s: State, t: Tid, s': State)
    requires s.ring.Valid() && t in s.pc && ReadStep(s, t, s') && Placed(s, t)
    ensures QueueEffect(s, t, s')
  {
  }

  lemma WriteLock(s: State, t: Tid, s': State)
    requires s.ring.Valid() && t in s.pc && WriteStep(s, t, s')
    ensures LockEffect(s, t, s')
  {
  }

  lemma WriteQueue(s: State, t: Tid, s': State)
    requires s.ring.Valid() && t in s.pc && WriteStep(s, t, s') && Placed(s, t)
    ensures QueueEffect(s, t, s')
  {
  }

  lemma AwaitLock(s: State, t: Tid, s': State)
    requires s.ring.Valid() && t in s.pc && AwaitStep(s, t, s')
    ensures LockEffect(s, t, s')
  {
  }

  lemma AwaitQueue(s: State, t: Tid, s': State)
    requires s.ring.Valid() && t in s.pc && AwaitStep(s, t, s') && Placed(s, t)
    ensures QueueEffect(s, t, s')
  {
  }

  // A test moves its thread and nothing else.
  lemma SpaceFreeMoves(s: State, t: Tid, s': State)
    requires s.ring.Valid() && t in s.pc && SpaceFreeStep(s, t, s')
    ensures t in s'.pc && s' == s.At(t, s'.pc[t]) && Tests(s.pc[t]) && OnWritersQueue(s'.pc[t])
  {
  }

  lemma SpaceFreeInRange(s: State, t: Tid, s': State)
    requires s.ring.Valid() && t in s.pc && SpaceFreeStep(s, t, s') && LoadedInRange(s.pc[t], |s.ring.buf|)
    ensures t in s'.pc && LoadedInRange(s'.pc[t], |s.ring.buf|)
  {
  }

  lemma SpaceFreeLock(s: State, t: Tid, s': State)
    requires s.ring.Valid() && t in s.pc && SpaceFreeStep(s, t, s')
    ensures LockEffect(s, t, s')
  {
    SpaceFreeMoves(s, t, s');
  }

  lemma SpaceFreeQueue(s: State, t: Tid, s': State)
    requires s.ring.Valid() && t in s.pc && SpaceFreeStep(s, t, s') && Placed(s, t)
    ensures QueueEffect(s, t, s')
  {
    SpaceFreeMoves(s, t, s');
    SpaceFreeInRange(s, t, s');
  }

  lemma GetSpaceLock(s: State, t: Tid, s': State)
    requires s.ring.Valid() && t in s.pc && GetSpaceStep(s, t, s')
    ensures LockEffect(s, t, s')
  {
  }

  lemma GetSpaceQueue(s: State, t: Tid, s': State)
    requires s.ring.Valid() && t in s.pc && GetSpaceStep(s, t, s') && Placed(s, t)
    ensures QueueEffect(s, t, s')
  {
  }

  lemma WaitEffect(s: State, t: Tid, s': State)
    requires s.ring.Valid() && t in s.pc && WaitStep(s, t, s') && Placed(s, t)
    ensures LockEffect(s, t, s') && QueueEffect(s, t, s')
  {
    if AwaitStep(s, t, s') {
      AwaitLock(s, t, s');
      AwaitQueue(s, t, s');
    } else if SpaceFreeStep(s, t, s') {
      SpaceFreeLock(s, t, s');
      SpaceFreeQueue(s, t, s');
    } else {
      GetSpaceLock(s, t, s');
      GetSpaceQueue(s, t, s');
    }
  }

  lemma SignalEffect(s: State, t: Tid, s': State)
    requires t in s.pc && Placed(s, t) && Signal(s, t, s')
    ensures LockEffect(s, t, s') && QueueEffect(s, t, s')
  {
  }

  lemma OpenEffect(s: State, t: Tid, s': State)
    requires t in s.pc && Placed(s, t) && OpenStep(s, t, s')
    ensures LockEffect(s, t, s') && QueueEffect(s, t, s')
  {
  }

  lemma ReadTest(s: State, t: Tid, s': State)
    requires s.ring.Valid() && t in s.pc && ReadStep(s, t, s')
    ensures TestEffect(s, t, s')
  {
  }

  lemma WriteTest(s: State, t: Tid, s': State)
    requires s.ring.Valid() && t in s.pc && WriteStep(s, t, s')
    ensures TestEffect(s, t, s')
  {
  }

  lemma AwaitTest(s: State, t: Tid, s': State)
    requires s.ring.Valid() && t in s.pc && AwaitStep(s, t, s')
    ensures TestEffect(s, t, s')
  {
  }

  lemma SpaceFreeTest(s: State, t: Tid, s': State)
    requires s.ring.Valid() && t in s.pc && SpaceFreeStep(s, t, s')
    ensures TestEffect(s, t, s')
  {
  }

  lemma GetSpaceTest(s: State, t: Tid, s': State)
    requires s.ring.Valid() && t in s.pc && GetSpaceStep(s, t, s')
    ensures TestEffect(s, t, s')
  {
  }

  lemma StepTest(s: State, t: Tid, s': State)
    requires s.ring.Valid() && t in s.pc && Step(s, t, s')
    ensures TestEffect(s, t, s')
  {
    if Signal(s, t, s') {
    } else if s.pc[t].Idle? || s.pc[t].OUnlock? {
    } else if ReadStep(s, t, s') {
      ReadTest(s, t, s');
    } else if WriteStep(s, t, s') {
      WriteTest(s, t, s');
    } else if AwaitStep(s, t, s') {
      AwaitTest(s, t, s');
    } else if SpaceFreeStep(s, t, s') {
      SpaceFreeTest(s, t, s');
    } else {
      GetSpaceTest(s, t, s');
    }
  }

  lemma AnyEffect(s: State, t: Tid, s': State)
    requires Shape(s) && t in s.pc && (Step(s, t, s') || OpenStep(s, t, s'))
    ensures LockEffect(s, t, s') && QueueEffect(s, t, s')
  {
    if Signal(s, t, s') {
      SignalEffect(s, t, s');
    } else if OpenStep(s, t, s') {
      OpenEffect(s, t, s');
    } else if s.pc[t].Idle? || s.pc[t].OUnlock? {
    } else if ReadStep(s, t, s') {
      ReadLock(s, t, s');
      ReadQueue(s, t, s');
    } else if WriteStep(s, t, s') {
      WriteLock(s, t, s');
      WriteQueue(s, t, s');
    } else {
      WaitEffect(s, t, s');
    }
  }

  lemma EffectKeepsShape(s: State, t: Tid, s': State)
    requires Shape(s) && t in s.pc && LockEffect(s, t, s') && QueueEffect(s, t, s')
    requires |s'.ring.buf| == |s.ring.buf|
    ensures LockInv(s') && QueueShape(s')
  {
    forall u | u in s'.inq ensures u in s'.pc && OnReadersQueue(s'.pc[u]) {
    }
    forall u | u in s'.outq ensures u in s'.pc && OnWritersQueue(s'.pc[u]) {
    }
  }

  // What a step does to the pointers.
  ghost predicate PointerEffect(s: State, t: Tid, s': State)
    requires t in s.pc && s.ring.Valid()
  {
    && s'.ring.Valid() && |s'.ring.buf| == |s.ring.buf| && t in s'.pc
    && (s'.ring.rp != s.ring.rp ==> s.ring.rp != s.ring.wp && s'.pc[t].RWrap?)
    && (s'.ring.wp != s.ring.wp ==> !Full(s) && s'.pc[t].WWrap?)
    && (s'.rpAtEnd ==> s'.ring.rp == 0 && (s'.pc[t].RWrap? || (s.rpAtEnd && !s.pc[t].RWrap?)))
    && (s'.wpAtEnd ==> s'.ring.wp == 0 && (s'.pc[t].WWrap? || (s.wpAtEnd && !s.pc[t].WWrap?)))
  }

  lemma ReadPointers(s: State, t: Tid, s': State)
    requires Shape(s) && t in s.pc && ReadStep(s, t, s')
    ensures PointerEffect(s, t, s')
  {
  }

  lemma WritePointers(s: State, t: Tid, s': State)
    requires Shape(s) && t in s.pc && WriteStep(s, t, s')
    ensures PointerEffect(s, t, s')
  {
    FullMeansNoSpace(s);
  }

  // Steps that leave the pointers alone.
  lemma ApartPointers(s: State, t: Tid, s': State)
    requires Shape(s) && t in s.pc && t in s'.pc && Apart(s, s') && !s.pc[t].RWrap? && !s.pc[t].WWrap?
    ensures PointerEffect(s, t, s')
  {
  }

  lemma StepPointers(s: State, t: Tid, s': State)
    requires Shape(s) && t in s.pc && Step(s, t, s')
    ensures PointerEffect(s, t, s')
  {
    if Signal(s, t, s') || s.pc[t].Idle? || s.pc[t].OUnlock? {
      ApartPointers(s, t, s');
    } else if ReadStep(s, t, s') {
      ReadPointers(s, t, s');
    } else if WriteStep(s, t, s') {
      WritePointers(s, t, s');
    } else {
      WaitApart(s, t, s');
      WaitEffect(s, t, s');
      ApartPointers(s, t, s');
    }
  }

  lemma EffectKeepsEnds(s: State, t: Tid, s': State)
    requires Shape(s) && t in s.pc && LockEffect(s, t, s') && PointerEffect(s, t, s') && LockInv(s')
    requires s'.pc[t].ORp? ==> s.pc[t].ORp?
    ensures EndInv(s')
  {
    assert HoldsLock(s'.pc[t]) <==> s'.lock == Some(t);
  }

  lemma StepKeepsShape(s: State, t: Tid, s': State)
    requires Shape(s) && t in s.pc && Step(s, t, s')
    ensures Shape(s') && |s'.ring.buf| == |s.ring.buf|
  {
    StepPointers(s, t, s');
    AnyEffect(s, t, s');
    EffectKeepsShape(s, t, s');
    StepTest(s, t, s');
    EffectKeepsEnds(s, t, s');
  }

  lemma OpenKeepsShape(s: State, t: Tid, s': State)
    requires Shape(s) && t in s.pc && OpenStep(s, t, s')
    ensures Shape(s') && |s'.ring.buf| == |s.ring.buf|
  {
    AnyEffect(s, t, s');
    EffectKeepsShape(s, t, s');
    assert HoldsLock(s'.pc[t]) <==> s'.lock == Some(t);
  }

  // A wake-up that is due stays due until it is delivered, and delivering it empties the queue.
  lemma ReadersWakeStays(s: State, t: Tid, s': State)
    requires s.ring.Valid() && t in s.pc && Step(s, t, s') && LockEffect(s, t, s')
    ensures ReadersWakePending(s) ==> ReadersWakePending(s') || s'.inq == {}
    ensures s'.pc[t].WWrap? ==> ReadersWakePending(s')
  {
    if u :| u in s.pc && (s.pc[u].WWrap? || s.pc[u].WUnlock? || s.pc[u].WWake?) {
      assert u != t ==> s'.pc[u] == s.pc[u];
      assert s.pc[t].WWrap? ==> s'.pc[t].WUnlock?;
      assert s.pc[t].WUnlock? ==> s'.pc[t].WWake?;
    }
  }

  lemma WritersWakeStays(s: State, t: Tid, s': State)
    requires s.ring.Valid() && t in s.pc && Step(s, t, s') && LockEffect(s, t, s')
    ensures WritersWakePending(s) ==> WritersWakePending(s') || s'.outq == {}
    ensures s'.pc[t].RWrap? ==> WritersWakePending(s')
  {
    if u :| u in s.pc && (s.pc[u].RWrap? || s.pc[u].RUnlock? || s.pc[u].RWake?) {
      assert u != t ==> s'.pc[u] == s.pc[u];
      assert s.pc[t].RWrap? ==> s'.pc[t].RUnlock?;
      assert s.pc[t].RUnlock? ==> s'.pc[t].RWake?;
    }
  }

  // An unlocked test that a queued reader fails was right, or a wake-up is on its way.
  lemma EmptyTestIsSound(s: State, p: PC)
    requires Shape(s) && p.RCompare? && !p.seen.Nothing? && ReaderKnows(s, p)
    requires s.RpWith(p.seen) == s.WpWith(p.seen)
    ensures s.ring.rp == s.ring.wp || ReadersWakePending(s)
  {
  }

  // And so was a writer's, whichever pointer it loads last.
  lemma FullTestIsSound(s: State, p: PC)
    requires Shape(s) && Tests(p) && !p.seen.Nothing? && WriterKnows(s, p) && p.seen.p <= |s.ring.buf|
    requires TestsFull(s.RpWith(p.seen), s.WpWith(p.seen), |s.ring.buf|)
    ensures Full(s) || WritersWakePending(s)
  {
    LoadedIsPointer(s);
    TestMeansFull(s.RpWith(p.seen), s.WpWith(p.seen), |s.ring.buf|);
  }

  // The test may see either pointer at the end of the buffer instead of at its start.
  lemma TestMeansFull(rp0: nat, wp0: nat, size: nat)
    requires 0 < size && rp0 <= size && wp0 <= size
    ensures TestsFull(rp0, wp0, size) <==> FullAt(Place(rp0, size), Place(wp0, size), size) && size > 1
  {
    var x := rp0 + size - wp0;
    if x < size {
      DivMod.Unique(x, 0, x, size);
    } else if x < 2 * size {
      DivMod.Unique(x, 1, x - size, size);
    } else {
      DivMod.Unique(x, 2, 0, size);
    }
  }

  lemma OtherReaderKnows(s: State, t: Tid, s': State, p: PC)
    requires Shape(s) && t in s.pc && PointerEffect(s, t, s') && ReaderKnows(s, p)
    requires ReadersWakePending(s) ==> ReadersWakePending(s')
    requires s'.pc[t].WWrap? ==> ReadersWakePending(s')
    ensures ReaderKnows(s', p)
  {
  }

  lemma OtherWriterKnows(s: State, t: Tid, s': State, p: PC)
    requires Shape(s) && t in s.pc && PointerEffect(s, t, s') && WriterKnows(s, p)
    requires WritersWakePending(s) ==> WritersWakePending(s')
    requires s'.pc[t].RWrap? ==> WritersWakePending(s')
    ensures WriterKnows(s', p)
  {
  }

  lemma OwnReaderKnows(s: State, t: Tid, s': State)
    requires Shape(s) && KnowledgeInv(s) && t in s.pc && TestEffect(s, t, s')
    requires t in s'.inq && OnReadersQueue(s'.pc[t]) && (ReadersWakePending(s) ==> ReadersWakePending(s'))
    ensures ReaderKnows(s', s'.pc[t])
  {
    if s'.pc[t].RSched? {
      EmptyTestIsSound(s, s.pc[t]);
    }
  }

  lemma OwnWriterKnows(s: State, t: Tid, s': State)
    requires Shape(s) && KnowledgeInv(s) && t in s.pc && TestEffect(s, t, s')
    requires t in s'.outq && OnWritersQueue(s'.pc[t]) && (WritersWakePending(s) ==> WritersWakePending(s'))
    ensures WriterKnows(s', s'.pc[t])
  {
    LoadedIsPointer(s);
    if s'.pc[t].WSched? && |s.ring.buf| > 1 {
      assert LoadedInRange(s.pc[t], |s.ring.buf|);
      FullTestIsSound(s, s.pc[t]);
    }
  }

  lemma LoadedIsPointer(s: State)
    requires Shape(s)
    ensures s.Rp() <= |s.ring.buf| && Place(s.Rp(), |s.ring.buf|) == s.ring.rp
    ensures s.Wp() <= |s.ring.buf| && Place(s.Wp(), |s.ring.buf|) == s.ring.wp
  {
  }

  lemma KnowledgeStep(s: State, t: Tid, s': State)
    requires Shape(s) && KnowledgeInv(s) && t in s.pc && Step(s, t, s') && Shape(s')
    ensures KnowledgeInv(s')
  {
    StepPointers(s, t, s');
    StepTest(s, t, s');
    AnyEffect(s, t, s');
    ReadersWakeStays(s, t, s');
    WritersWakeStays(s, t, s');
    forall u | u in s'.inq ensures u in s'.pc && ReaderKnows(s', s'.pc[u]) {
      if u == t {
        OwnReaderKnows(s, t, s');
      } else {
        OtherReaderKnows(s, t, s', s.pc[u]);
      }
    }
    forall u | u in s'.outq ensures u in s'.pc && WriterKnows(s', s'.pc[u]) {
      if u == t {
        OwnWriterKnows(s, t, s');
      } else {
        OtherWriterKnows(s, t, s', s.pc[u]);
      }
    }
  }

  lemma StepKeepsInv(s: State, t: Tid, s': State)
    requires Inv(s) && t in s.pc && Step(s, t, s')
    ensures Inv(s') && |s'.ring.buf| == |s.ring.buf|
  {
    StepKeepsShape(s, t, s');
    DataStep(s, t, s');
    KnowledgeStep(s, t, s');
  }

  lemma NextKeepsInv(s: State, s': State)
    requires Inv(s) && Next(s, s')
    ensures Inv(s') && |s'.ring.buf| == |s.ring.buf|
  {
    var t :| t in s.pc && Step(s, t, s');
    StepKeepsInv(s, t, s');
  }

  lemma InitInv(s: State)
    requires Init(s)
    ensures Inv(s)
  {
  }

  lemma LeadsKeepsInv(s: State, s': State)
    requires Leads(Next, s, s') && Inv(s)
    ensures Inv(s')
  {
    forall a, b | Inv(a) && Next(a, b) ensures Inv(b) {
      NextKeepsInv(a, b);
    }
    LeadsKeeps(Next, Inv, s, s');
  }

  lemma ReachableInv(s: State)
    requires Reachable(s)
    ensures Inv(s)
  {
    var s0 :| Init(s0) && Leads(Next, s0, s);
    InitInv(s0);
    LeadsKeepsInv(s0, s);
  }

  lemma NextKeepsShape(s: State, s': State)
    requires Shape(s) && Next(s, s')
    ensures Shape(s')
  {
    var t :| t in s.pc && Step(s, t, s');
    StepKeepsShape(s, t, s');
  }

  lemma OpenNextKeepsShape(s: State, s': State)
    requires Shape(s) && OpenNext(s, s')
    ensures Shape(s')
  {
    var t :| t in s.pc && OpenStep(s, t, s');
    OpenKeepsShape(s, t, s');
  }

  lemma AnyNextKeepsShape(s: State, s': State)
    requires Shape(s) && AnyNext(s, s')
    ensures Shape(s')
  {
    if Next(s, s') {
      NextKeepsShape(s, s');
    } else {
      OpenNextKeepsShape(s, s');
    }
  }

  lemma OpenReachableShape(s: State)
    requires OpenReachable(s)
    ensures Shape(s)
  {
    var s0 :| Init(s0) && Leads(AnyNext, s0, s);
    InitInv(s0);
    forall a, b | Shape(a) && AnyNext(a, b) ensures Shape(b) {
      AnyNextKeepsShape(a, b);
    }
    LeadsKeeps(AnyNext, Shape, s0, s);
  }

  // ---- Main results ----

  // Asleep: at schedule(), and not woken since joining the queue.
  ghost predicate ReaderAsleep(s: State, t: Tid) {
    t in s.pc && s.pc[t].RSched? && t in s.inq
  }

  ghost predicate WriterAsleep(s: State, t: Tid) {
    t in s.pc && s.pc[t].WSched? && t in s.outq
  }

  ghost predicate NoLostReader(s: State)
    requires s.ring.Valid()
  {
    (exists t :: ReaderAsleep(s, t)) && s.ring.Contents() != [] ==> ReadersWakePending(s)
  }

  ghost predicate NoLostWriter(s: State)
    requires s.ring.Valid()
  {
    (exists t :: WriterAsleep(s, t)) && s.ring.SpaceFree() > 0 ==> WritersWakePending(s)
  }

  lemma InvLosesNobody(s: State)
    requires Inv(s)
    ensures NoLostReader(s) && NoLostWriter(s)
  {
    FullMeansNoSpace(s);
  }

  // A sleeper whose condition has come true is about to be woken, although the tests that
  // send threads to sleep run without the mutex, load the two pointers at different times, in
  // any order, and may catch one of them at the end of the buffer.
  lemma NoLostWakeup(s: State)
    requires Reachable(s)
    ensures s.ring.Valid() && NoLostReader(s) && NoLostWriter(s)
  {
    ReachableInv(s);
    InvLosesNobody(s);
  }

  // Readers and writers are never all asleep together, unless the buffer can hold nothing.
  lemma NeverBothSidesAsleep(s: State, r: Tid, w: Tid)
    requires Reachable(s) && |s.ring.buf| >= 2
    requires forall t | t in s.pc :: s.pc[t].Idle? || ReaderAsleep(s, t) || WriterAsleep(s, t)
    ensures !(ReaderAsleep(s, r) && WriterAsleep(s, w))
  {
    NoLostWakeup(s);
    FullMeansNoSpace(s);
    Conservation(s.ring);
    assert !ReadersWakePending(s) && !WritersWakePending(s);
  }

  // The pipe is a queue: what readers got, followed by what is buffered, is what writers gave,
  // in order; and one slot stays free.
  lemma Fifo(s: State)
    requires Reachable(s)
    ensures && s.ring.Valid()
            && s.accepted == s.returned + s.ring.Contents()
            && |s.accepted| - |s.returned| + s.ring.SpaceFree() == |s.ring.buf| - 1
  {
    ReachableInv(s);
    Conservation(s.ring);
  }

  lemma MutualExclusion(s: State, t: Tid, u: Tid)
    requires OpenReachable(s) && t in s.pc && u in s.pc
    requires HoldsLock(s.pc[t]) && HoldsLock(s.pc[u])
    ensures t == u
  {
    OpenReachableShape(s);
  }

  // ---- What a call does once it holds the mutex, and what its tests find ----

  // A reader that has the mutex gives up, waits if and only if the pipe is empty, or takes bytes.
  lemma ReaderWaitsIffEmpty(s: State, t: Tid, s': State)
    requires s.ring.Valid() && t in s.pc && s.pc[t].RTest? && ReadStep(s, t, s')
    ensures t in s'.pc
    ensures s'.pc[t].Idle? || (s'.pc[t].RCompare? <==> s.ring.Contents() == [])
    ensures s'.pc[t].Idle? || s'.pc[t].RCompare? || Takes(s, t, s')
  {
    Conservation(s.ring);
  }

  // They come from the front of the queue.
  lemma TakesFront(s: State, t: Tid, s': State) returns (taken: seq<Byte>)
    requires s.ring.Valid() && t in s.pc && Takes(s, t, s')
    ensures s'.ring.Valid() && s'.returned == s.returned + taken
    ensures s.ring.Contents() == taken + s'.ring.Contents()
    ensures |taken| <= s.pc[t].count && (s.pc[t].count > 0 ==> taken != [])
  {
    ReadTakesPrefix(s.ring, s.pc[t].count);
    taken := s.ring.buf[s.ring.rp..s.ring.rp + s.ring.ReadCount(s.pc[t].count)];
  }

  // A writer that has the mutex gives up, waits if and only if the pipe is full, or puts bytes.
  lemma WriterWaitsIffFull(s: State, t: Tid, s': State)
    requires s.ring.Valid() && t in s.pc && s.pc[t].WTest? && WriteStep(s, t, s')
    ensures t in s'.pc
    ensures s'.pc[t].Idle? || (s'.pc[t].WPrepare? <==> |s.ring.Contents()| == |s.ring.buf| - 1)
    ensures s'.pc[t].Idle? || s'.pc[t].WPrepare? || Puts(s, t, s')
  {
    Conservation(s.ring);
  }

  // They go to the back of the queue.
  lemma PutsBack(s: State, t: Tid, s': State) returns (put: seq<Byte>)
    requires s.ring.Valid() && t in s.pc && Puts(s, t, s')
    ensures s'.ring.Valid() && s'.accepted == s.accepted + put && put <= s.pc[t].src
    ensures s'.ring.Contents() == s.ring.Contents() + put
    ensures s.pc[t].src != [] ==> put != []
  {
    WriteAppends(s.ring, s.pc[t].src);
    put := s.pc[t].src[..s.ring.WriteCount(|s.pc[t].src|)];
  }

  // What a call that has returned without its bytes leaves behind: only its own place.
  ghost predicate LeavesQuietly(s: State, t: Tid, s': State)
    requires t in s.pc && s.ring.Valid()
  {
    && s'.pc == s.pc[t := Idle] && s'.lock != Some(t)
    && s'.inq == s.inq - {t} && s'.outq == s.outq - {t}
    && s'.ring.Valid() && s'.ring.Contents() == s.ring.Contents()
    && s'.accepted == s.accepted && s'.returned == s.returned
  }

  predicate Interruptible(p: PC) {
    p.RLock? || p.WLock? || p.OLock? || p.RSched? || p.WSched?
  }

  // A signal can end a call while it attempts the mutex or sleeps.
  lemma SignalEndsCall(s: State, t: Tid) returns (s': State)
    requires Shape(s) && t in s.pc && Interruptible(s.pc[t])
    ensures Step(s, t, s') && LeavesQuietly(s, t, s') && s'.lock == s.lock
  {
    s' := s.(inq := s.inq - {t}, outq := s.outq - {t}).At(t, Idle);
    assert Signal(s, t, s');
  }

  // A call that has the mutex can return without its bytes: an empty or full pipe makes one that
  // does not block return, and otherwise the copy can fault, before its first byte.
  lemma ReaderCanGiveUp(s: State, t: Tid) returns (s': State)
    requires Shape(s) && t in s.pc && s.pc[t].RTest?
    ensures Step(s, t, s') && LeavesQuietly(s, t, s') && s'.lock == None
  {
    s' := s.Unlocked().At(t, Idle);
    assert ReadStep(s, t, s');
    assert s'.inq == s.inq - {t} && s'.outq == s.outq - {t};
  }

  lemma WriterCanGiveUp(s: State, t: Tid) returns (s': State)
    requires Shape(s) && t in s.pc && s.pc[t].WTest? && s.pc[t].src != []
    ensures Step(s, t, s') && LeavesQuietly(s, t, s') && s'.lock == None
  {
    s' := s.Unlocked().At(t, Idle);
    FaultBeforeFirstByte(s, t);
    assert s'.inq == s.inq - {t} && s'.outq == s.outq - {t};
  }

  lemma FaultBeforeFirstByte(s: State, t: Tid)
    requires s.ring.Valid() && t in s.pc && s.pc[t].WTest? && s.pc[t].src != []
    ensures WriteStep(s, t, s.Unlocked().At(t, Idle))
  {
    FullMeansNoSpace(s);
    if s.ring.SpaceFree() > 0 {
      WriteAppends(s.ring, s.pc[t].src);
      assert s.ring.CopyIn(s.pc[t].src[..0]) == s.ring;
      assert s.Unlocked().At(t, Idle) == FaultingWrite(s, t, s.pc[t].src, 0);
    }
  }

  // A thread asleep on its queue takes no step until it is woken, a signal apart.
  lemma SleeperIsWoken(s: State, t: Tid, s': State)
    requires Shape(s) && (ReaderAsleep(s, t) || WriterAsleep(s, t)) && Step(s, t, s')
    ensures s'.pc == s.pc[t := Idle] && s'.ring == s.ring
  {
  }

  // It is on the queue when the test begins that can send it to sleep.
  lemma WaiterIsQueued(s: State, t: Tid, s': State)
    requires s.ring.Valid() && t in s.pc && (s.pc[t].RPrepare? || s.pc[t].WPrepare?) && Step(s, t, s')
    ensures s.pc[t].RPrepare? ==> s'.pc == s.pc[t := RCompare(s.pc[t].count, true, Nothing)] && t in s'.inq
    ensures s.pc[t].WPrepare? ==> s'.pc == s.pc[t := WCompare(s.pc[t].src, Nothing)] && t in s'.outq
  {
  }

  // What each kind of step does to the queues, in so far as it takes somebody off.
  lemma ReadStepQueues(s: State, u: Tid, s': State)
    requires s.ring.Valid() && u in s.pc && ReadStep(s, u, s')
    ensures s'.inq == s.inq && (s'.outq == s.outq || (s.pc[u].RWake? && s'.outq == {}))
  {
  }

  lemma WriteStepQueues(s: State, u: Tid, s': State)
    requires s.ring.Valid() && u in s.pc && WriteStep(s, u, s')
    ensures s'.outq == s.outq && (s'.inq == s.inq || (s.pc[u].WWake? && s'.inq == {}))
  {
  }

  lemma AwaitStepQueues(s: State, u: Tid, s': State)
    requires s.ring.Valid() && u in s.pc && AwaitStep(s, u, s')
    ensures u in s'.pc
    ensures s.inq <= s'.inq || (s'.inq == s.inq - {u} && (s'.pc[u].RLock? || s'.pc[u].Idle?))
    ensures s.outq <= s'.outq || (s'.outq == s.outq - {u} && (s'.pc[u].WLock? || s'.pc[u].Idle?))
  {
  }

  lemma SpaceFreeStepQueues(s: State, u: Tid, s': State)
    requires s.ring.Valid() && u in s.pc && SpaceFreeStep(s, u, s')
    ensures s'.inq == s.inq && s'.outq == s.outq
  {
  }

  lemma GetSpaceStepQueues(s: State, u: Tid, s': State)
    requires s.ring.Valid() && u in s.pc && GetSpaceStep(s, u, s')
    ensures u in s'.pc
    ensures s.inq <= s'.inq || (s'.inq == s.inq - {u} && (s'.pc[u].RLock? || s'.pc[u].Idle?))
    ensures s.outq <= s'.outq || (s'.outq == s.outq - {u} && (s'.pc[u].WLock? || s'.pc[u].Idle?))
  {
  }

  lemma SignalQueues(s: State, u: Tid, s': State)
    requires s.ring.Valid() && u in s.pc && Signal(s, u, s')
    ensures u in s'.pc
    ensures s.inq <= s'.inq || (s'.inq == s.inq - {u} && (s'.pc[u].RLock? || s'.pc[u].Idle?))
    ensures s.outq <= s'.outq || (s'.outq == s.outq - {u} && (s'.pc[u].WLock? || s'.pc[u].Idle?))
  {
  }

  // A thread is taken off its queue by its own return or next attempt, or by one of the other side
  // that wakes all.
  lemma TakenOff(s: State, t: Tid, u: Tid, s': State)
    requires s.ring.Valid() && u in s.pc && Step(s, u, s') && u in s'.pc
    ensures t in s.inq && t !in s'.inq ==>
              (t == u && (s'.pc[t].RLock? || s'.pc[t].Idle?)) || (s.pc[u].WWake? && s'.inq == {})
    ensures t in s.outq && t !in s'.outq ==>
              (t == u && (s'.pc[t].WLock? || s'.pc[t].Idle?)) || (s.pc[u].RWake? && s'.outq == {})
  {
    if Signal(s, u, s') {
      SignalQueues(s, u, s');
    } else if AwaitStep(s, u, s') {
      AwaitStepQueues(s, u, s');
    } else if SpaceFreeStep(s, u, s') {
      SpaceFreeStepQueues(s, u, s');
    } else if GetSpaceStep(s, u, s') {
      GetSpaceStepQueues(s, u, s');
    } else if ReadStep(s, u, s') {
      ReadStepQueues(s, u, s');
    } else if WriteStep(s, u, s') {
      WriteStepQueues(s, u, s');
    }
  }

  // A test may load either pointer first.
  lemma EitherPointerFirst(s: State, t: Tid, first: Seen) returns (s': State)
    requires s.ring.Valid() && t in s.pc && (s.pc[t].RCompare? || Tests(s.pc[t])) && s.pc[t].seen.Nothing?
    requires s.Loads(first)
    ensures Step(s, t, s') && s' == s.At(t, s.pc[t].(seen := first))
  {
    s' := s.At(t, s.pc[t].(seen := first));
    assert WaitStep(s, t, s');
  }

  // And the subtraction may start with nothing or with either operand of the comparison.
  lemma SubtractionMayReuse(s: State, t: Tid, kept: Seen) returns (s': State)
    requires s.ring.Valid() && t in s.pc && s.pc[t].WCompare? && !s.pc[t].seen.Nothing?
    requires var rp, wp := s.RpWith(s.pc[t].seen), s.WpWith(s.pc[t].seen);
             rp != wp && (kept.Nothing? || kept == SeenRp(rp) || kept == SeenWp(wp))
    ensures Step(s, t, s') && s' == s.At(t, WSubtract(s.pc[t].src, kept))
  {
    s' := s.At(t, WSubtract(s.pc[t].src, kept));
    assert WaitStep(s, t, s');
  }

  // A test that ends while what it has loaded is still true decides rightly: it sends the thread
  // to sleep if and only if there is nothing to read.
  lemma CurrentReadTestIsExact(s: State, t: Tid, s': State)
    requires Shape(s) && t in s.pc && s.pc[t].RCompare? && AwaitStep(s, t, s')
    requires s.Loads(s.pc[t].seen) && !s.rpAtEnd && !s.wpAtEnd
    ensures t in s'.pc
    ensures if s.ring.Contents() == [] then (if s.pc[t].looping then s'.pc[t].RSched? else s'.pc[t].RPrepare?)
            else (if s.pc[t].looping then s'.pc[t].RFinish? else s'.pc[t].RLock?)
  {
    Conservation(s.ring);
  }

  lemma CurrentWriteTestIsExact(s: State, t: Tid, s': State)
    requires Shape(s) && t in s.pc && Tests(s.pc[t]) && SpaceFreeStep(s, t, s')
    requires |s.ring.buf| >= 2 || s.pc[t].WCompare?
    requires s.Loads(s.pc[t].seen) && !s.rpAtEnd && !s.wpAtEnd
    ensures t in s'.pc && (Tests(s'.pc[t]) || (s'.pc[t].WSched? <==> s.ring.SpaceFree() == 0))
    ensures Tests(s'.pc[t]) ==> s'.pc[t].WSubtract? && (s'.pc[t].seen.Nothing? || s'.Loads(s'.pc[t].seen))
  {
    FullMeansNoSpace(s);
    TestMeansFull(s.Rp(), s.Wp(), |s.ring.buf|);
  }

  lemma ReaderCanProceed(s: State, t: Tid) returns (s': State)
    requires s.ring.Valid() && t in s.pc && (s.pc[t].RLock? ==> s.lock == None)
    requires var p := s.pc[t]; p.RLock? || p.RTest? || p.RWrap? || p.RUnlock? || p.RWake?
    ensures ReadStep(s, t, s')
  {
    match s.pc[t] {
      case RLock(count) => s' := s.(lock := Some(t)).At(t, RTest(count));
      case RTest(count) =>
        s' := if s.ring.rp == s.ring.wp then s.Unlocked().At(t, RCompare(count, false, Nothing))
              else TakeBytes(s, t, count);
      case RWrap => s' := s.(rpAtEnd := false).At(t, RUnlock);
      case RUnlock => s' := s.Unlocked().At(t, RWake);
      case RWake => s' := s.(outq := {}).At(t, Idle);
    }
  }

  lemma AwaiterCanProceed(s: State, t: Tid) returns (s': State)
    requires t in s.pc && !ReaderAsleep(s, t)
    requires var p := s.pc[t]; p.RCompare? || p.RPrepare? || p.RSched? || p.RFinish?
    ensures AwaitStep(s, t, s')
  {
    match s.pc[t] {
      case RCompare(count, looping, seen) =>
        s' := s.At(t, if seen.Nothing? then RCompare(count, looping, SeenRp(s.Rp()))
                      else if s.RpWith(seen) != s.WpWith(seen) then (if looping then RFinish(count) else RLock(count))
                      else (if looping then RSched(count) else RPrepare(count)));
      case RPrepare(count) => s' := s.(inq := s.inq + {t}).At(t, RCompare(count, true, Nothing));
      case RSched(count) => s' := s.At(t, RPrepare(count));
      case RFinish(count) => s' := s.(inq := s.inq - {t}).At(t, RLock(count));
    }
  }

  lemma WriterCanProceed(s: State, t: Tid) returns (s': State)
    requires s.ring.Valid() && t in s.pc && (s.pc[t].WLock? ==> s.lock == None)
    requires var p := s.pc[t]; p.WLock? || p.WTest? || p.WWrap? || p.WUnlock? || p.WWake?
    ensures WriteStep(s, t, s')
  {
    Conservation(s.ring);
    match s.pc[t] {
      case WLock(src) => s' := s.(lock := Some(t)).At(t, WTest(src));
      case WTest(src) =>
        s' := if s.ring.SpaceFree() == 0 then s.Unlocked().At(t, WPrepare(src)) else PutBytes(s, t, src);
      case WWrap => s' := s.(wpAtEnd := false).At(t, WUnlock);
      case WUnlock => s' := s.Unlocked().At(t, WWake);
      case WWake => s' := s.(inq := {}).At(t, Idle);
    }
  }

  lemma WaiterCanProceed(s: State, t: Tid) returns (s': State)
    requires s.ring.Valid() && t in s.pc && !WriterAsleep(s, t) && (OnWritersQueue(s.pc[t]) || s.pc[t].WPrepare?)
    ensures SpaceFreeStep(s, t, s') || GetSpaceStep(s, t, s')
  {
    match s.pc[t] {
      case WPrepare(src) => s' := s.(outq := s.outq + {t}).At(t, WCompare(src, Nothing));
      case WCompare(src, seen) =>
        s' := s.At(t, if seen.Nothing? then WCompare(src, SeenRp(s.Rp()))
                      else if s.RpWith(seen) != s.WpWith(seen) then WSubtract(src, Nothing)
                      else if |s.ring.buf| - 1 == 0 then WSched(src) else WFinish(src));
      case WSubtract(src, seen) =>
        s' := s.At(t, if seen.Nothing? then WSubtract(src, SeenRp(s.Rp())) else Tested(s, src, seen));
      case WSched(src) => s' := s.At(t, WFinish(src));
      case WFinish(src) => s' := s.(outq := s.outq - {t}).At(t, WLock(src));
    }
  }

  // Only the mutex and sleep on a queue stop a call, which needs no signal to go on.
  lemma CanProceed(s: State, t: Tid) returns (s': State)
    requires Shape(s) && t in s.pc && !s.pc[t].Idle? && !ReaderAsleep(s, t) && !WriterAsleep(s, t)
    requires s.pc[t].RLock? || s.pc[t].WLock? || s.pc[t].OLock? ==> s.lock == None
    ensures Proceed(s, t, s') || OpenStep(s, t, s')
  {
    var p := s.pc[t];
    if p.OLock? {
      s' := s.(lock := Some(t)).At(t, OWp);
    } else if p.OWp? {
      s' := s.(ring := s.ring.(wp := 0)).At(t, ORp);
    } else if p.ORp? {
      s' := s.(ring := s.ring.(rp := 0), accepted := [], returned := []).At(t, OUnlock);
    } else if p.OUnlock? {
      s' := s.Unlocked().At(t, Idle);
    } else if p.WLock? || p.WTest? || p.WWrap? || p.WUnlock? || p.WWake? {
      s' := WriterCanProceed(s, t);
    } else if OnWritersQueue(p) || p.WPrepare? {
      s' := WaiterCanProceed(s, t);
    } else if p.RLock? || p.RTest? || p.RWrap? || p.RUnlock? || p.RWake? {
      s' := ReaderCanProceed(s, t);
    } else {
      s' := AwaiterCanProceed(s, t);
    }
  }

  // No deadlock: while some call is neither finished nor asleep, a call can go on without a
  // signal. Whoever waits for the mutex waits for a thread that can.
  lemma SomeCallCanProceed(s: State, t: Tid) returns (u: Tid, s': State)
    requires OpenReachable(s) && t in s.pc
    requires !s.pc[t].Idle? && !ReaderAsleep(s, t) && !WriterAsleep(s, t)
    ensures s.ring.Valid() && u in s.pc && !s.pc[u].Idle?
    ensures Proceed(s, u, s') || OpenStep(s, u, s')
  {
    OpenReachableShape(s);
    u := if s.lock.Some? then s.lock.value else t;
    assert s.lock.Some? ==> HoldsLock(s.pc[u]);
    s' := CanProceed(s, u);
  }

  // ---- A later open ----

  // The state in which an open of thread `t` has just reset both pointers.
  ghost predicate JustOpened(e: State, t: Tid) {
    exists s :: OpenReachable(s) && t in s.pc && s.pc[t].ORp? && OpenStep(s, t, e)
  }

  // A queued writer that is asleep, or that has loaded for its test an `rp` that does not stand
  // at the start of the buffer, or a `wp` one before the end of it.
  ghost predicate Stale(e: State, w: Tid)
    requires w in e.pc
  {
    e.pc[w].WSched? || (Tests(e.pc[w]) && Misleads(e.pc[w].seen, |e.ring.buf|))
  }

  predicate Misleads(seen: Seen, size: nat) {
    match seen
    case Nothing => false
    case SeenRp(p) => Place(p, size) != 0
    case SeenWp(p) => Place(p, size) == size - 1
  }

  ghost predicate NobodyIsMisled(e: State) {
    WritersWakePending(e) || forall w | w in e.outq && w in e.pc :: !Stale(e, w)
  }

  ghost predicate LosesNobody(s: State) {
    s.ring.Valid() && NoLostReader(s) && NoLostWriter(s)
  }

  lemma OpenedShape(e: State, t: Tid)
    requires JustOpened(e, t)
    ensures Shape(e) && DataInv(e) && e.ring.rp == 0 && e.ring.wp == 0 && !e.rpAtEnd && !e.wpAtEnd
    ensures e.lock == Some(t) && t in e.pc && e.pc[t].OUnlock? && e.accepted == [] && e.returned == []
  {
    var s :| OpenReachable(s) && t in s.pc && s.pc[t].ORp? && OpenStep(s, t, e);
    OpenReachableShape(s);
    OpenKeepsShape(s, t, e);
    assert HoldsLock(s.pc[t]);
  }

  // ---- Pieces of runs ----

  lemma StepOn(s: State, m: State, t: Tid, s': State)
    requires Leads(Next, s, m) && m.ring.Valid() && t in m.pc && Step(m, t, s')
    ensures Leads(Next, s, s')
  {
    assert Next(m, s');
    LeadsOn(Next, s, m, s');
  }

  // A whole write with nobody in between.
  lemma WriteAlone(s0: State, s: State, t: Tid, src: seq<Byte>) returns (s': State)
    requires Leads(Next, s0, s) && Shape(s) && s.lock == None && t in s.pc && s.pc[t].Idle? && !Full(s)
    ensures Leads(Next, s0, s')
    ensures var n := s.ring.WriteCount(|src|);
            s' == s.(ring := s.ring.CopyIn(src[..n]).AdvanceWrite(n), accepted := s.accepted + src[..n], inq := {})
  {
    FullMeansNoSpace(s);
    var s1 := s.At(t, WLock(src));
    var s2 := s1.(lock := Some(t)).At(t, WTest(src));
    StepOn(s0, s, t, s1);
    StepOn(s0, s1, t, s2);
    assert s2.pc == s.pc[t := WTest(src)];
    WriteAppends(s.ring, src);
    s' := WriteFinishes(s0, s, s2, t, src);
  }

  lemma WriteFinishes(s0: State, s: State, s2: State, t: Tid, src: seq<Byte>) returns (s': State)
    requires s.ring.Valid() && s.ring.SpaceFree() > 0 && !s.wpAtEnd && s.lock == None
    requires t in s.pc && s.pc[t].Idle?
    requires Leads(Next, s0, s2) && s2 == s.(lock := Some(t), pc := s.pc[t := WTest(src)])
    requires s.ring.CopyIn(src[..s.ring.WriteCount(|src|)]).AdvanceWrite(s.ring.WriteCount(|src|)).Valid()
    ensures Leads(Next, s0, s')
    ensures var n := s.ring.WriteCount(|src|);
            s' == s.(ring := s.ring.CopyIn(src[..n]).AdvanceWrite(n), accepted := s.accepted + src[..n], inq := {})
  {
    var s3 := PutBytes(s2, t, src);
    StepOn(s0, s2, t, s3);
    s' := WriterLeaves(s0, s3, t);
    assert s'.pc == s.pc;
  }

  lemma WriterLeaves(s0: State, s3: State, t: Tid) returns (s': State)
    requires Leads(Next, s0, s3) && s3.ring.Valid() && t in s3.pc && s3.pc[t].WWrap?
    ensures Leads(Next, s0, s') && s' == s3.(wpAtEnd := false, lock := None, inq := {}, pc := s3.pc[t := Idle])
  {
    var s4 := s3.(wpAtEnd := false).At(t, WUnlock);
    var s5 := s4.Unlocked().At(t, WWake);
    s' := s5.(inq := {}).At(t, Idle);
    StepOn(s0, s3, t, s4);
    StepOn(s0, s4, t, s5);
    StepOn(s0, s5, t, s');
    assert s'.pc == s3.pc[t := Idle];
  }

  // A whole read with nobody in between.
  lemma ReadAlone(s0: State, s: State, t: Tid, count: nat) returns (s': State)
    requires Leads(Next, s0, s) && Shape(s) && s.lock == None && t in s.pc && s.pc[t].Idle? && s.ring.rp != s.ring.wp
    ensures Leads(Next, s0, s')
    ensures var n := s.ring.ReadCount(count);
            s' == s.(ring := s.ring.AdvanceRead(n),
                     returned := s.returned + s.ring.buf[s.ring.rp..s.ring.rp + n], outq := {})
  {
    var s1 := s.At(t, RLock(count));
    var s2 := s1.(lock := Some(t)).At(t, RTest(count));
    StepOn(s0, s, t, s1);
    StepOn(s0, s1, t, s2);
    assert s2.pc == s.pc[t := RTest(count)];
    s' := ReadFinishes(s0, s, s2, t, count);
  }

  lemma ReadFinishes(s0: State, s: State, s2: State, t: Tid, count: nat) returns (s': State)
    requires s.ring.Valid() && s.ring.rp != s.ring.wp && !s.rpAtEnd && s.lock == None
    requires t in s.pc && s.pc[t].Idle?
    requires Leads(Next, s0, s2) && s2 == s.(lock := Some(t), pc := s.pc[t := RTest(count)])
    ensures Leads(Next, s0, s')
    ensures var n := s.ring.ReadCount(count);
            s' == s.(ring := s.ring.AdvanceRead(n),
                     returned := s.returned + s.ring.buf[s.ring.rp..s.ring.rp + n], outq := {})
  {
    var s3 := TakeBytes(s2, t, count);
    StepOn(s0, s2, t, s3);
    s' := ReaderLeaves(s0, s3, t);
    assert s'.pc == s.pc;
  }

  lemma ReaderLeaves(s0: State, s3: State, t: Tid) returns (s': State)
    requires Leads(Next, s0, s3) && s3.ring.Valid() && t in s3.pc && s3.pc[t].RWrap?
    ensures Leads(Next, s0, s') && s' == s3.(rpAtEnd := false, lock := None, outq := {}, pc := s3.pc[t := Idle])
  {
    var s4 := s3.(rpAtEnd := false).At(t, RUnlock);
    var s5 := s4.Unlocked().At(t, RWake);
    s' := s5.(outq := {}).At(t, Idle);
    StepOn(s0, s3, t, s4);
    StepOn(s0, s4, t, s5);
    StepOn(s0, s5, t, s');
    assert s'.pc == s3.pc[t := Idle];
  }

  // A write to a full pipe up to the first load of its test on the queue.
  lemma WriterLoads(s0: State, s: State, t: Tid, src: seq<Byte>, seen: Seen) returns (s': State)
    requires Leads(Next, s0, s) && Shape(s) && s.lock == None && t in s.pc && s.pc[t].Idle?
    requires Full(s) && s.Loads(seen)
    ensures Leads(Next, s0, s') && s' == s.(outq := s.outq + {t}, pc := s.pc[t := WCompare(src, seen)])
  {
    FullMeansNoSpace(s);
    var s1 := s.At(t, WLock(src));
    var s2 := s1.(lock := Some(t)).At(t, WTest(src));
    var s3 := s2.Unlocked().At(t, WPrepare(src));
    StepOn(s0, s, t, s1);
    StepOn(s0, s1, t, s2);
    StepOn(s0, s2, t, s3);
    assert s3 == s.(pc := s.pc[t := WPrepare(src)]);
    s' := PreparedLoads(s0, s, s3, t, src, seen);
  }

  lemma PreparedLoads(s0: State, s: State, s3: State, t: Tid, src: seq<Byte>, seen: Seen) returns (s': State)
    requires s.ring.Valid() && s.Loads(seen) && t in s.pc
    requires Leads(Next, s0, s3) && s3 == s.(pc := s.pc[t := WPrepare(src)])
    ensures Leads(Next, s0, s') && s' == s.(outq := s.outq + {t}, pc := s.pc[t := WCompare(src, seen)])
  {
    var s4 := s3.(outq := s3.outq + {t}).At(t, WCompare(src, Nothing));
    s' := s4.At(t, WCompare(src, seen));
    StepOn(s0, s3, t, s4);
    StepOn(s0, s4, t, s');
    assert s'.pc == s.pc[t := WCompare(src, seen)];
  }

  // ---- Exactly when an open loses nobody ----

  // The opener returns and writes as much as the stale pointer needs to make the pipe look full.
  lemma OpenerWrites(e: State, t: Tid, fill: nat) returns (m: State)
    requires JustOpened(e, t) && fill < |e.ring.buf| - 1
    ensures Leads(Next, e, m) && m.ring.Valid() && |m.ring.buf| == |e.ring.buf|
    ensures m.ring.rp == 0 && m.ring.wp == fill && !m.rpAtEnd && !m.wpAtEnd
    ensures m.pc == e.pc[t := Idle] && m.outq == e.outq
  {
    OpenedShape(e, t);
    var m0 := e.Unlocked().At(t, Idle);
    LeadsToSelf(Next, e);
    StepOn(e, e, t, m0);
    StepKeepsShape(e, t, m0);
    var src := seq(fill, _ => 0 as Byte);
    FullMeansNoSpace(m0);
    WriteAppends(m0.ring, src);
    m := WriteAlone(e, m0, t, src);
  }

  // What a test of the stale pointer against the right place of the other one finds.
  lemma LooksFull(p: nat, size: nat)
    requires size >= 2 && p < size
    ensures p > 0 ==> TestsFull(p, p - 1, size)
    ensures TestsFull(0, size - 1, size)
  {
    if p > 0 {
      TestMeansFull(p, p - 1, size);
    }
    TestMeansFull(0, size - 1, size);
  }

  ghost predicate FindsFull(k: State, w: Tid)
    requires w in k.pc
  {
    && k.ring.Valid() && Tests(k.pc[w]) && !k.pc[w].seen.Nothing?
    && k.RpWith(k.pc[w].seen) != k.WpWith(k.pc[w].seen)
    && TestsFull(k.RpWith(k.pc[w].seen), k.WpWith(k.pc[w].seen), |k.ring.buf|)
  }

  // A writer whose test finds no space goes to sleep.
  lemma FallsAsleep(k: State, w: Tid) returns (m: State)
    requires w in k.pc && w in k.outq && FindsFull(k, w)
    ensures Step(k, w, m) && m == k.At(w, WSched(k.pc[w].src))
  {
    m := k.At(w, WSched(k.pc[w].src));
    assert m == k.At(w, Tested(k, k.pc[w].src, k.pc[w].seen));
    assert SpaceFreeStep(k, w, m);
  }

  lemma LeadsToSleep(s: State, k: State, w: Tid) returns (m: State)
    requires Leads(Next, s, k) && w in k.pc && w in k.outq && FindsFull(k, w)
    ensures Leads(Next, s, m) && m == k.At(w, WSched(k.pc[w].src))
  {
    m := FallsAsleep(k, w);
    StepOn(s, k, w, m);
  }

  lemma IsLost(m: State, w: Tid)
    requires m.ring.Valid() && w in m.pc && m.pc[w].WSched? && w in m.outq
    requires m.ring.SpaceFree() > 0 && !WritersWakePending(m)
    ensures !NoLostWriter(m)
  {
    assert WriterAsleep(m, w);
  }

  // An `rp` from before the open: the opener fills the pipe up to one place before it.
  lemma SeenRpIsLost(e: State, t: Tid, w: Tid, p: nat) returns (m: State)
    requires JustOpened(e, t) && |e.ring.buf| >= 2 && t in e.pc && t != w && 0 < p < |e.ring.buf|
    requires !WritersWakePending(e) && w in e.outq && w in e.pc && Tests(e.pc[w]) && e.pc[w].seen == SeenRp(p)
    ensures Leads(Next, e, m) && m.ring.Valid() && !NoLostWriter(m)
  {
    LooksFull(p, |e.ring.buf|);
    var k := OpenerWrites(e, t, p - 1);
    m := LeadsToSleep(e, k, w);
    NoReaderWakes(e, t, w, m);
    IsLost(m, w);
  }

  // A `wp` from before the open, one place before the end: the pipe looks full at once.
  lemma SeenWpIsLost(e: State, t: Tid, w: Tid) returns (m: State)
    requires JustOpened(e, t) && |e.ring.buf| >= 2 && t in e.pc && t != w
    requires !WritersWakePending(e) && w in e.outq && w in e.pc && Tests(e.pc[w])
    requires e.pc[w].seen == SeenWp(|e.ring.buf| - 1)
    ensures Leads(Next, e, m) && m.ring.Valid() && !NoLostWriter(m)
  {
    OpenedShape(e, t);
    LooksFull(0, |e.ring.buf|);
    LeadsToSelf(Next, e);
    m := LeadsToSleep(e, e, w);
    NoReaderWakes(e, t, w, m);
    IsLost(m, w);
  }

  lemma StaleWriterIsLost(e: State, t: Tid, w: Tid) returns (m: State)
    requires JustOpened(e, t) && |e.ring.buf| >= 2
    requires !WritersWakePending(e) && w in e.outq && w in e.pc && Stale(e, w)
    ensures Leads(Next, e, m) && m.ring.Valid() && !NoLostWriter(m)
  {
    OpenedShape(e, t);
    assert LoadedInRange(e.pc[w], |e.ring.buf|);
    if e.pc[w].WSched? {
      LeadsToSelf(Next, e);
      IsLost(e, w);
      m := e;
    } else if e.pc[w].seen.SeenRp? {
      m := SeenRpIsLost(e, t, w, e.pc[w].seen.p);
    } else {
      m := SeenWpIsLost(e, t, w);
    }
  }

  lemma NoReaderWakes(e: State, t: Tid, w: Tid, m: State)
    requires t in e.pc && w in e.pc && !WritersWakePending(e)
    requires m.pc.Keys == e.pc.Keys && (forall u | u in e.pc && u != t && u != w :: m.pc[u] == e.pc[u])
    requires (m.pc[t].Idle? || m.pc[t].OUnlock? || m.pc[t].WSched?) && m.pc[w].WSched?
    ensures !WritersWakePending(m)
  {
  }

  lemma MisledOrFine(e: State, t: Tid)
    requires JustOpened(e, t) && |e.ring.buf| > 0 && NobodyIsMisled(e)
    ensures Inv(e)
  {
    OpenedShape(e, t);
  }

  // After an open that finds calls in progress nobody is lost, in any continuation, if and only
  // if a reader is about to wake the writers, or no queued writer sleeps or has loaded for its
  // test a pointer that the open has made wrong.
  lemma OpenLosesNobodyIff(e: State, t: Tid)
    requires JustOpened(e, t) && |e.ring.buf| >= 2
    ensures (forall s | Leads(Next, e, s) :: LosesNobody(s)) <==> NobodyIsMisled(e)
  {
    if NobodyIsMisled(e) {
      MisledOrFine(e, t);
      forall s | Leads(Next, e, s) ensures LosesNobody(s) {
        LeadsKeepsInv(e, s);
        InvLosesNobody(s);
      }
    } else {
      var w :| w in e.outq && w in e.pc && Stale(e, w);
      var m := StaleWriterIsLost(e, t, w);
      assert !LosesNobody(m);
    }
  }

  // ---- Opens that lose a writer ----

  lemma OpenExtends(s: State, t: Tid, s': State)
    requires OpenReachable(s) && t in s.pc && OpenStep(s, t, s')
    ensures OpenReachable(s')
  {
    assert OpenNext(s, s');
    var s0 :| Init(s0) && Leads(AnyNext, s0, s);
    LeadsOn(AnyNext, s0, s, s');
  }

  // Runs from a start state are runs, and so keep the invariant.
  lemma LeadsFromInit(s0: State, s: State)
    requires Init(s0) && Leads(Next, s0, s)
    ensures Reachable(s) && OpenReachable(s) && Shape(s)
  {
    LeadsWider(Next, AnyNext, s0, s);
    ReachableInv(s);
  }

  lemma OpenAlone(s: State, t: Tid) returns (e: State)
    requires OpenReachable(s) && s.lock == None && t in s.pc && s.pc[t].Idle?
    ensures JustOpened(e, t)
    ensures e == s.(ring := s.ring.(rp := 0, wp := 0), accepted := [], returned := [], lock := Some(t),
                    pc := s.pc[t := OUnlock])
  {
    OpenReachableShape(s);
    var s1 := s.At(t, OLock);
    OpenExtends(s, t, s1);
    var s2 := s1.(lock := Some(t)).At(t, OWp);
    OpenExtends(s1, t, s2);
    var s3 := s2.(ring := s2.ring.(wp := 0)).At(t, ORp);
    OpenExtends(s2, t, s3);
    e := s3.(ring := s3.ring.(rp := 0), accepted := [], returned := []).At(t, OUnlock);
    assert OpenStep(s3, t, e);
    assert e.pc == s.pc[t := OUnlock];
  }

  // Two threads and a buffer of two bytes, which holds one.
  function Start(): State {
    State(Ring([0, 0], 0, 0), false, false, None, {}, {}, map[0 := Idle, 1 := Idle], [], [])
  }

  lemma StartIsInit()
    ensures Init(Start()) && Leads(Next, Start(), Start()) && Shape(Start())
  {
    LeadsToSelf(Next, Start());
    LeadsFromInit(Start(), Start());
  }

  // The ring after each of the calls.
  lemma Rings()
    ensures var r := Ring([0, 0], 0, 0);
            r.SpaceFree() == 1 && r.WriteCount(1) == 1 && r.CopyIn([7]).AdvanceWrite(1) == Ring([7, 0], 0, 1)
    ensures var r := Ring([7, 0], 0, 1);
            r.SpaceFree() == 0 && r.ReadCount(1) == 1 && r.AdvanceRead(1) == Ring([7, 0], 1, 1)
    ensures var r := Ring([7, 0], 1, 1);
            r.SpaceFree() == 1 && r.WriteCount(1) == 1 && r.CopyIn([7]).AdvanceWrite(1) == Ring([7, 7], 1, 0)
    ensures Ring([7, 7], 1, 0).SpaceFree() == 0
  {
  }

  // Nobody is in a call.
  ghost predicate Calm(s: State) {
    && Leads(Next, Start(), s) && Shape(s) && s.lock == None && s.pc == Start().pc && s.inq == {} && s.outq == {}
    && |s.ring.buf| == 2
  }

  lemma FilledOnce() returns (s: State)
    ensures Calm(s) && s.ring == Ring([7, 0], 0, 1) && Full(s)
  {
    StartIsInit();
    Rings();
    s := WriteAlone(Start(), Start(), 0, [7]);
    LeadsFromInit(Start(), s);
  }

  lemma Emptied() returns (s: State)
    ensures Calm(s) && s.ring == Ring([7, 0], 1, 1) && !Full(s)
  {
    StartIsInit();
    Rings();
    var once := FilledOnce();
    s := ReadAlone(Start(), once, 0, 1);
    LeadsFromInit(Start(), s);
  }

  // A pipe that has been filled, emptied and filled again is full with `rp` at 1.
  lemma FilledAgain() returns (s: State)
    ensures Calm(s) && s.ring.rp == 1 && s.ring.wp == 0 && Full(s)
  {
    StartIsInit();
    Rings();
    var emptied := Emptied();
    s := WriteAlone(Start(), emptied, 0, [7]);
    LeadsFromInit(Start(), s);
  }

  // A writer on the full pipe, up to the first load of its test.
  lemma WriterTests(full: State, seen: Seen) returns (s: State)
    requires Calm(full) && Full(full) && full.Loads(seen)
    ensures Leads(Next, Start(), s) && s == full.(outq := {0}, pc := map[0 := WCompare([7], seen), 1 := Idle])
  {
    s := WriterLoads(Start(), full, 0, [7], seen);
    assert s.pc == map[0 := WCompare([7], seen), 1 := Idle];
  }

  lemma OpenFreesSpace(s: State, t: Tid) returns (e: State)
    requires OpenReachable(s) && s.lock == None && t in s.pc && s.pc[t].Idle? && |s.ring.buf| == 2
    ensures JustOpened(e, t) && e.ring.Valid() && e.ring.SpaceFree() == 1 && e.ring.Contents() == []
    ensures e.ring.rp == 0 && e.ring.wp == 0 && !e.wpAtEnd && |e.ring.buf| == 2
    ensures e.pc == s.pc[t := OUnlock] && e.outq == s.outq
  {
    e := OpenAlone(s, t);
    OpenedShape(e, t);
  }

  lemma WriterSleeps() returns (s: State)
    ensures OpenReachable(s) && s.lock == None && |s.ring.buf| == 2
    ensures s.pc == map[0 := WSched([7]), 1 := Idle] && s.outq == {0}
  {
    var full := FilledOnce();
    var testing := WriterTests(full, SeenRp(0));
    LooksFull(0, 2);
    s := LeadsToSleep(Start(), testing, 0);
    StartLeadsToReachable(s);
  }

  lemma StartLeadsToReachable(s: State)
    requires Leads(Next, Start(), s)
    ensures OpenReachable(s)
  {
    StartIsInit();
    LeadsFromInit(Start(), s);
  }

  // A writer sleeps on a full pipe, and an open empties the pipe under it.
  lemma OpenCanLoseASleeper() returns (e: State)
    ensures JustOpened(e, 1) && WriterAsleep(e, 0) && e.ring.Valid() && !NoLostWriter(e)
  {
    var asleep := WriterSleeps();
    e := OpenFreesSpace(asleep, 1);
    IsLost(e, 0);
  }

  // A writer in the middle of its test, with `rp` loaded or with `wp`.
  lemma TestsFullPipe(seen: Seen) returns (s: State)
    requires seen == SeenRp(1) || seen == SeenWp(1)
    ensures OpenReachable(s) && s.lock == None && |s.ring.buf| == 2
    ensures s.pc == map[0 := WCompare([7], seen), 1 := Idle] && s.outq == {0}
  {
    if seen.SeenRp? {
      var full := FilledAgain();
      s := WriterTests(full, seen);
    } else {
      var full := FilledOnce();
      s := WriterTests(full, seen);
    }
    StartLeadsToReachable(s);
  }

  // Nobody sleeps, but a writer has loaded one of the pointers; the open does not tell it, and
  // its test sends it to sleep on the empty pipe.
  lemma OpenCanMisleadATest(seen: Seen) returns (e: State, m: State)
    requires seen == SeenRp(1) || seen == SeenWp(1)
    ensures JustOpened(e, 1) && |e.ring.buf| == 2 && (forall t :: !WriterAsleep(e, t))
    ensures e.pc == map[0 := WCompare([7], seen), 1 := OUnlock]
    ensures Leads(Next, e, m) && m.ring.Valid() && !NoLostWriter(m)
  {
    var testing := TestsFullPipe(seen);
    e := OpenFreesSpace(testing, 1);
    assert e.pc == map[0 := WCompare([7], seen), 1 := OUnlock];
    assert Stale(e, 0);
    m := StaleWriterIsLost(e, 1, 0);
  }
}
