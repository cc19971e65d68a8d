// The thread pool: one submitter, a bounded queue, n workers, and one sentinel for each of them.
//
// A step is one access to shared state by the submitter or by one worker. What the work function
// and the output handler do is arbitrary, except that they come back.
module ThreadPool {
  import opened Common
  import opened Runs

  // A job is the number of its put; the queue carries jobs and the sentinel None.
  type Job = nat

  // What a handler call amounts to: None, or a report (a value it returned or an exception).
  datatype Report = Returned(value: nat) | Raised(exception: nat)

  datatype Worker =
    | Get
    | Working(job: Job)
    | Handling(job: Job)
    | Testing(job: Job, report: Option<Report>)
    | Storing(job: Job, value: Report)
    | Finishing(job: Job)
    | Exited
  {
    predicate Busy() {
      !Get? && !Exited?
    }
  }

  datatype Submitter =
    | Deciding
    | Putting
    | Stopping(sent: nat)
    | Joining(joined: nat)
    | Joined(returned: Option<(Job, Report)>)

  // The two options of the pool, and which reports its handler makes at all.
  datatype Flags = Flags(raiseExit: bool, skipExit: bool, mayReturn: bool, mayRaise: bool)

  // `next` counts the jobs put, `taken` (one entry each, the worker) those taken off the queue;
  // `runs` and `handles` count, for each job taken, the calls made for it, `reports` holds what
  // the handler made of it, `order` has the reports in the order they were made, and `stops`
  // counts the sentinels each worker has consumed.
  datatype State = State(
    n: nat,
    flags: Flags,
    main: Submitter,
    queue: seq<Option<Job>>,
    workers: seq<Worker>,
    result: Option<(Job, Report)>,
    next: nat,
    taken: seq<nat>,
    runs: seq<nat>,
    handles: seq<nat>,
    reports: map<Job, Option<Report>>,
    order: seq<(Job, Report)>,
    stops: seq<nat>)
  {
    function At(i: nat, w: Worker): State
      requires i < |workers|
    {
      this.(workers := workers[i := w])
    }
  }

  // ---- Steps ----

  ghost predicate Init(s: State) {
    && s.n >= 1 && s.main == Deciding && s.queue == [] && s.result == None && s.next == 0
    && s.workers == seq(s.n, _ => Get) && s.stops == seq(s.n, _ => 0)
    && s.taken == [] && s.runs == [] && s.handles == [] && s.reports == map[] && s.order == []
  }

  predicate Possible(s: State, report: Option<Report>) {
    match report
    case None => true
    case Some(Returned(_)) => s.flags.mayReturn
    case Some(Raised(_)) => s.flags.mayRaise
  }

  function Reported(order: seq<(Job, Report)>, j: Job, report: Option<Report>): seq<(Job, Report)> {
    if report.Some? then order + [(j, report.value)] else order
  }

  // submit() looks at the result first; the caller may also decide to stop and join.
  ghost predicate SubmitterStep(s: State, s': State) {
    match s.main
    case Deciding =>
      || s' == s.(main := Stopping(0))
      || (s.result.Some? && !s.flags.raiseExit && s.flags.skipExit && s' == s)
      || ((s.result.None? || (!s.flags.raiseExit && !s.flags.skipExit)) && s' == s.(main := Putting))
    case Putting =>
      |s.queue| < s.n && s' == s.(queue := s.queue + [Some(s.next)], next := s.next + 1, main := Deciding)
    case Stopping(sent) =>
      if sent == s.n then s' == s.(main := Joining(0))
      else |s.queue| < s.n && s' == s.(queue := s.queue + [None], main := Stopping(sent + 1))
    case Joining(joined) =>
      if joined == s.n then s' == s.(main := Joined(s.result))
      else joined < |s.workers| && s.workers[joined].Exited? && s' == s.(main := Joining(joined + 1))
    case Joined(_) => false
  }

  ghost predicate WorkerStep(s: State, i: nat, s': State)
    requires i < |s.workers| == |s.stops| && |s.taken| == |s.runs| == |s.handles|
  {
    match s.workers[i]
    case Get =>
      s.queue != [] &&
      (match s.queue[0]
       case Some(j) =>
         s' == s.(queue := s.queue[1..], taken := s.taken + [i], runs := s.runs + [0], handles := s.handles + [0])
                .At(i, Working(j))
       case None => s' == s.(queue := s.queue[1..], stops := s.stops[i := s.stops[i] + 1]).At(i, Exited))
    case Working(j) =>
      j < |s.runs| && s' == s.(runs := s.runs[j := s.runs[j] + 1]).At(i, Handling(j))
    case Handling(j) =>
      && j < |s.handles| && i < |s'.workers| && s'.workers[i].Testing? && s'.workers[i].job == j
      && Possible(s, s'.workers[i].report)
      && s' == s.(handles := s.handles[j := s.handles[j] + 1], reports := s.reports[j := s'.workers[i].report],
                  order := Reported(s.order, j, s'.workers[i].report))
                .At(i, s'.workers[i])
    case Testing(j, report) =>
      s' == s.At(i, if report.Some? && s.result.None? then Storing(j, report.value) else Finishing(j))
    case Storing(j, value) =>
      s' == s.(result := Some((j, value))).At(i, Finishing(j))
    case Finishing(j) =>
      s' == s.At(i, Get)
    case Exited => false
  }

  ghost predicate WellFormed(s: State) {
    |s.workers| == |s.stops| == s.n && |s.taken| == |s.runs| == |s.handles|
  }

  ghost predicate Next(s: State, s': State) {
    WellFormed(s) && (SubmitterStep(s, s') || exists i :: 0 <= i < s.n && WorkerStep(s, i, s'))
  }

  ghost predicate Reachable(s: State) {
    exists s0 :: Init(s0) && Leads(Next, s0, s)
  }

  // ---- What every state satisfies ----

  function Sent(m: Submitter, n: nat): nat {
    match m
    case Deciding => 0
    case Putting => 0
    case Stopping(sent) => sent
    case Joining(_) => n
    case Joined(_) => n
  }

  function Exits(workers: seq<Worker>): (e: nat)
    ensures e <= |workers|
  {
    if workers == [] then 0 else (if workers[0].Exited? then 1 else 0) + Exits(workers[1..])
  }

  // The queue holds the jobs not taken yet, in order, and behind them the sentinels not consumed yet.
  ghost predicate QueueOk(s: State) {
    && |s.taken| <= s.next
    && |s.queue| <= s.n && Sent(s.main, s.n) <= s.n
    && |s.queue| == s.next - |s.taken| + Sent(s.main, s.n) - Exits(s.workers)
    && (forall i | 0 <= i < |s.queue| :: s.queue[i] == if i < s.next - |s.taken| then Some(|s.taken| + i) else None)
    && (Exits(s.workers) > 0 ==> |s.taken| == s.next)
  }

  // What the counts of a job say about where its worker is with it.
  ghost predicate JobOk(s: State, j: Job)
    requires j < |s.taken| == |s.runs| == |s.handles|
  {
    && s.taken[j] < |s.workers|
    && var w := s.workers[s.taken[j]];
       if w.Busy() && w.job == j then
         && s.runs[j] == (if w.Working? then 0 else 1)
         && s.handles[j] == (if w.Working? || w.Handling? then 0 else 1)
         && (j in s.reports <==> !w.Working? && !w.Handling?)
         && (w.Testing? ==> s.reports[j] == w.report)
         && (w.Storing? ==> s.reports[j] == Some(w.value))
       else s.runs[j] == 1 && s.handles[j] == 1 && j in s.reports
  }

  ghost predicate WorkerOk(s: State, i: nat)
    requires WellFormed(s) && i < s.n
  {
    && (s.workers[i].Busy() ==> s.workers[i].job < |s.taken| && s.taken[s.workers[i].job] == i)
    && s.stops[i] == (if s.workers[i].Exited? then 1 else 0)
  }

  // A worker is between the test for None and the store.
  ghost predicate AboutToStore(s: State, j: Job) {
    exists i :: 0 <= i < |s.workers| && s.workers[i].Busy() && s.workers[i].job == j
                && (s.workers[i].Testing? || s.workers[i].Storing?)
  }

  // The result is a report some handler made, by a worker that has stored it; and a report made
  // while there is no result is about to be stored.
  ghost predicate ResultOk(s: State) {
    && (s.result.Some? ==>
          var (j, v) := s.result.value;
          j in s.reports && s.reports[j] == Some(v) && !AboutToStore(s, j))
    && (s.result.None? ==> forall j | j in s.reports && s.reports[j].Some? :: AboutToStore(s, j))
  }

  ghost predicate MainOk(s: State)
    requires WellFormed(s)
  {
    match s.main
    case Joining(joined) => joined <= s.n && forall i | 0 <= i < joined :: s.workers[i].Exited?
    case Joined(returned) => returned == s.result && forall i | 0 <= i < s.n :: s.workers[i].Exited?
    case _ => true
  }

  ghost predicate Inv(s: State) {
    && s.n >= 1 && WellFormed(s)
    && QueueOk(s)
    && (forall j | 0 <= j < |s.taken| :: JobOk(s, j))
    && (forall i | 0 <= i < s.n :: WorkerOk(s, i))
    && (forall j | j in s.reports :: j < |s.taken|)
    && ResultOk(s)
    && MainOk(s)
  }

  lemma {:induction false} ExitsUpdate(ws: seq<Worker>, i: nat, w: Worker)
    requires i < |ws|
    ensures Exits(ws[i := w]) == Exits(ws) - (if ws[i].Exited? then 1 else 0) + (if w.Exited? then 1 else 0)
  {
    if i > 0 {
      assert ws[i := w][1..] == ws[1..][i - 1 := w];
      ExitsUpdate(ws[1..], i - 1, w);
    }
  }

  lemma {:induction false} AllExited(ws: seq<Worker>)
    ensures Exits(ws) == |ws| <==> forall i | 0 <= i < |ws| :: ws[i].Exited?
  {
    if ws != [] {
      AllExited(ws[1..]);
      assert forall i | 0 <= i < |ws| :: i == 0 || ws[i] == ws[1..][i - 1];
      assert forall i | 0 <= i < |ws[1..]| :: ws[1..][i] == ws[i + 1];
    }
  }

  lemma {:induction false} NoneExited(n: nat)
    ensures Exits(seq(n, _ => Get)) == 0
  {
    if n > 0 {
      assert seq(n, _ => Get)[1..] == seq(n - 1, _ => Get);
      NoneExited(n - 1);
    }
  }

  // ---- Preservation ----

  lemma InitInv(s: State)
    requires Init(s)
    ensures Inv(s)
  {
    NoneExited(s.n);
  }

  lemma SubmitterKeepsQueue(s: State, s': State)
    requires s.n >= 1 && WellFormed(s) && QueueOk(s) && MainOk(s) && SubmitterStep(s, s')
    ensures WellFormed(s') && QueueOk(s')
  {
  }

  lemma SubmitterKeepsRest(s: State, s': State)
    requires Inv(s) && SubmitterStep(s, s') && WellFormed(s')
    ensures (forall j | 0 <= j < |s'.taken| :: JobOk(s', j)) && (forall j | j in s'.reports :: j < |s'.taken|)
    ensures (forall i | 0 <= i < s'.n :: WorkerOk(s', i)) && ResultOk(s') && MainOk(s')
  {
    forall j | 0 <= j < |s'.taken| ensures JobOk(s', j) {
      assert JobOk(s, j);
    }
    forall i | 0 <= i < s'.n ensures WorkerOk(s', i) {
      assert WorkerOk(s, i);
    }
    assert forall j :: AboutToStore(s', j) <==> AboutToStore(s, j);
  }

  // Taking from the front of the queue: a job, or a sentinel once the jobs have run out.
  lemma TakingKeepsQueue(s: State, i: nat, s': State)
    requires s.n >= 1 && WellFormed(s) && QueueOk(s) && i < s.n && s.workers[i].Get? && WorkerStep(s, i, s')
    ensures WellFormed(s') && QueueOk(s')
  {
    ExitsUpdate(s.workers, i, s'.workers[i]);
    assert s'.workers == s.workers[i := s'.workers[i]];
    if s.queue[0].None? {
      assert |s.taken| == s.next;
    }
  }

  lemma WorkingKeepsQueue(s: State, i: nat, s': State)
    requires WellFormed(s) && QueueOk(s) && i < s.n && s.workers[i].Busy() && WorkerStep(s, i, s')
    ensures WellFormed(s') && QueueOk(s')
  {
    ExitsUpdate(s.workers, i, s'.workers[i]);
    assert s'.workers == s.workers[i := s'.workers[i]];
  }

  lemma WorkerKeepsMain(s: State, i: nat, s': State)
    requires WellFormed(s) && MainOk(s) && i < s.n && WorkerStep(s, i, s')
    ensures WellFormed(s') && MainOk(s')
  {
  }

  // The front of the queue, if it is a job, is the first one not taken.
  ghost predicate HeadIsNext(s: State) {
    s.queue != [] && s.queue[0].Some? ==> s.queue[0].value == |s.taken|
  }

  // A step of worker `i` that is not about job `j` leaves its counts and reports alone.
  ghost predicate SameCounts(s: State, s': State, j: Job)
    requires j < |s.taken| == |s.runs| == |s.handles|
  {
    && |s'.taken| == |s'.runs| == |s'.handles| && j < |s'.taken|
    && s'.taken[j] == s.taken[j] && s'.runs[j] == s.runs[j] && s'.handles[j] == s.handles[j]
    && (j in s'.reports <==> j in s.reports) && (j in s.reports ==> s'.reports[j] == s.reports[j])
  }

  ghost predicate OnlyWorker(s: State, i: nat, s': State, j: Job) {
    && i < |s.workers| == |s'.workers| && s'.workers == s.workers[i := s'.workers[i]]
    && !(s.workers[i].Busy() && s.workers[i].job == j)
    && !(s'.workers[i].Busy() && s'.workers[i].job == j)
  }

  lemma StepSameCounts(s: State, i: nat, s': State, j: Job)
    requires WellFormed(s) && i < s.n && WorkerStep(s, i, s') && j < |s.taken|
    requires s.workers[i].Busy() ==> s.workers[i].job != j
    ensures SameCounts(s, s', j)
  {
  }

  lemma StepOnlyWorker(s: State, i: nat, s': State, j: Job)
    requires WellFormed(s) && HeadIsNext(s) && i < s.n && WorkerStep(s, i, s') && j < |s.taken|
    requires s.workers[i].Busy() ==> s.workers[i].job != j
    ensures OnlyWorker(s, i, s', j)
  {
  }

  // The other workers' jobs are not touched.
  lemma OtherJob(s: State, i: nat, s': State, j: Job)
    requires j < |s.taken| == |s.runs| == |s.handles| && SameCounts(s, s', j) && OnlyWorker(s, i, s', j) && JobOk(s, j)
    ensures JobOk(s', j)
  {
  }

  lemma OwnJob(s: State, i: nat, s': State, j: Job)
    requires WellFormed(s) && i < s.n && WorkerStep(s, i, s') && WellFormed(s')
    requires s.workers[i].Busy() && s.workers[i].job == j && WorkerOk(s, i) && JobOk(s, j)
    ensures j < |s'.taken| && JobOk(s', j)
  {
  }

  lemma NewJob(s: State, i: nat, s': State)
    requires WellFormed(s) && HeadIsNext(s) && i < s.n && WorkerStep(s, i, s') && WellFormed(s')
    requires |s'.taken| > |s.taken| && forall j | j in s.reports :: j < |s.taken|
    ensures |s'.taken| == |s.taken| + 1 && JobOk(s', |s.taken|)
  {
  }

  lemma WorkerKeepsJobs(s: State, i: nat, s': State)
    requires Inv(s) && i < s.n && WorkerStep(s, i, s') && WellFormed(s')
    ensures forall j | 0 <= j < |s'.taken| :: JobOk(s', j)
    ensures forall j | j in s'.reports :: j < |s'.taken|
  {
    assert WorkerOk(s, i);
    forall j | 0 <= j < |s'.taken| ensures JobOk(s', j) {
      if j < |s.taken| {
        assert JobOk(s, j);
        if s.workers[i].Busy() && s.workers[i].job == j {
          OwnJob(s, i, s', j);
        } else {
          StepSameCounts(s, i, s', j);
          StepOnlyWorker(s, i, s', j);
          OtherJob(s, i, s', j);
        }
      } else {
        NewJob(s, i, s');
      }
    }
  }

  lemma WorkerKeepsWorkers(s: State, i: nat, s': State)
    requires Inv(s) && i < s.n && WorkerStep(s, i, s') && WellFormed(s')
    ensures forall k | 0 <= k < s'.n :: WorkerOk(s', k)
  {
    forall k | 0 <= k < s'.n ensures WorkerOk(s', k) {
      assert WorkerOk(s, k);
    }
  }

  lemma StoredResultStays(s: State, i: nat, s': State)
    requires Inv(s) && i < s.n && WorkerStep(s, i, s') && WellFormed(s') && s'.result.Some?
    ensures ResultOk(s')
  {
    assert WorkerOk(s, i);
    if s.workers[i].Busy() {
      assert JobOk(s, s.workers[i].job);
    }
    var (j, v) := s'.result.value;
    forall k | 0 <= k < |s'.workers| && s'.workers[k].Busy() && s'.workers[k].job == j
      ensures !s'.workers[k].Testing? && !s'.workers[k].Storing?
    {
      assert WorkerOk(s, k);
      if k != i {
        assert s'.workers[k] == s.workers[k];
      }
    }
  }

  lemma NoResultYet(s: State, i: nat, s': State)
    requires Inv(s) && i < s.n && WorkerStep(s, i, s') && WellFormed(s') && s'.result.None?
    ensures ResultOk(s')
  {
    assert WorkerOk(s, i);
    if s.workers[i].Busy() {
      assert JobOk(s, s.workers[i].job);
    }
    forall j | j in s'.reports && s'.reports[j].Some? ensures AboutToStore(s', j) {
      if s'.workers[i].Busy() && s'.workers[i].job == j && (s'.workers[i].Testing? || s'.workers[i].Storing?) {
        assert AboutToStore(s', j);
      } else {
        assert AboutToStore(s, j);
        var k :| 0 <= k < |s.workers| && s.workers[k].Busy() && s.workers[k].job == j
                 && (s.workers[k].Testing? || s.workers[k].Storing?);
        assert WorkerOk(s, k);
        assert k != i;
        assert s'.workers[k] == s.workers[k];
      }
    }
  }

  lemma WorkerKeepsInv(s: State, i: nat, s': State)
    requires Inv(s) && i < s.n && WorkerStep(s, i, s')
    ensures Inv(s')
  {
    if s.workers[i].Get? {
      TakingKeepsQueue(s, i, s');
    } else {
      WorkingKeepsQueue(s, i, s');
    }
    WorkerKeepsMain(s, i, s');
    WorkerKeepsJobs(s, i, s');
    WorkerKeepsWorkers(s, i, s');
    if s'.result.Some? {
      StoredResultStays(s, i, s');
    } else {
      NoResultYet(s, i, s');
    }
  }

  lemma NextKeepsInv(s: State, s': State)
    requires Inv(s) && Next(s, s')
    ensures Inv(s')
  {
    if SubmitterStep(s, s') {
      SubmitterKeepsQueue(s, s');
      SubmitterKeepsRest(s, s');
    } else {
      var i :| 0 <= i < s.n && WorkerStep(s, i, s');
      WorkerKeepsInv(s, i, s');
    }
  }

  lemma ReachableInv(s: State)
    requires Reachable(s)
    ensures Inv(s)
  {
    var s0 :| Init(s0) && Leads(Next, s0, s);
    InitInv(s0);
    forall a, b | Inv(a) && Next(a, b) ensures Inv(b) {
      NextKeepsInv(a, b);
    }
    LeadsKeeps(Next, Inv, s0, s);
  }

  // ---- Main results ----

  // When join() returns, every job put has been run once and handled once, every worker has
  // consumed one sentinel, and nothing is left in the queue.
  lemma JoinIsComplete(s: State)
    requires Reachable(s) && s.main.Joined?
    ensures |s.taken| == s.next && |s.runs| == s.next && |s.handles| == s.next && |s.stops| == s.n
    ensures forall j | 0 <= j < s.next :: s.runs[j] == 1 && s.handles[j] == 1
    ensures forall i | 0 <= i < s.n :: s.stops[i] == 1
    ensures s.queue == []
  {
    ReachableInv(s);
    AllExited(s.workers);
    forall j | 0 <= j < s.next ensures s.runs[j] == 1 && s.handles[j] == 1 {
      assert JobOk(s, j);
    }
    forall i | 0 <= i < s.n ensures s.stops[i] == 1 {
      assert WorkerOk(s, i);
    }
  }

  // join() returns None exactly if no handler reported anything, and otherwise a report that the
  // handler made for the job it is returned with.
  lemma JoinReturnsAReport(s: State)
    requires Reachable(s) && s.main.Joined?
    ensures s.main.returned.None? <==> forall j | j in s.reports :: s.reports[j].None?
    ensures s.main.returned.Some? ==>
              var (j, v) := s.main.returned.value; j in s.reports && s.reports[j] == Some(v)
    ensures forall j: Job :: j in s.reports <==> j < s.next
  {
    ReachableInv(s);
    JoinIsComplete(s);
    assert forall j :: !AboutToStore(s, j);
    forall j | 0 <= j < s.next ensures j in s.reports {
      assert JobOk(s, j);
    }
  }

  lemma QueueIsBounded(s: State)
    requires Reachable(s)
    ensures |s.queue| <= s.n
  {
    ReachableInv(s);
  }

  // A job in progress is in the hands of one worker.
  lemma OneWorkerPerJob(s: State, i: nat, k: nat)
    requires Reachable(s) && i < |s.workers| && k < |s.workers|
    requires s.workers[i].Busy() && s.workers[k].Busy() && s.workers[i].job == s.workers[k].job
    ensures i == k
  {
    ReachableInv(s);
    assert WorkerOk(s, i) && WorkerOk(s, k);
  }

  lemma WorkerCanStep(s: State, i: nat)
    requires Inv(s) && i < s.n && (s.workers[i].Busy() || (s.workers[i].Get? && s.queue != []))
    ensures exists s' :: WorkerStep(s, i, s')
  {
    assert WorkerOk(s, i);
    var s' := match s.workers[i]
      case Get =>
        (match s.queue[0]
         case Some(j) =>
           s.(queue := s.queue[1..], taken := s.taken + [i], runs := s.runs + [0], handles := s.handles + [0])
            .At(i, Working(j))
         case None => s.(queue := s.queue[1..], stops := s.stops[i := s.stops[i] + 1]).At(i, Exited))
      case Working(j) => s.(runs := s.runs[j := s.runs[j] + 1]).At(i, Handling(j))
      case Handling(j) =>
        s.(handles := s.handles[j := s.handles[j] + 1], reports := s.reports[j := None]).At(i, Testing(j, None))
      case Testing(j, report) =>
        s.At(i, if report.Some? && s.result.None? then Storing(j, report.value) else Finishing(j))
      case Storing(j, value) => s.(result := Some((j, value))).At(i, Finishing(j))
      case Finishing(j) => s.At(i, Get)
      case Exited => s;
    assert WorkerStep(s, i, s');
  }

  // What the submitter still has to do to get to the end of join(), and everything else.
  function ToGo(m: Submitter, n: nat): nat {
    match m
    case Putting => 2 * n + 4
    case Deciding => 2 * n + 3
    case Stopping(sent) => n + 2 + if sent < n then n - sent else 0
    case Joining(joined) => 1 + if joined < n then n - joined else 0
    case Joined(_) => 0
  }

  // By a full queue or a running worker.
  predicate Blocked(s: State) {
    match s.main
    case Putting => |s.queue| >= s.n
    case Stopping(sent) => sent != s.n && |s.queue| >= s.n
    case Joining(joined) => joined != s.n && (joined >= |s.workers| || !s.workers[joined].Exited?)
    case _ => false
  }

  lemma SubmitterGoesOn(s: State) returns (s': State)
    requires Inv(s) && !s.main.Joined? && !Blocked(s)
    ensures SubmitterStep(s, s') && ToGo(s'.main, s'.n) < ToGo(s.main, s.n)
  {
    match s.main {
      case Deciding => s' := s.(main := Stopping(0));
      case Putting => s' := s.(queue := s.queue + [Some(s.next)], next := s.next + 1, main := Deciding);
      case Stopping(sent) =>
        s' := if sent == s.n then s.(main := Joining(0))
              else s.(queue := s.queue + [None], main := Stopping(sent + 1));
      case Joining(joined) => s' := s.(main := if joined == s.n then Joined(s.result) else Joining(joined + 1));
    }
  }

  // When the submitter is blocked some worker is not.
  lemma WorkerGoesOn(s: State) returns (i: nat, s': State)
    requires Inv(s) && Blocked(s)
    ensures i < s.n && WorkerStep(s, i, s')
  {
    if k :| 0 <= k < s.n && (s.workers[k].Busy() || (s.workers[k].Get? && s.queue != [])) {
      i := k;
      WorkerCanStep(s, i);
      s' :| WorkerStep(s, i, s');
    } else {
      AllExited(s.workers);
      assert false;
    }
  }

  lemma NeverStuck(s: State)
    requires Reachable(s) && !s.main.Joined? && !exists s' :: SubmitterStep(s, s')
    ensures WellFormed(s) && exists i, s' :: 0 <= i < s.n && WorkerStep(s, i, s')
  {
    ReachableInv(s);
    if Blocked(s) {
      var i, s' := WorkerGoesOn(s);
    } else {
      var s' := SubmitterGoesOn(s);
    }
  }

  // ---- Every run can be continued to the end of join() ----

  function Phase(w: Worker): nat {
    match w
    case Working(_) => 5
    case Handling(_) => 4
    case Testing(_, _) => 3
    case Storing(_, _) => 2
    case Finishing(_) => 1
    case _ => 0
  }

  function Phases(workers: seq<Worker>): nat {
    if workers == [] then 0 else Phase(workers[0]) + Phases(workers[1..])
  }

  function Queued(queue: seq<Option<Job>>): nat {
    if queue == [] then 0 else (if queue[0].Some? then 6 else 1) + Queued(queue[1..])
  }

  lemma {:induction false} PhasesUpdate(ws: seq<Worker>, i: nat, w: Worker)
    requires i < |ws|
    ensures Phases(ws[i := w]) == Phases(ws) - Phase(ws[i]) + Phase(w)
  {
    if i > 0 {
      assert ws[i := w][1..] == ws[1..][i - 1 := w];
      PhasesUpdate(ws[1..], i - 1, w);
    }
  }

  // A worker's step leaves less for the workers to do.
  lemma WorkerStepLess(s: State, i: nat, s': State)
    requires Inv(s) && i < s.n && WorkerStep(s, i, s')
    ensures s'.main == s.main && s'.n == s.n
    ensures Queued(s'.queue) + Phases(s'.workers) < Queued(s.queue) + Phases(s.workers)
  {
    assert s'.workers == s.workers[i := s'.workers[i]];
    PhasesUpdate(s.workers, i, s'.workers[i]);
  }

  // From wherever a run has got to it can be continued to a join() that returns.
  lemma {:induction false} CanJoin(s: State) returns (m: State)
    requires Reachable(s)
    ensures Leads(Next, s, m) && m.main.Joined?
    decreases ToGo(s.main, s.n), Queued(s.queue) + Phases(s.workers)
  {
    ReachableInv(s);
    if s.main.Joined? {
      LeadsToSelf(Next, s);
      m := s;
    } else {
      var s';
      if Blocked(s) {
        var i;
        i, s' := WorkerGoesOn(s);
        WorkerStepLess(s, i, s');
      } else {
        s' := SubmitterGoesOn(s);
      }
      var s0 :| Init(s0) && Leads(Next, s0, s);
      LeadsOn(Next, s0, s, s');
      m := CanJoin(s');
      LeadsFrom(Next, s, s', m);
    }
  }

  // ---- Which result is kept ----

  ghost predicate SomeoneStores(s: State) {
    exists i :: 0 <= i < |s.workers| && s.workers[i].Storing?
  }

  // Once there is a result there always is one.
  lemma ResultNeverReverts(s: State, s': State)
    requires Next(s, s') && s.result.Some?
    ensures s'.result.Some?
  {
  }

  ghost predicate Settled(s: State, result: Option<(Job, Report)>) {
    s.result == result && result.Some? && !SomeoneStores(s)
  }

  // And when nobody is between the test for None and the store, it is the final one.
  lemma ResultIsFinal(s: State, s': State)
    requires Leads(Next, s, s') && s.result.Some? && !SomeoneStores(s)
    ensures s'.result == s.result && !SomeoneStores(s')
  {
    var settled := (a: State) => Settled(a, s.result);
    forall a, b | settled(a) && Next(a, b) ensures settled(b) {
      StaysSettled(a, b, s.result);
    }
    LeadsKeeps(Next, settled, s, s');
  }

  lemma StaysSettled(s: State, s': State, result: Option<(Job, Report)>)
    requires Settled(s, result) && Next(s, s')
    ensures Settled(s', result)
  {
  }

  // The test is made without the lock: a result is overwritten, by a report about another job,
  // in some continuation of the run if and only if some worker has already passed the test.
  lemma FinalIffNobodyStores(s: State)
    requires Reachable(s) && s.result.Some?
    ensures (forall s' | Leads(Next, s, s') :: s'.result == s.result) <==> !SomeoneStores(s)
  {
    if SomeoneStores(s) {
      ReachableInv(s);
      var i :| 0 <= i < |s.workers| && s.workers[i].Storing?;
      var w := s.workers[i];
      var s' := s.(result := Some((w.job, w.value))).At(i, Finishing(w.job));
      assert WorkerStep(s, i, s');
      LeadsToSelf(Next, s);
      LeadsOn(Next, s, s, s');
      assert AboutToStore(s, w.job);
      assert s'.result != s.result;
    } else {
      forall s' | Leads(Next, s, s') ensures s'.result == s.result {
        ResultIsFinal(s, s');
      }
    }
  }

  // ---- What a result means to the submitter ----

  // With a result stored, the options, and so many jobs put.
  ghost predicate Closed(s: State, next: nat) {
    s.result.Some? && (s.flags.raiseExit || s.flags.skipExit) && s.next == next && !s.main.Putting?
  }

  lemma StaysClosed(s: State, s': State, next: nat)
    requires Closed(s, next) && Next(s, s')
    ensures Closed(s', next)
  {
  }

  // A busy worker comes back for the next job, whatever the others do not do.
  lemma {:induction false} WorkerComesBack(s0: State, s: State, i: nat) returns (m: State)
    requires Reachable(s0) && Leads(Next, s0, s) && i < s.n == |s.workers| && !s.workers[i].Exited?
    ensures Leads(Next, s0, m) && m.n == s.n == |m.workers| && m.workers[i].Get?
    ensures m.main == s.main && m.queue == s.queue && m.next == s.next
    decreases Phase(s.workers[i])
  {
    if s.workers[i].Get? {
      m := s;
    } else {
      ContinuationInv(s0, s);
      WorkerCanStep(s, i);
      var s' :| WorkerStep(s, i, s');
      LeadsOn(Next, s0, s, s');
      m := WorkerComesBack(s0, s', i);
    }
  }

  lemma ContinuationInv(s0: State, s: State)
    requires Reachable(s0) && Leads(Next, s0, s)
    ensures Inv(s)
  {
    ReachableInv(s0);
    forall a, b | Inv(a) && Next(a, b) ensures Inv(b) {
      NextKeepsInv(a, b);
    }
    LeadsKeeps(Next, Inv, s0, s);
  }

  lemma {:induction false} SomeExited(workers: seq<Worker>, i: nat)
    requires i < |workers| && workers[i].Exited?
    ensures Exits(workers) > 0
  {
    if i > 0 {
      SomeExited(workers[1..], i - 1);
    }
  }

  lemma NobodyExitsEarly(s: State, i: nat)
    requires Inv(s) && i < s.n && s.main.Putting?
    ensures !s.workers[i].Exited?
  {
    if s.workers[i].Exited? {
      SomeExited(s.workers, i);
      assert false;
    }
  }

  // The queue gets room for the put.
  lemma RoomComes(s0: State, s: State) returns (m: State)
    requires Reachable(s0) && Leads(Next, s0, s) && s.main.Putting?
    ensures Leads(Next, s0, m) && m.main == s.main && m.next == s.next && |m.queue| < m.n
  {
    ContinuationInv(s0, s);
    if |s.queue| < s.n {
      m := s;
    } else {
      NobodyExitsEarly(s, 0);
      var k := WorkerComesBack(s0, s, 0);
      ContinuationInv(s0, k);
      WorkerCanStep(k, 0);
      m :| WorkerStep(k, 0, m);
      LeadsOn(Next, s0, k, m);
    }
  }

  lemma PutsOneMore(s: State) returns (m: State)
    requires Reachable(s) && s.main.Deciding? && (s.result.None? || (!s.flags.raiseExit && !s.flags.skipExit))
    ensures Leads(Next, s, m) && m.next == s.next + 1
  {
    ReachableInv(s);
    var s1 := s.(main := Putting);
    LeadsToSelf(Next, s);
    LeadsOn(Next, s, s, s1);
    var k := RoomComes(s, s1);
    ContinuationInv(s, k);
    m := k.(queue := k.queue + [Some(k.next)], next := k.next + 1, main := Deciding);
    LeadsOn(Next, s, k, m);
  }

  // Once there is a result, submit() puts no further job, whatever happens, if and only if one of
  // the two options is set.
  lemma PutsNoMoreIff(s: State)
    requires Reachable(s) && s.main.Deciding? && s.result.Some?
    ensures (forall s' | Leads(Next, s, s') :: s'.next == s.next) <==> s.flags.raiseExit || s.flags.skipExit
  {
    if s.flags.raiseExit || s.flags.skipExit {
      var closed := (a: State) => Closed(a, s.next);
      forall a, b | closed(a) && Next(a, b) ensures closed(b) {
        StaysClosed(a, b, s.next);
      }
      forall s' | Leads(Next, s, s') ensures s'.next == s.next {
        LeadsKeeps(Next, closed, s, s');
      }
    } else {
      var m := PutsOneMore(s);
    }
  }

  // With no result it does put.
  lemma PutsWithoutResult(s: State) returns (m: State)
    requires Reachable(s) && s.main.Deciding? && s.result.None?
    ensures Leads(Next, s, m) && m.next == s.next + 1
  {
    m := PutsOneMore(s);
  }

  // The exception leaves only the way to the sentinels and the join; the other option lets the
  // caller go on without effect too.
  lemma ExitsAre(s: State, s': State)
    requires s.main.Deciding? && s.result.Some? && (s.flags.raiseExit || s.flags.skipExit)
    ensures SubmitterStep(s, s') <==> s' == s.(main := Stopping(0)) || (!s.flags.raiseExit && s' == s)
  {
  }

  // ---- What the documentation promises ----

  // The reports in order are the reports there are.
  ghost predicate OrderOk(s: State) {
    && (forall e | e in s.order :: e.0 in s.reports && s.reports[e.0] == Some(e.1) && Possible(s, Some(e.1)))
    && (forall j | j in s.reports && s.reports[j].Some? :: (j, s.reports[j].value) in s.order)
  }

  function First(order: seq<(Job, Report)>): Option<(Job, Report)> {
    if order == [] then None else Some(order[0])
  }

  // With one worker the result is the first report, once the worker has stored it.
  ghost predicate FirstOk(s: State) {
    s.n == 1 && |s.workers| == 1 ==>
      match s.workers[0]
      case Testing(j, Some(v)) =>
        if |s.order| == 1 then s.result == None && s.order[0] == (j, v)
        else |s.order| > 1 && s.result == Some(s.order[0])
      case Storing(j, v) => s.order == [(j, v)]
      case _ => s.result == First(s.order)
  }

  lemma WorkerKeepsOrder(s: State, i: nat, s': State)
    requires Inv(s) && OrderOk(s) && i < s.n && WorkerStep(s, i, s')
    ensures OrderOk(s')
  {
    assert WorkerOk(s, i);
    if s.workers[i].Handling? {
      var j := s.workers[i].job;
      assert JobOk(s, j);
      assert j !in s.reports;
    }
  }

  lemma WorkerKeepsFirst(s: State, i: nat, s': State)
    requires WellFormed(s) && FirstOk(s) && i < s.n && WorkerStep(s, i, s')
    ensures FirstOk(s')
  {
  }

  lemma SubmitterKeepsOrder(s: State, s': State)
    requires OrderOk(s) && FirstOk(s) && SubmitterStep(s, s')
    ensures OrderOk(s') && FirstOk(s')
  {
  }

  ghost predicate OrderInv(s: State) {
    Inv(s) && OrderOk(s) && FirstOk(s)
  }

  lemma NextKeepsOrder(s: State, s': State)
    requires OrderInv(s) && Next(s, s')
    ensures OrderInv(s')
  {
    NextKeepsInv(s, s');
    if SubmitterStep(s, s') {
      SubmitterKeepsOrder(s, s');
    } else {
      var i :| 0 <= i < s.n && WorkerStep(s, i, s');
      WorkerKeepsOrder(s, i, s');
      WorkerKeepsFirst(s, i, s');
    }
  }

  lemma ReachableOrder(s: State)
    requires Reachable(s)
    ensures OrderInv(s)
  {
    var s0 :| Init(s0) && Leads(Next, s0, s);
    InitInv(s0);
    forall a, b | OrderInv(a) && Next(a, b) ensures OrderInv(b) {
      NextKeepsOrder(a, b);
    }
    LeadsKeeps(Next, OrderInv, s0, s);
  }

  function FirstRaised(order: seq<(Job, Report)>): Option<(Job, Report)> {
    if order == [] then None
    else if order[0].1.Raised? then Some(order[0])
    else FirstRaised(order[1..])
  }

  // The first exception if a handler has raised one; otherwise a report that was made, if any.
  ghost predicate Documented(order: seq<(Job, Report)>, returned: Option<(Job, Report)>) {
    if FirstRaised(order).Some? then returned == FirstRaised(order)
    else if order == [] then returned == None
    else returned.Some? && returned.value in order
  }

  lemma {:induction false} FirstRaisedIsRaised(order: seq<(Job, Report)>)
    ensures FirstRaised(order).Some? <==> exists i | 0 <= i < |order| :: order[i].1.Raised?
    ensures order != [] && order[0].1.Raised? ==> FirstRaised(order) == Some(order[0])
  {
    if order != [] && !order[0].1.Raised? {
      FirstRaisedIsRaised(order[1..]);
      if i :| 0 <= i < |order| && order[i].1.Raised? {
        assert order[1..][i - 1] == order[i];
      }
    }
  }

  ghost predicate Returns(n: nat, flags: Flags, s: State) {
    Reachable(s) && s.n == n && s.flags == flags && s.main.Joined?
  }

  lemma OnlyValues(s: State)
    requires Reachable(s) && s.main.Joined? && !s.flags.mayRaise
    ensures Documented(s.order, s.main.returned)
  {
    ReachableOrder(s);
    JoinReturnsAReport(s);
    FirstRaisedIsRaised(s.order);
    forall k | 0 <= k < |s.order| ensures !s.order[k].1.Raised? {
      assert s.order[k] in s.order;
    }
    if s.order != [] {
      assert s.order[0] in s.order;
      assert s.reports[s.order[0].0].Some?;
      var (j, v) := s.main.returned.value;
      assert (j, v) in s.order;
    }
  }

  // With one worker join() returns the first report.
  lemma OneWorkerReturnsFirst(s: State)
    requires Reachable(s) && s.n == 1 && s.main.Joined?
    ensures s.main.returned == First(s.order)
  {
    ReachableOrder(s);
  }

  lemma OnlyExceptions(s: State)
    requires Reachable(s) && s.main.Joined? && s.n == 1 && !s.flags.mayReturn
    ensures Documented(s.order, s.main.returned)
  {
    ReachableOrder(s);
    OneWorkerReturnsFirst(s);
    FirstRaisedIsRaised(s.order);
    if s.order != [] {
      assert s.order[0] in s.order;
    }
  }

  // ---- Pieces of runs ----

  lemma Extends(s: State, s': State)
    requires Reachable(s) && Next(s, s')
    ensures Reachable(s')
  {
    var s0 :| Init(s0) && Leads(Next, s0, s);
    LeadsOn(Next, s0, s, s');
  }

  lemma Submits(s: State, s': State)
    requires Reachable(s) && SubmitterStep(s, s')
    ensures Reachable(s')
  {
    ReachableInv(s);
    Extends(s, s');
  }

  lemma Works(s: State, i: nat, s': State)
    requires Reachable(s) && i < s.n && WellFormed(s) && WorkerStep(s, i, s')
    ensures Reachable(s')
  {
    Extends(s, s');
  }

  // A pool about to submit.
  ghost predicate Open(s: State) {
    && Reachable(s) && WellFormed(s) && s.main.Deciding?
    && |s.taken| + |s.queue| == s.next
    && forall k | 0 <= k < |s.queue| :: s.queue[k] == Some(|s.taken| + k)
  }

  function Fresh(n: nat, flags: Flags): State {
    State(n, flags, Deciding, [], seq(n, _ => Get), None, 0, [], [], [], map[], [], seq(n, _ => 0))
  }

  lemma FreshIsOpen(n: nat, flags: Flags)
    requires n >= 1
    ensures Open(Fresh(n, flags))
  {
    var s := Fresh(n, flags);
    assert Init(s);
    LeadsToSelf(Next, s);
  }

  lemma PutJob(s: State) returns (s': State)
    requires Open(s) && |s.queue| < s.n && s.result.None?
    ensures Open(s') && s' == s.(queue := s.queue + [Some(s.next)], next := s.next + 1)
  {
    var s1 := s.(main := Putting);
    Submits(s, s1);
    s' := s1.(queue := s1.queue + [Some(s1.next)], next := s1.next + 1, main := Deciding);
    Submits(s1, s');
  }

  // Worker `i` takes the next job, runs it and gets as far as the test.
  lemma RunJob(s: State, i: nat, report: Report) returns (s': State)
    requires Open(s) && i < s.n && s.workers[i].Get? && s.queue != [] && Possible(s, Some(report))
    ensures Open(s')
    ensures var j := |s.taken|;
            s' == s.(queue := s.queue[1..], taken := s.taken + [i], runs := s.runs + [1], handles := s.handles + [1],
                     reports := s.reports[j := Some(report)], order := s.order + [(j, report)],
                     workers := s.workers[i := Testing(j, Some(report))])
  {
    var j := |s.taken|;
    var s2 := JobRuns(s, i);
    s' := JobReported(s2, i, j, report);
    assert (s.handles + [0])[j := 1] == s.handles + [1];
    assert s'.workers == s.workers[i := Testing(j, Some(report))];
  }

  lemma JobRuns(s: State, i: nat) returns (s': State)
    requires Open(s) && i < s.n && s.workers[i].Get? && s.queue != []
    ensures Reachable(s') && WellFormed(s')
    ensures s' == s.(queue := s.queue[1..], taken := s.taken + [i], runs := s.runs + [1], handles := s.handles + [0],
                     workers := s.workers[i := Handling(|s.taken|)])
  {
    var j := |s.taken|;
    var s1 := s.(queue := s.queue[1..], taken := s.taken + [i], runs := s.runs + [0], handles := s.handles + [0])
               .At(i, Working(j));
    Works(s, i, s1);
    assert (s.runs + [0])[j := 1] == s.runs + [1];
    assert s.workers[i := Working(j)][i := Handling(j)] == s.workers[i := Handling(j)];
    s' := s1.(runs := s1.runs[j := s1.runs[j] + 1]).At(i, Handling(j));
    Works(s1, i, s');
  }

  lemma JobReported(s: State, i: nat, j: Job, report: Report) returns (s': State)
    requires Reachable(s) && WellFormed(s) && i < s.n && s.workers[i] == Handling(j) && j < |s.handles|
    requires Possible(s, Some(report))
    ensures Reachable(s')
    ensures s' == s.(handles := s.handles[j := s.handles[j] + 1], reports := s.reports[j := Some(report)],
                     order := s.order + [(j, report)], workers := s.workers[i := Testing(j, Some(report))])
  {
    s' := s.(handles := s.handles[j := s.handles[j] + 1], reports := s.reports[j := Some(report)],
             order := s.order + [(j, report)]).At(i, Testing(j, Some(report)));
    Works(s, i, s');
  }

  // Worker `i` finds no result, and stores its own.
  lemma Stores(s: State, i: nat) returns (s': State)
    requires Open(s) && i < s.n && s.workers[i].Testing? && s.workers[i].report.Some? && s.result.None?
    ensures Open(s')
    ensures s' == s.(result := Some((s.workers[i].job, s.workers[i].report.value)), workers := s.workers[i := Get])
  {
    var j, v := s.workers[i].job, s.workers[i].report.value;
    var s1 := s.At(i, Storing(j, v));
    Works(s, i, s1);
    var s2 := s1.(result := Some((j, v))).At(i, Finishing(j));
    Works(s1, i, s2);
    s' := s2.At(i, Get);
    Works(s2, i, s');
    assert s'.workers == s.workers[i := Get];
  }

  // Worker `i` finds a result, and drops its own.
  lemma Drops(s: State, i: nat) returns (s': State)
    requires Open(s) && i < s.n && s.workers[i].Testing? && s.result.Some?
    ensures Open(s') && s' == s.(workers := s.workers[i := Get])
  {
    var j := s.workers[i].job;
    var s1 := s.At(i, Finishing(j));
    Works(s, i, s1);
    s' := s1.At(i, Get);
    Works(s1, i, s');
    assert s'.workers == s.workers[i := Get];
  }

  // ---- join() ----

  // `sent` sentinels have been put, and each has been taken by a worker of its own.
  ghost predicate Leaving(s: State, sent: nat) {
    && Reachable(s) && WellFormed(s) && s.main == Stopping(sent) && sent <= s.n && s.queue == []
    && forall k | 0 <= k < s.n :: s.workers[k] == if k < sent then Exited else Get
  }

  lemma {:induction false} AllLeave(s: State, sent: nat) returns (s': State)
    requires Leaving(s, sent)
    ensures Leaving(s', s.n) && s'.n == s.n && s'.flags == s.flags && s'.order == s.order && s'.result == s.result
    decreases s.n - sent
  {
    if sent == s.n {
      s' := s;
    } else {
      var s1 := OneLeaves(s, sent);
      s' := AllLeave(s1, sent + 1);
    }
  }

  lemma OneLeaves(s: State, sent: nat) returns (s': State)
    requires Leaving(s, sent) && sent < s.n
    ensures Leaving(s', sent + 1)
    ensures s'.n == s.n && s'.flags == s.flags && s'.order == s.order && s'.result == s.result
  {
    var s1 := s.(queue := s.queue + [None], main := Stopping(sent + 1));
    Submits(s, s1);
    s' := s1.(queue := s1.queue[1..], stops := s1.stops[sent := s1.stops[sent] + 1]).At(sent, Exited);
    Works(s1, sent, s');
  }

  lemma {:induction false} AllJoined(s: State, joined: nat) returns (s': State)
    requires Reachable(s) && s.main == Joining(joined) && joined <= s.n == |s.workers|
    requires forall k | 0 <= k < s.n :: s.workers[k].Exited?
    ensures Reachable(s') && s' == s.(main := Joined(s.result))
    decreases s.n - joined
  {
    if joined == s.n {
      s' := s.(main := Joined(s.result));
      Submits(s, s');
    } else {
      var s1 := s.(main := Joining(joined + 1));
      Submits(s, s1);
      s' := AllJoined(s1, joined + 1);
    }
  }

  lemma Joins(s: State) returns (s': State)
    requires Open(s) && s.queue == [] && forall k | 0 <= k < s.n :: s.workers[k].Get?
    ensures Returns(s.n, s.flags, s') && s'.order == s.order && s'.main.returned == s.result
  {
    var s1 := s.(main := Stopping(0));
    Submits(s, s1);
    var s2 := AllLeave(s1, 0);
    var s3 := s2.(main := Joining(0));
    Submits(s2, s3);
    s' := AllJoined(s3, 0);
  }

  // ---- Exactly when the documented result is returned ----

  // Two workers hold reports, and nobody has tested.
  lemma TwoReported(n: nat, flags: Flags, a: Report, b: Report) returns (s: State)
    requires n >= 2 && Possible(Fresh(n, flags), Some(a)) && Possible(Fresh(n, flags), Some(b))
    ensures Open(s) && s.n == n && s.flags == flags && s.queue == [] && s.result == None
    ensures s.order == [(0, a), (1, b)]
    ensures s.workers[0] == Testing(0, Some(a)) && s.workers[1] == Testing(1, Some(b))
    ensures forall k | 2 <= k < n :: s.workers[k].Get?
  {
    FreshIsOpen(n, flags);
    var s1 := PutJob(Fresh(n, flags));
    var s2 := PutJob(s1);
    var s3 := RunJob(s2, 0, a);
    s := RunJob(s3, 1, b);
  }

  // The second one tests and stores first.
  lemma SecondIsReturned(n: nat, flags: Flags, a: Report, b: Report) returns (s: State)
    requires n >= 2 && Possible(Fresh(n, flags), Some(a)) && Possible(Fresh(n, flags), Some(b))
    ensures Returns(n, flags, s) && s.order == [(0, a), (1, b)] && s.main.returned == Some((1, b))
  {
    var s1 := TwoReported(n, flags, a, b);
    var s2 := Stores(s1, 1);
    var s3 := Drops(s2, 0);
    s := Joins(s3);
  }

  // A value is reported, then an exception.
  lemma ValueHidesException(n: nat, flags: Flags) returns (s: State)
    requires n >= 1 && flags.mayReturn && flags.mayRaise
    ensures Returns(n, flags, s)
    ensures s.order == [(0, Returned(7)), (1, Raised(8))] && s.main.returned == Some((0, Returned(7)))
  {
    FreshIsOpen(n, flags);
    var s1 := PutJob(Fresh(n, flags));
    var s2 := RunJob(s1, 0, Returned(7));
    var s3 := PutJob(s2);
    var s4 := Stores(s3, 0);
    var s5 := RunJob(s4, 0, Raised(8));
    var s6 := Drops(s5, 0);
    s := Joins(s6);
  }

  // The pool always returns the first report if and only if it has one worker, as the test for
  // a result runs without the lock.
  lemma FirstIsReturnedIff(n: nat, flags: Flags)
    requires n >= 1 && (flags.mayReturn || flags.mayRaise)
    ensures (forall s | Returns(n, flags, s) :: s.main.returned == First(s.order)) <==> n == 1
  {
    if n == 1 {
      forall s | Returns(n, flags, s) ensures s.main.returned == First(s.order) {
        OneWorkerReturnsFirst(s);
      }
    } else {
      var report := if flags.mayRaise then Raised(7) else Returned(7);
      var s := SecondIsReturned(n, flags, report, report);
      assert Returns(n, flags, s) && s.main.returned != First(s.order);
    }
  }

  // What join() returns is always what is documented if and only if the handler never raises,
  // or it does nothing else and there is one worker.
  lemma DocumentedIff(n: nat, flags: Flags)
    requires n >= 1
    ensures (forall s | Returns(n, flags, s) :: Documented(s.order, s.main.returned))
            <==> !flags.mayRaise || (n == 1 && !flags.mayReturn)
  {
    if !flags.mayRaise {
      forall s | Returns(n, flags, s) ensures Documented(s.order, s.main.returned) {
        OnlyValues(s);
      }
    } else if flags.mayReturn {
      var s := ValueHidesException(n, flags);
      assert Returns(n, flags, s) && FirstRaised(s.order[1..]) == Some((1, Raised(8)));
    } else if n == 1 {
      forall s | Returns(n, flags, s) ensures Documented(s.order, s.main.returned) {
        OnlyExceptions(s);
      }
    } else {
      var s := SecondIsReturned(n, flags, Raised(7), Raised(8));
      assert Returns(n, flags, s) && FirstRaised(s.order) == Some((0, Raised(7)));
    }
  }
}
