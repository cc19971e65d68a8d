# Verified models of the repository's algorithms

The repository is mostly small examples, but some of its parts carry real algorithms and
protocols: a character device driver that keeps a sparse file, a blocking pipe and two
access-controlled devices; a dependency resolver; a thread pool; shared counters under several
kinds of protection; a growable in-kernel file; a printer of shell commands; the exception frame
code of the bare metal vectors; a tree of path properties; and a division of work over workers.
This project models each of them in Dafny and proves what it is there to guarantee.

`dafny verify dfyconfig.toml` checks everything.

## How to read it

Sequential code that updates an object is a class whose methods are proved against functions on
values; the laws are proved about those functions. Concurrent code is a state machine. A step is
one access to shared state by one thread: one load, one store, one lock or queue operation.
Private work in between, and bytes that nobody else looks at meanwhile, go with such a step.
`Step` gives the steps of a thread and `Next` those of any thread; `Leads` (in `Runs.dfy`) says
that some run goes from one state to another, and `Reachable` that one does from an initial state.
The number of threads is arbitrary and nothing is assumed about scheduling. Main results hold in
every reachable state.

| file | what it models |
|---|---|
| `PipeRing.dfy`, `PipeProtocol.dfy` | the scull pipe: the circular buffer, and blocking readers and writers whose tests run without the mutex and load the two pointers at different times, in any order |
| `SparseFile.dfy`, `QuantumStore.dfy` | the scull device: a map from positions to bytes, and the list of quantum sets in memory that refines it |
| `OpenProtocols.dfy` | opening scullsingle (one atomic counter) and scullwuid (owner, counter, wait queue) |
| `BuildSelection.dfy` | choosing and ordering the components to build |
| `ThreadPool.dfy`, `PortAssignment.dfy` | the thread pool, and the ports of the simulators run from it |
| `CounterLoop.dfy`, `SyncCounter.dfy`, `AtomicCounter.dfy` | threads that increment one counter: the loop, the kernel module around it, the user program around it |
| `MemFile.dfy` | the growable debugfs file |
| `ShellPrinter.dfy` | printing a command so that a shell reads it back |
| `ExceptionFrame.dfy` | saving and restoring a context around an aarch64 exception handler |
| `PathTree.dfy` | merging properties along a path, and building the tree |
| `PrimeWorkers.dfy` | primes found by trial division in several workers |
| `Runs.dfy`, `Common.dfy`, `DivMod.dfy` | runs of a state machine, shared vocabulary |

## What came out

Several things that the code's own comments or documentation suggest do not hold, or hold only
under a condition. In these places the code was followed, the condition is exact, and a lemma
gives an input or a run that fails.

- `get_handle_output_result` documents the first exception that a handler raised, or else the
  first value it returned (thread_pool.py:257-264). The test for None runs outside the lock, and
  a value stored early keeps a later exception out. `ThreadPool.DocumentedIff` says for which
  pools and handlers the documentation holds, `ThreadPool.FirstIsReturnedIff` when at least the
  first report is returned: with one worker only.
- A later `open` of the scull pipe resets the pointers without waking anybody.
  `PipeProtocol.OpenLosesNobodyIff` says exactly when that loses no reader or writer in any
  continuation. Three runs in which it does: a writer already asleep, and one in the middle of its
  test, with either pointer loaded. The other results about queues and bytes are about runs after
  the last open.
- `scull_s_open` can refuse everybody while nobody holds the device, because a refused open
  keeps its decrement for a moment: `SingleOpen.RefusedIff`.
- The selection loop of `build` keeps no record of what it has visited. On a dependency graph that
  a maintainer might write, it ends for a component exactly when it reaches no cycle:
  `BuildSelection.TerminatesIff`.
- memfile extends the file on a write of no bytes past its end, and looks at `O_APPEND` only when
  the file is opened; POSIX `write()` does neither. `MemFile.ConformsIff` says when the two agree.
- An open of memfile truncates without the semaphore that a write holds. `MemFile.CutTakesEffectIff`
  says for which writes a truncation in the middle makes bytes from before it reappear.
- The documentation of `cmd_to_string` (shell_helpers.py:132-136) says that newlines go exactly at
  each LF. `ShellPrinter.BreaksAtEachLFIff` says for which commands that is so: adjacent and
  leading LFs add none, and the end of the text breaks whether or not an LF stands there.
- Ports of pooled runs are disjoint up to 886 workers and not beyond: `PortAssignment.DisjointIff`.
- Without protection the shared counter ends between 2 (1 for one iteration each) and threads *
  iterations, and with every value between them: `CounterLoop.RaceResultsAre`.
- The workers that print the primes below `max` go on past it unless there is only one of them:
  `PrimeWorkers.LastEndIs` says how far, `PrimeWorkers.StopsAtMaxIff` when this shows.

## Model

| member | source | states |
|---|---|---|
| PipeRing.Conservation | kernel_modules/scull.c:1427-1433 | bytes queued plus `spacefree` is always one less than the buffer, and `spacefree` is 0 exactly when that many are queued |
| PipeRing.ReadTakesPrefix | kernel_modules/scull.c:1384-1395 | advancing `rp` by what a read may take removes exactly that prefix of the queue, wrapped or not |
| PipeRing.ReadIsMaximal | kernel_modules/scull.c:1385-1389 | a read stops short of the count only at the end of the buffer or where it has emptied the queue |
| PipeRing.WriteAppends | kernel_modules/scull.c:1449-1462 | copying what a write may accept and advancing `wp` appends exactly those bytes, and at least one if any was offered |
| PipeRing.WriteIsMaximal | kernel_modules/scull.c:1450-1455 | a write stops short only at the end of the buffer or where no space is left |
| PipeRing.FaultKeepsQueue | kernel_modules/scull.c:1456-1459 | bytes copied before a fault do not change the queue |
| PipeRing.ScullPipe.constructor | kernel_modules/scull.c:1321-1331 | the first open makes an empty queue of the configured size |
| PipeRing.ScullPipe.Reopen | kernel_modules/scull.c:1329-1331 | a later open takes the size configured by then, keeps the buffer and empties the queue; the pipe is usable exactly if that size fits the buffer |
| PipeRing.ScullPipe.Read | kernel_modules/scull.c:1384-1402 | a read returns the front of the queue and removes it, as much as was asked for unless it reaches the end of the buffer or of the queue; an empty queue and a fault leave it unchanged |
| PipeRing.ScullPipe.Write | kernel_modules/scull.c:1449-1473 | a write appends the accepted prefix, all of it unless it reaches the end of the buffer or of the space; a full queue and a fault leave the queue unchanged |
| PipeProtocol.EmptyTestIsSound | kernel_modules/scull.c:1378-1379 | if a reader's test, with its two loads in either order, finds the pointers equal, the pipe is empty now or a writer is about to wake the readers |
| PipeProtocol.FullTestIsSound | kernel_modules/scull.c:1416-1433 | if a writer's test shows no space, with comparison and subtraction each loading the pointers in either order or the subtraction using again what the comparison loaded, the pipe is full now or a reader is about to wake the writers |
| PipeProtocol.StepKeepsInv | kernel_modules/scull.c:1365-1473 | every step of every thread, with a pointer added to and wrapped in two stores, keeps the queue law, the lock discipline and what is known of each queued sleeper |
| PipeProtocol.NoLostWakeup | kernel_modules/scull.c:1373-1425 | in every reachable state, a sleeping writer and free space imply a reader that has not yet woken `outq`; and the same for sleeping readers, data and `inq`; whatever the order of the loads of a test, and also when it catches a pointer at the end of the buffer |
| PipeProtocol.NeverBothSidesAsleep | kernel_modules/scull.c:1373-1425 | with a buffer of two bytes or more, readers and writers never all sleep at once |
| PipeProtocol.Fifo | kernel_modules/scull.c:1365-1473 | over every run, bytes returned to readers followed by the ring contents are the bytes accepted from writers, in order |
| PipeProtocol.MutualExclusion | kernel_modules/scull.c:1312-1396 | at most one thread, reader, writer or opener, is between taking and dropping the mutex |
| PipeProtocol.ReaderWaitsIffEmpty | kernel_modules/scull.c:1370-1391 | a reader that holds the mutex and neither returns nor takes bytes waits, and waits if and only if the pipe is empty |
| PipeProtocol.TakesFront | kernel_modules/scull.c:1384-1395 | the bytes it takes come off the front of the queue, and there is one at least if any was asked for |
| PipeProtocol.WriterWaitsIffFull | kernel_modules/scull.c:1405-1425 | a writer that holds the mutex waits if and only if the pipe is full, and otherwise returns or puts bytes |
| PipeProtocol.PutsBack | kernel_modules/scull.c:1449-1464 | they are a prefix of what it was given and go to the back of the queue |
| PipeProtocol.CurrentReadTestIsExact | kernel_modules/scull.c:1378-1379 | a test whose loaded pointer is still current when the other is loaded sends the reader to sleep if and only if the pipe is empty |
| PipeProtocol.CurrentWriteTestIsExact | kernel_modules/scull.c:1416-1433 | and the writer if and only if there is no space |
| PipeProtocol.SignalEndsCall | kernel_modules/scull.c:1370-1425 | a signal can end a call that attempts the mutex or sleeps; it leaves the queue it is on, and bytes, mutex and everybody else as they are |
| PipeProtocol.ReaderCanGiveUp | kernel_modules/scull.c:1373-1392 | a reader that holds the mutex can return, because it does not block or its copy faults, with the mutex free and no byte moved |
| PipeProtocol.WriterCanGiveUp | kernel_modules/scull.c:1411-1459 | and so can a writer that has something to write |
| PipeProtocol.SleeperIsWoken | kernel_modules/scull.c:1378-1420 | a thread asleep on its queue takes no step until it is woken, a signal apart |
| PipeProtocol.WaiterIsQueued | kernel_modules/scull.c:1378-1418 | it is on the queue when the test begins that can send it to sleep |
| PipeProtocol.TakenOff | kernel_modules/scull.c:1378-1466 | a thread comes off its queue only by its own return or next attempt, or when one of the other side wakes all |
| PipeProtocol.EitherPointerFirst | kernel_modules/scull.c:1378-1433 | a test without the mutex may load either pointer first |
| PipeProtocol.SubtractionMayReuse | kernel_modules/scull.c:1430-1432 | and its subtraction may start with nothing or with either operand of the comparison |
| PipeProtocol.CanProceed | kernel_modules/scull.c:1312-1473 | only the mutex and sleep on a queue can stop a call, signals apart |
| PipeProtocol.SomeCallCanProceed | kernel_modules/scull.c:1312-1473 | while a call is neither finished nor asleep, some call has an enabled step that needs no signal, with any number of opens before |
| PipeProtocol.OpenLosesNobodyIff | kernel_modules/scull.c:1329-1331 | after an open that finds calls in progress, nobody sleeps unnoticed in any continuation if and only if a reader is about to wake the writers, or no queued writer sleeps or holds for the comparison or subtraction under way an `rp` other than the start of the buffer or a `wp` one before its end |
| PipeProtocol.StaleWriterIsLost | kernel_modules/scull.c:1416-1433 | and any such writer can be lost: a continuation puts it to sleep on a pipe with room and no wake-up due |
| PipeProtocol.OpenCanLoseASleeper | kernel_modules/scull.c:1312-1341 | a run after which an open leaves a writer asleep on an empty pipe |
| PipeProtocol.OpenCanMisleadATest | kernel_modules/scull.c:1416-1433 | runs in which nobody sleeps at the open, and a writer whose test had loaded `rp`, or `wp`, goes to sleep on the empty pipe |
| SparseFile.WriteKeepsValid | kernel_modules/scull.c:820-833 | a write that stops at the end of its quantum keeps every known byte inside the size and inside an allocated quantum |
| SparseFile.ContentIsLastWritten | kernel_modules/scull.c:649-838 | after any run of writes, faults and trims, the known bytes are the last ones written since the last trim, and the size is the furthest end |
| SparseFile.ReadAfterRun | kernel_modules/scull.c:750-776 | a read returns the last byte written at each written position, never crosses the size and stops at an unallocated quantum |
| SparseFile.WriteAllStores | kernel_modules/scull.c:820-833 | a loop of short writes stores the whole buffer, changes no other known byte and keeps the invariant |
| SparseFile.ReadCountIsReadable | kernel_modules/scull.c:750-769 | a read gives nothing exactly at a position past the end or in a hole, and otherwise only positions that are neither |
| SparseFile.ReadIsMaximal | kernel_modules/scull.c:752-769 | and there it gives all that is asked for, up to the size and the end of the quantum |
| SparseFile.WriteIsMaximal | kernel_modules/scull.c:820-822 | a write takes all that is offered, up to the end of the quantum |
| SparseFile.ReadAllReturns | kernel_modules/scull.c:750-776 | a loop of short reads over a range of known bytes, which stops at the first position past the end or in a hole, returns the range |
| SparseFile.RoundTrip | kernel_modules/scull.c:737-838 | writing a buffer with a loop and reading the range with a loop gives the buffer back |
| QuantumStore.SplitIsDivision | kernel_modules/scull.c:755-759 | the list item and slot of a position are quotient and remainder of its quantum number, and the offset stays in the quantum |
| QuantumStore.SplitInQuantum | kernel_modules/scull.c:767-769 | positions up to the end of the quantum share item and slot, at consecutive offsets |
| QuantumStore.SplitInjective | kernel_modules/scull.c:755-759 | two positions with the same item and slot differ by the difference of their offsets |
| QuantumStore.GrowNode | kernel_modules/scull.c:704-718 | hanging a fresh node at the end of the list keeps every address reachable from exactly one place |
| QuantumStore.GrowTable | kernel_modules/scull.c:809-814 | and so does giving a node its pointer array |
| QuantumStore.GrowQuantum | kernel_modules/scull.c:815-819 | and filling one slot with a fresh quantum |
| QuantumStore.AllocatedIff | kernel_modules/scull.c:764-765 | following the pointers finds a quantum exactly when the position's quantum is allocated in the sparse file |
| QuantumStore.KnownBytesAreHeld | kernel_modules/scull.c:767-771 | the bytes from a position to the end of its quantum are what that quantum holds |
| QuantumStore.CopyKeepsContent | kernel_modules/scull.c:824-833 | copying into one quantum changes the known bytes of that range and of no other quantum |
| QuantumStore.SizeInList | kernel_modules/scull.c:831-833 | the size never exceeds list length times quantum times qset |
| QuantumStore.NothingLeft | kernel_modules/scull.c:655-664 | when the loop of the trim has passed the last node no allocated address remains |
| QuantumStore.ScullDev.constructor | kernel_modules/scull.c:560-568 | a new device is an empty file with no memory, whatever the parameters |
| QuantumStore.ScullDev.Follow | kernel_modules/scull.c:699-723 | the n-th node is returned; the list grows only if it is shorter; it fails exactly if kmalloc does, with the device intact |
| QuantumStore.ScullDev.Read | kernel_modules/scull.c:737-781 | a read returns what the sparse file allows, at a position that can be read all that was asked for up to the size and the end of the quantum, and changes nothing: although it calls `scull_follow` it never allocates; an unusable device reads as empty |
| QuantumStore.ScullDev.Locate | kernel_modules/scull.c:799-819 | the quantum of a position is found, without a call of kmalloc, or allocated; it fails exactly if kmalloc does, and then the file is as before |
| QuantumStore.ScullDev.Write | kernel_modules/scull.c:785-838 | the device becomes the sparse file with the accepted prefix written, which ends with the buffer or with the quantum; no memory exactly if kmalloc failed, and never where the quantum is allocated, where the write allocates nothing; a fault exactly if the copy cannot fetch all of it; the run of events so far still gives the file |
| QuantumStore.ScullDev.FreeTable | kernel_modules/scull.c:656-661 | the quanta of a node and its array are freed, each once, and nothing else |
| QuantumStore.ScullParams.Ioctl | kernel_modules/scull.c:870-945 | which parameter a request changes and to what, each reply with its exact condition, and that it needs the capability exactly when it changes something other than by a reset; no device changes |
| QuantumStore.ScullDev.Trim | kernel_modules/scull.c:649-670 | every address is freed exactly once, no memory is left, and the device is an empty file with the current parameters, whatever they are |
| QuantumStore.WriteLoop | kernel_modules/scull.c:785-838 | a client that writes again what was not taken gets everything stored, or has seen kmalloc fail |
| QuantumStore.ReadLoop | kernel_modules/scull.c:737-781 | a client that reads again collects what the file allows and changes nothing |
| QuantumStore.StoreAndLoad | kernel_modules/scull.c:737-838 | on the device in memory, what the first loop stores the second gives back, unless kmalloc fails |
| SingleOpen.CounterAccountsForAll | kernel_modules/scull.c:280-300 | available = 1 - holders - failed opens not yet undone, over every interleaving |
| SingleOpen.AtMostOneHolder | kernel_modules/scull.c:280-300 | two holders are the same one |
| SingleOpen.RefusedIff | kernel_modules/scull.c:284-287 | an open is refused if and only if the device is held or another refused open has not put its decrement back |
| SingleOpen.FreeDeviceCanRefuse | kernel_modules/scull.c:284-287 | a run in which a caller is refused while nobody holds the device |
| OwnedOpen.StepKeepsInv | kernel_modules/scull.c:377-429 | every step keeps the lock discipline, the count, the right of each holder and what each queued waiter has learnt |
| OwnedOpen.CountIsHolders | kernel_modules/scull.c:385-429 | the counter is the number of open files, and each of them passes the access test against the present owner |
| OwnedOpen.OwnerChangesOnlyWhenFree | kernel_modules/scull.c:398-400 | the owner changes only when nobody has the device open, and then to the uid of an opener that has found it so |
| OwnedOpen.RefusedIff | kernel_modules/scull.c:377-400 | an opener is refused if and only if somebody has the device open, the owner is neither its uid nor its euid, and it has not the capability; it makes itself the owner if and only if nobody has it open |
| OwnedOpen.RefusedReturnsIff | kernel_modules/scull.c:391-392 | a refused opener returns at once if and only if it asked not to block, and otherwise starts to wait |
| OwnedOpen.NonblockingNeverWaits | kernel_modules/scull.c:390-394 | so one that does not block is never on the queue nor on its way to it |
| OwnedOpen.WaiterGoesOnRightly | kernel_modules/scull.c:393-394 | a waiter whose test succeeds could open the device at that moment, although the test loads the variables one by one |
| OwnedOpen.SignalEndsWait | kernel_modules/scull.c:393-394 | a signal can end the wait of a sleeper, which leaves the queue and nothing else |
| OwnedOpen.QueueChanges | kernel_modules/scull.c:393-427 | a waiter is on the queue when the test begins that can send it to sleep, stays asleep until it is taken off, a signal apart, and comes off it only by its own return or next attempt or when a release wakes all |
| OwnedOpen.ReleaseWakesIff | kernel_modules/scull.c:420-427 | a release wakes the queue if and only if nobody has the device open any more |
| OwnedOpen.NoLostWakeup | kernel_modules/scull.c:390-429 | a waiter asleep although it could open implies a release that is about to wake the queue, although its test loads counter and owner separately, and the owner once or twice |
| OwnedOpen.SleepersWaitForHolders | kernel_modules/scull.c:390-429 | a sleeping opener implies another holder or a pending wake-up |
| OwnedOpen.CanStep | kernel_modules/scull.c:385-429 | only the spinlock and sleep on the queue can stop an opener |
| OwnedOpen.SleeperIsNotAlone | kernel_modules/scull.c:385-429 | while an opener sleeps on the queue another thread that does not sleep has an enabled step |
| BuildSelection.PopWeighs | build:487-491 | one round of the loop takes one from the weight of the work left, where a component weighs 1 plus its dependencies |
| BuildSelection.CycleNeverEnds | build:487-491 | from a component on the way to a cycle no number of rounds empties the list |
| BuildSelection.TerminatesIff | build:485-491 | the loop for a requested component ends if and only if it reaches no cycle |
| BuildSelection.TwoInACircle | build:485-491 | two components that need each other, for which no number of rounds is enough |
| BuildSelection.LevelIsDistance | build:487-491 | the components at a distance are the ends of the dependency walks of that length |
| BuildSelection.ExpandOne | build:486-491 | the loop for one request ends, puts the components reached in front, the nearest last, and keeps the cover and the order of what earlier ones selected |
| BuildSelection.Expand | build:484-491 | on acyclic requests the loop ends with the distances of every request, from the last request to the first; every dependency stands before its dependents and everything requested is covered |
| BuildSelection.KeepFirstOrders | build:492-494 | keeping first occurrences loses no component and gives each once, with every dependency before every dependent |
| BuildSelection.KeepFirstKeepsOrder | build:492-494 | the components kept stand in the order of their first occurrences |
| BuildSelection.Select | build:480-494 | the selection is exactly the transitive closure of the request, or of `qemu-buildroot` if nothing is requested, each component once, in dependency order and in the order of first occurrence in the expansion |
| BuildSelection.Build | build:673-680 | components are built in order up to the first failure, whose status is returned |
| BuildSelection.NeedsStandBefore | build:484-494 | direct and indirect dependencies all stand before a component |
| BuildSelection.NeedsAreBuilt | build:673-680 | when a component's build is called, everything it needs has been built, with status 0 |
| ThreadPool.JoinIsComplete | thread_pool.py:274-284 | when `join` returns each job put has been run once and handled once, each worker has taken one sentinel, and the queue is empty |
| ThreadPool.JoinReturnsAReport | thread_pool.py:231-243 | `join` returns None if and only if no handler reported anything, and otherwise a report with the job it was made for |
| ThreadPool.QueueIsBounded | thread_pool.py:184-184 | the queue never exceeds the number of threads |
| ThreadPool.OneWorkerPerJob | thread_pool.py:209-215 | a job in progress is in the hands of one worker |
| ThreadPool.NeverStuck | thread_pool.py:209-304 | when the submitter is blocked some worker has an enabled step |
| ThreadPool.CanJoin | thread_pool.py:209-304 | from every reachable state some continuation ends with a `join` that returns, so that nothing waits for good |
| ThreadPool.PutsNoMoreIff | thread_pool.py:294-304 | in a reachable state with a stored result, `submit` puts no further job in any continuation if and only if one of the two exit options is set |
| ThreadPool.PutsWithoutResult | thread_pool.py:294-304 | without a result some continuation puts the next job, however full the queue is |
| ThreadPool.ExitsAre | thread_pool.py:294-304 | with an exit option and a result the ways on are exactly to stop and join, and, unless an exception is raised, a `submit` without effect |
| ThreadPool.ResultNeverReverts | thread_pool.py:236-242 | a stored result never becomes None again |
| ThreadPool.ResultIsFinal | thread_pool.py:236-242 | a result stays for good once no worker is between the test and the store |
| ThreadPool.FinalIffNobodyStores | thread_pool.py:236-242 | a stored result stays in every continuation if and only if no worker has passed the test and not stored |
| ThreadPool.OneWorkerReturnsFirst | thread_pool.py:236-242 | with one worker `join` returns the first report, or None if there is none |
| ThreadPool.FirstIsReturnedIff | thread_pool.py:236-243 | for every number of threads and every handler that can report: `join` always returns the first report if and only if there is one thread |
| ThreadPool.SecondIsReturned | thread_pool.py:236-242 | for two threads or more and any two possible reports, a run in which the second one is returned |
| ThreadPool.DocumentedIff | thread_pool.py:257-270 | `join` always returns what is documented (the first exception, else a value if there is one, else None) if and only if the handler never raises, or only raises and there is one thread |
| ThreadPool.ValueHidesException | thread_pool.py:231-236 | a run in which a returned value keeps an exception raised later from being returned |
| PortAssignment.DisjointIff | common.py:1012-1024 | the port sets of workers are pairwise disjoint, in any mix of simulators, if and only if there are at most 886 workers |
| PortAssignment.QemuRunsCollideIff | common.py:1006-1020 | two runs of QEMU share a port if and only if they have the same offset, the explicit one or else the run id |
| PortAssignment.NamedIdsCollide | common.py:2210-2218 | tests whose own arguments name the same run id share a port, whatever their threads |
| PortAssignment.PooledTestsShareNoPort | common.py:2210-2218 | tests running in the pool at the same time share no port |
| CounterLoop.StepKeepsInv | kernel_modules/sync.c:82-112 | under a lock, an atomic instruction or the exclusive pair, every step keeps the counter equal to the increments completed, modulo 2^64 |
| CounterLoop.ExactCount | kernel_modules/sync.c:82-112 | when all threads are done that is threads times iterations |
| CounterLoop.CanStep | kernel_modules/sync.c:89-111 | an unfinished thread can step, or the holder of the lock it waits for can |
| CounterLoop.SomeThreadAdvances | kernel_modules/sync.c:89-111 | in every mode and from every state, some unfinished thread completes an increment or finishes in at most five steps of its own, so that retries of the exclusive pair can end |
| CounterLoop.SomeStepIsCloser | kernel_modules/sync.c:89-111 | while a thread is not finished some thread has a step that leaves less to do in all, so that all can finish |
| CounterLoop.StepKeepsRace | kernel_modules/sync.c:96-110 | with separate load and store, every step keeps the bounds on counter and registers |
| CounterLoop.RaceBounds | kernel_modules/sync.c:96-110 | unsynchronised threads end with a counter between 2 and threads times iterations; 1 for one iteration each, and a single thread loses nothing |
| CounterLoop.EveryResultIsReached | kernel_modules/sync.c:96-110 | for all thread and iteration counts and every value between the bounds some run ends with it |
| CounterLoop.RaceResultsAre | kernel_modules/sync.c:96-110 | so a value is the result of some run if and only if it lies between the bounds |
| SyncCounter.WaitCoversAllWorkers | kernel_modules/sync.c:114-127 | main passes `all_done` only after the last increment of every worker |
| SyncCounter.ReleasedTogether | kernel_modules/sync.c:157-178 | there are as many workers as asked for, or one, and none of them increments the counter before all have been started |
| SyncCounter.CountIsExact | kernel_modules/sync.c:183-187 | in the protected modes the two numbers compared are equal, for every thread and iteration count and interleaving |
| SyncCounter.RaceStaysInBounds | kernel_modules/sync.c:185-191 | in mode none the number printed is between the least result of the race and the expected one |
| SyncCounter.NeverStuck | kernel_modules/sync.c:157-187 | no reachable state before the comparison is without an enabled step that leaves less to do |
| SyncCounter.CanFinish | kernel_modules/sync.c:157-187 | in every mode every run can be continued to the comparison: the completion is not lost |
| AtomicCounter.AssertionHolds | userland/cpp/atomic/main.hpp:109-122 | the final assertion holds for the mutex, the atomic instructions and the LDAXR/STLXR loop, whose store may also fail spuriously |
| AtomicCounter.NoThreadBeginsEarly | userland/cpp/atomic/main.hpp:109-113 | there are as many threads as asked for, and one not yet created has done nothing |
| AtomicCounter.NeverStuck | userland/cpp/atomic/main.hpp:109-113 | until the assertion some step is possible that leaves less to do |
| AtomicCounter.CanFinish | userland/cpp/atomic/main.hpp:109-122 | every run can be continued to the assertion |
| MemFile.WriteAt | kernel_modules/memfile.c:69-72 | a write past the end leaves zeros in the gap, and every other byte outside the range is as it was |
| MemFile.ReadBack | kernel_modules/memfile.c:104-149 | reading what was just written gives it back |
| MemFile.ConformsIff | kernel_modules/memfile.c:91-149 | the module's write does to file and position what POSIX does if and only if, for no bytes, the offset is inside the file, and otherwise the handle does not append or stands at the end |
| MemFile.EmptyWriteCanExtend | kernel_modules/memfile.c:50-72 | an input on which they differ: no bytes past the end |
| MemFile.StaleAppendOverwrites | kernel_modules/memfile.c:97-99 | another: an appending handle whose position is not the end of the file |
| MemFile.ContentIsLastWritten | kernel_modules/memfile.c:91-149 | after any run the file is as long as the furthest write since the last truncation and holds the last byte written at each position, or zero |
| MemFile.TruncationForgets | kernel_modules/memfile.c:94-96 | what was written before a truncation has no influence on the file |
| MemFile.CutTakesEffectIff | kernel_modules/memfile.c:69-72 | a truncation in the middle of a reservation and the write take effect one after the other, in some order, if and only if no byte other than zero from before the truncation stands before the offset, or the write stays inside the file and the truncation comes after the comparison |
| MemFile.OldByteReappears | kernel_modules/memfile.c:69-72 | an input on which a byte from before the truncation reappears |
| MemFile.PeakIsLargest | kernel_modules/memfile.c:50-51 | the peak is the largest number of bytes any reservation needed |
| MemFile.ReallocationMoreThanDoubles | kernel_modules/memfile.c:51-68 | every reallocation more than doubles the capacity |
| MemFile.GrowthIsAmortised | kernel_modules/memfile.c:50-68 | over any run the capacity is within twice the peak, all bytes carried over by reallocations are fewer than the final capacity, and there are logarithmically many reallocations |
| MemFile.BufferGrowth | kernel_modules/memfile.c:194-194 | the same for the module's buffer of one byte |
| MemFile.Data.constructor | kernel_modules/memfile.c:31-39 | a new buffer is an empty file |
| MemFile.Data.Reserve | kernel_modules/memfile.c:46-75 | the old bytes stay, the gap is zeroed, `used` covers the insertion, whenever a truncation comes in between, and copying is counted |
| MemFile.Data.Insert | kernel_modules/memfile.c:127-149 | the file becomes the written one, cut off by a truncation in between |
| MemFile.Data.Open | kernel_modules/memfile.c:91-102 | truncation empties the file; append without truncation starts at its end; the handle keeps the append flag |
| MemFile.Data.Read | kernel_modules/memfile.c:104-125 | a read returns the file's bytes from the position on and advances it, a fault does neither |
| MemFile.Data.Write | kernel_modules/memfile.c:127-149 | the file becomes the written one and the position moves past the data |
| MemFile.AppendAfterAnotherWriter | kernel_modules/memfile.c:91-149 | a run of the module that gets there: what another handle wrote since the open is overwritten |
| MemFile.Data.Llseek | kernel_modules/memfile.c:157-179 | the new position for each base, with sums in a signed 64-bit word, or an error with the position unchanged |
| MemFile.SeekSucceedsIff | kernel_modules/memfile.c:163-176 | a seek succeeds if and only if the target lies in the range of positions, and then goes there |
| ShellPrinter.QuoteReadsBack | shell_helpers.py:158-159 | a quoted word is read as that one word, whatever its characters |
| ShellPrinter.UnquotedIff | shell_helpers.py:158-159 | a word is printed as it is if and only if it is not empty and all its characters are safe |
| ShellPrinter.BodyReadsBack | shell_helpers.py:160-180 | the words, separators and continuation lines of a command are read as its words in order |
| ShellPrinter.PrintedCommandReadsBack | shell_helpers.py:138-180 | tokenising the printed command by sections 2.2 and 2.3 of the POSIX.1-2017 Shell Command Language and dropping a final semicolon gives `strip_newlines(cmd)`, for every command, LF placement and setting |
| ShellPrinter.TextDeterminesWords | shell_helpers.py:138-180 | commands with the same text have the same words |
| ShellPrinter.StripWithNewlines | shell_helpers.py:66-70 | `strip_newlines` undoes what `add_newlines` adds |
| ShellPrinter.LoneFinalLF | shell_helpers.py:176-177 | a single LF at the end prints the command on one line |
| ShellPrinter.BreaksAtEachLFIff | shell_helpers.py:132-136 | with LFs given, and the text neither on one line nor ended by the only LF, the scanner meets line breaks exactly at the LFs if and only if no LF comes first, no two are adjacent and one comes last |
| ShellPrinter.BreaksAfterEachWordIff | shell_helpers.py:134-134 | with no LF it meets one after every word and nowhere else, for every command that is not empty |
| ShellPrinter.OneLineNeverBreaks | shell_helpers.py:135-135 | on one line, or with a single LF at the end, it meets none |
| ShellPrinter.FinalSemicolonIff | shell_helpers.py:173-180 | the tokens end in a semicolon if and only if the scanner meets a line break |
| ShellPrinter.TwoWords | shell_helpers.py:160-180 | the text of two words, letter by letter, in each layout |
| ShellPrinter.AdjacentLFsBreakOnce | shell_helpers.py:161-180 | a command whose text does not break exactly at its LFs |
| ShellPrinter.AddNewlines | shell_helpers.py:66-70 | an LF follows every element |
| ShellPrinter.QuoteWords | shell_helpers.py:151-159 | every word is quoted in place; LFs are kept and counted unless one line is forced |
| ShellPrinter.PlainLines | shell_helpers.py:160-172 | with no LF given every word gets its own line |
| ShellPrinter.GroupLines | shell_helpers.py:160-168 | grouping between LFs and joining gives the layout with a continuation line at each LF between words |
| ShellPrinter.CmdToString | shell_helpers.py:118-180 | the printer's loops and joins produce the specified text: on one line whenever that is asked for, whatever the default, and by the default exactly if nothing is asked for |
| ExceptionFrame.FrameBuilt | lkmc/aarch64.h:122-145 | the saved words sit at the offsets of the struct in a frame of 288 bytes and nothing else is written |
| ExceptionFrame.HandlerSeesFrame | lkmc/aarch64.h:147-158 | the handler gets the frame's address, and the frame holds type, syndrome, the interrupted stack pointer, ELR, SPSR and x0 to x30 |
| ExceptionFrame.HandlerSeesWords | lkmc/aarch64.h:122-158 | the same at literal offsets: type, syndrome, SP_EL0 or for a nested exception the interrupted SP, return address, state and x0 to x30; of the registers the handler also finds all but x0, x21, x22 and x30 unchanged |
| ExceptionFrame.FrameRestores | lkmc/aarch64.h:160-185 | an intact frame gives back x0 to x30, SP, ELR, SPSR and the return address; SP_EL0 is given back by the vectors that are not nested and left alone by the nested ones |
| ExceptionFrame.ExceptionIsTransparent | lkmc/aarch64.h:191-206 | for every context and every handler, with exceptions nested to any depth, the interrupted code finds everything as it left it; SP_EL0 too, or for a nested exception as the handler left it |
| ExceptionFrame.SpEl0Survives | lkmc/aarch64.h:200-206 | and so the stack pointer of user code survives nesting to any depth if no handler overwrites it |
| ExceptionFrame.EveryDepthOccurs | lkmc/aarch64.h:200-206 | for every context and depth there is an exception nested that deep whose handlers meet the condition |
| ExceptionFrame.BodyKeepsFrames | lkmc/aarch64.h:191-206 | whatever runs in a handler, the frames already on the stack stay as they were built |
| ExceptionFrame.Core.BuildTrapframe | lkmc/aarch64.h:122-145 | the pushes, which clobber x21 and x22 half way, build exactly the frame |
| ExceptionFrame.Core.StoreTrapedSp | lkmc/aarch64.h:147-149 | SP_EL0 goes into the stack pointer field |
| ExceptionFrame.Core.StoreNestedSp | lkmc/aarch64.h:155-158 | the stack pointer before the frame goes into the field |
| ExceptionFrame.Core.RestoreTrapedSp | lkmc/aarch64.h:160-162 | SP_EL0 is taken back from the field |
| ExceptionFrame.Core.RestoreTrapframe | lkmc/aarch64.h:164-185 | the pops reload every register from its field and return from the exception |
| ExceptionFrame.Core.EnterHandler | lkmc/aarch64.h:191-204 | taking the exception, building the frame, storing the stack pointer and the call give the state in which the handler starts |
| ExceptionFrame.Core.VectorFunction | lkmc/aarch64.h:191-206 | the whole of either vector function, around any handler, is the step the results speak of |
| ExceptionFrame.Core.Interrupt | lkmc/aarch64.h:191-206 | so on the core an exception leaves the interrupted code as it was, at any depth, with SP_EL0 as for `ExceptionFrame.ExceptionIsTransparent` and, where no handler overwrites it, unchanged |
| PathTree.MergeAssociative | path_properties.py:306-325 | merging is associative, with lists appended and run arguments merged |
| PathTree.MergeUnit | path_properties.py:306-325 | no properties are a unit of merging |
| PathTree.UpdatesMerge | path_properties.py:319-325 | the four special updates followed by the plain one are the merge |
| PathTree.MergeAllConcat | path_properties.py:364-367 | merging along a chain may be split anywhere |
| PathTree.ChainIsWalk | path_properties.py:364-369 | the nodes met are those of the walk that takes the child of each name in turn as far as there is one, however that walk is found |
| PathTree.FlagsAccumulate | path_properties.py:313-317 | a list property of a path is the concatenation of what its ancestors and itself say |
| PathTree.LowestWins | path_properties.py:325-325 | a property that is neither list nor dictionary is what the lowest path that has it says |
| PathTree.LowestEntryWins | path_properties.py:306-311 | and an entry of the run arguments is what the lowest path that has the entry says |
| PathTree.AncestorFlagsArePrefix | path_properties.py:313-317 | the flags of a directory are a prefix of the flags of everything below it |
| PathTree.PathProperties.Update | path_properties.py:319-325 | the object becomes the merge and the other object is not changed |
| PathTree.MakeFromTuples | path_properties.py:336-355 | the worklist ends, makes one node per tuple with none shared between two places, and gives a tree for the whole nested tuple, or fails exactly when some key is unknown |
| PathTree.AllKnownIff | path_properties.py:336-355 | the keys are all known if and only if those of the last node of every walk are |
| PathTree.Get | path_properties.py:357-371 | the result is the merge of the own properties along the walk from the root by the names of the path, as far as there is a child of the next name, in a new object; no node changes |
| PrimeWorkers.SmallDivisor | rootfs_overlay/lkmc/nodejs/worker_threads_test.js:10-17 | a composite number below the end of the range has a divisor whose square is below it |
| PrimeWorkers.TestDivisors | rootfs_overlay/lkmc/nodejs/worker_threads_test.js:12-17 | the bounded test recognises exactly the primes |
| PrimeWorkers.GeneratePrimes | rootfs_overlay/lkmc/nodejs/worker_threads_test.js:7-24 | a worker finds exactly the primes of its range |
| PrimeWorkers.SplitRanges | rootfs_overlay/lkmc/nodejs/worker_threads_test.js:28-36 | the ranges start at 2, follow one another without gap or overlap, have the stated lengths and reach at least `max` |
| PrimeWorkers.LastEndIs | rootfs_overlay/lkmc/nodejs/worker_threads_test.js:30-36 | the ranges end at `max` for one worker; for more they end just past it if they divide evenly or but for one number, and else at one more than the number of workers past it |
| PrimeWorkers.TenWorkersGoOn | rootfs_overlay/lkmc/nodejs/worker_threads_test.js:27-36 | with the program's own numbers they end at 111 |
| PrimeWorkers.LengthIsLeast | rootfs_overlay/lkmc/nodejs/worker_threads_test.js:29-29 | the length of a range is the least with which all of them would cover what there is to do |
| PrimeWorkers.OutputIsAllPrimes | rootfs_overlay/lkmc/nodejs/worker_threads_test.js:37-48 | however the messages arrive, the sorted output is the primes below the end of the last range |
| PrimeWorkers.StopsAtMaxIff | rootfs_overlay/lkmc/nodejs/worker_threads_test.js:27-48 | the output is the primes below `max` if and only if no prime stands between `max` and the end of the last range |

## Left out

- PipeProtocol.NoLostWakeup: is about runs after the last open, with `scull_p_buffer` unchanged while the buffer exists; what a later open does is `PipeProtocol.OpenLosesNobodyIff`. A load takes a whole pointer, and the operands of a subtraction that are not those of the comparison are loaded after it.
- PipeProtocol.Fifo: the same; and the copy and the addition to the pointer inside the mutex are one step, since nobody else looks at the bytes there.
- PipeProtocol.OpenLosesNobodyIff: is about continuations without a further open, and buffers of two bytes or more, as one byte can hold nothing; the loads are as for `PipeProtocol.NoLostWakeup`.
- PipeProtocol.ReaderWaitsIffEmpty: `O_NONBLOCK` and faults of a copy are choices open at each test or copy, not a flag and an address of the call.
- scull_p_release: the last close frees the buffer, and the next open is a first one.
- QuantumStore.ScullDev.Read: `quantum` and `qset` are read before the mutex is taken; each call is modelled as atomic.
- QuantumStore.ScullDev.Write: needs positive parameters, where the code divides by zero or uses negative offsets; positions, items and sizes are unbounded, so the truncation of the item number to 32 bits and an overflow of quantum times qset are not modelled. What a faulting copy leaves in its range is not known.
- QuantumStore: nodes, pointer arrays and quanta live in an explicit map from addresses to cells, kept by the device, instead of Dafny's own heap; double frees, leaks and sharing are visible in it.
- QuantumStore.ScullParams.Ioctl: the checks on the command number and the two requests for the pipe's buffer size; what a parameter holds after a fault while it is being read is not known.
- scull_u_open, scull_u_release: the owner protocol without the wait queue, as for openers that do not block.
- SingleOpen.CounterAccountsForAll: the 32-bit wrap of the counter, beyond 2^31 openers.
- OwnedOpen.CountIsHolders: the 32-bit wrap of the counter.
- OwnedOpen.NoLostWakeup: a test loads the counter before the owner, in the order in which its conditions are written.
- The other scull devices, cdev and proc plumbing, poll, fasync, debugging output: no state that the properties depend on.
- Fairness and progress under every schedule: what is proved is that some step is enabled, that a thread left to itself gets on with the counter, and for the thread pool, the kernel module and the user program that every run can be continued to its end.
- BuildSelection.Expand: a requested name or dependency without a component, for which the code raises an error.
- BuildSelection.Build: what a component's build does and its supported architectures are the status parameter.
- ThreadPool.JoinIsComplete: at least one worker, one submitting thread, and callbacks that return.
- PortAssignment.PooledTestsShareNoPort: run ids from the pool and no explicit port offset.
- SyncCounter.WaitCoversAllWorkers: the path on which a worker cannot be started, and module unload, are not modelled.
- SyncCounter.CountIsExact: at most 2^32 - 1 threads, as the parameter's type allows.
- AtomicCounter.AssertionHolds: memory ordering between locations; there is one shared location. The variants that are expected to fail are covered by the unsynchronised mode of the loop.
- MemFile.Data.Write: the copy from the user succeeds, allocation succeeds and offsets stay below 2^63; a failed reallocation loses the only pointer to the buffer, and a fault after `used` has grown leaves old bytes in the file.
- MemFile.TruncationForgets: each call is one step; what a truncation in the middle of a write does is `MemFile.CutTakesEffectIff`.
- MemFile.Data.Open: each call is one step, although the code takes no semaphore here.
- MemFile.CutTakesEffectIff: one load of `used` serves the comparison with the offset and the clearing of the gap.
- ShellPrinter.PrintedCommandReadsBack: no directory, environment, extra paths or standard input file; `shlex.quote` is modelled as the Python library documents it. Extra paths are quoted twice and do not expand as shell text.
- ShellPrinter.QuoteReadsBack: the scanner refuses expansions and operators other than the semicolon and the newline, which quoted text never contains.
- ExceptionFrame.ExceptionIsTransparent: the handler must keep the stack pointer and not write to a frame, which is what makes the statement one about the macros; alignment faults and the alignment of SP are not modelled.
- PathTree.MakeFromTuples: children are a list in insertion order, and tuples are values, so a table shared between two places of the nested tuple cannot be expressed; the code would convert it twice.
- PathTree.PathProperties.Update: dictionaries and lists are values, so that no two objects share one; the copies by which the code keeps them apart cannot be seen to be needed, and that other objects and nodes do not change holds partly by construction.
- PathTree.Get: splitting the path into components, and the tests on the merged properties.
- PrimeWorkers.SplitRanges: the worker count is a positive integer; `Math.sqrt` is taken as exact.
- Building, downloading, running commands and file copies: I/O.
- The command line layer, the rest of `common.py`, `lkmc/gic.h`, the modeset code and the many small examples: no hard property.
