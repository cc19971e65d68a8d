// The ports of a simulator run, computed from its run id, and the run id of a pooled test.
module PortAssignment {
  import opened Common
  import ThreadPool

  datatype Emulator = Gem5 | Qemu

  // An explicit offset wins; otherwise the run id, if it is a number, and 0 if it is not.
  function PortOffset(explicit: Option<nat>, runId: Option<nat>): nat {
    if explicit.Some? then explicit.value
    else if runId.Some? then runId.value
    else 0
  }

  // The arguments of a pooled test: its thread id, unless the test's own arguments name a run id.
  function RunId(threadId: nat, baseArgs: Option<nat>, runArgs: Option<nat>): nat {
    if runArgs.Some? then runArgs.value
    else if baseArgs.Some? then baseArgs.value
    else threadId
  }

  // gem5 has four serial terminals from `gem5_telnet_port` on, and a gdb port; QEMU has five
  // consecutive ports, its gdb port among them.
  predicate Uses(e: Emulator, offset: nat, port: nat) {
    match e
    case Gem5 => 3456 + offset * 4 <= port < 3456 + offset * 4 + 4 || port == 7000 + offset
    case Qemu => 45454 + 10 * offset <= port <= 45454 + 10 * offset + 4
  }

  // Runs that are in progress together are those of `threads` workers with the offsets of their ids.
  ghost predicate Disjoint(threads: nat) {
    forall i, j, a, b, port: nat | 0 <= i < threads && 0 <= j < threads && i != j ::
      !(Uses(a, i, port) && Uses(b, j, port))
  }

  // No two of `threads` workers share a port, whatever simulators they run, if and only if there
  // are at most 886 of them: worker 886's first terminal is worker 0's gdb port.
  lemma DisjointIff(threads: nat)
    ensures Disjoint(threads) <==> threads <= 886
  {
    if threads > 886 {
      assert Uses(Gem5, 0, 7000) && Uses(Gem5, 886, 7000);
    }
  }

  // Runs of QEMU share a port exactly if they have the same offset, which is the one given or else
  // the run id.
  lemma QemuRunsCollideIff(a: Option<nat>, idA: Option<nat>, b: Option<nat>, idB: Option<nat>)
    ensures (exists port: nat :: Uses(Qemu, PortOffset(a, idA), port) && Uses(Qemu, PortOffset(b, idB), port))
            <==> (if a.Some? then a.value else if idA.Some? then idA.value else 0)
                 == (if b.Some? then b.value else if idB.Some? then idB.value else 0)
  {
    if PortOffset(a, idA) == PortOffset(b, idB) {
      assert Uses(Qemu, PortOffset(a, idA), 45454 + 10 * PortOffset(a, idA));
    }
  }

  // A run id among a test's own arguments goes before those for all tests and before the thread's.
  lemma NamedIdsCollide(i: nat, k: nat, baseI: Option<nat>, baseK: Option<nat>, id: nat) returns (port: nat)
    ensures Uses(Qemu, PortOffset(None, Some(RunId(i, baseI, Some(id)))), port)
    ensures Uses(Qemu, PortOffset(None, Some(RunId(k, baseK, Some(id)))), port)
    ensures Uses(Qemu, PortOffset(None, Some(RunId(i, Some(id), None))), port)
  {
    port := 45454 + 10 * id;
  }

  // Two tests that run in the pool at the same time share no port, with at most 886 workers, run
  // ids left to the pool and no explicit offset.
  lemma PooledTestsShareNoPort(s: ThreadPool.State, i: nat, k: nat, a: Emulator, b: Emulator, port: nat)
    requires ThreadPool.Reachable(s) && s.n <= 886 && i < |s.workers| && k < |s.workers|
    requires s.workers[i].Busy() && s.workers[k].Busy() && s.workers[i].job != s.workers[k].job
    ensures !(Uses(a, PortOffset(None, Some(RunId(i, None, None))), port)
              && Uses(b, PortOffset(None, Some(RunId(k, None, None))), port))
  {
    ThreadPool.ReachableInv(s);
    DisjointIff(s.n);
  }
}
