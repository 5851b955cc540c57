/** Whole runs: turns in the order of the queue, and two runs from boot on which the process lifecycle
    goes wrong, by a key that queues a process twice and by a child whose pid waitpid does not look at. */
module KernelRuns {
  import opened ProcTable
  import opened ProcWait
  import opened ReadyQueue
  import opened Kernel

  // ------------------------------------------------------------ round robin

  /** Time slices alone: the process at place n of the queue runs after n + 1 of them, so every queued
      process gets its turn, in the order of the queue. */
  method Slices(k: Kernel, n: nat)
    requires k.Valid() && k.current != NONE && n < |k.q|
    modifies k, k.pool, k.rq, k.rq.next, k.rq.prev
    ensures k.Valid() && k.current == old(k.q)[n] && k.pool[k.current].state == Running
    ensures old(k.q)[n + 1..] <= k.q
  {
    hide Kernel.Core, Kernel.QueueOk, NoLostWake;
    ghost var q0 := k.q;
    k.InRange();
    for i := 0 to n + 1
      invariant k.Valid() && 0 <= k.current < MAX_PROCESSES && k.pool.Length == MAX_PROCESSES && q0[i..] <= k.q
      invariant i > 0 ==> k.current == q0[i - 1] && k.pool[k.current].state == Running
    {
      assert k.q[0] == q0[i..][0] == q0[i];
      assert q0[i + 1..] == q0[i..][1..];
      k.Tick();
    }
  }

  // ------------------------------------------------------------ a process queued twice

  /** The idle process and one user process without a parent. */
  predicate Pair(pool: seq<Pcb>, s: State)
  {
    && |pool| == MAX_PROCESSES && pool[0].pid == IDLE_PID && Live(pool[0])
    && pool[1].pid == 2 && pool[1].state == s && pool[1].parent == 0 && !pool[1].waits && !pool[1].kernel
    && forall k :: 2 <= k < MAX_PROCESSES ==> !Live(pool[k])
  }

  /** Boot, create a user process and run it. */
  method StartOne(k: Kernel)
    requires k.Sized()
    modifies k, k.pool, k.owner, k.rq, k.rq.next, k.rq.prev
    ensures k.Valid() && Pair(k.pool[..], Running) && k.current == 1 && k.q == [] && k.shell == NONE
    ensures k.nextPid == 3 && NoLostWake(k.pool[..])
  {
    hide Kernel.Core, Kernel.QueueOk, NoLostWake;
    k.Boot();
    ghost var p0 := k.pool[..];
    assert p0[0].pid == IDLE_PID && Live(p0[0]) && forall k :: 0 < k < MAX_PROCESSES ==> !Live(p0[k]);
    var i := k.Create(false, true);
    k.Tick();
  }

  lemma {:induction false} OnlyWaker(pool: seq<Pcb>, shell: int, i: nat, n: nat)
    requires i < |pool| && n <= |pool| && Wakes(pool[i], i == shell)
    requires forall k :: 0 <= k < |pool| && k != i ==> !Wakes(pool[k], k == shell)
    ensures Wakers(pool, shell, n) == if i < n then [i] else []
  {
    if n > 0 { OnlyWaker(pool, shell, i, n - 1); }
  }

  lemma AddedTwice(l: Queue)
    requires Ranged(l) && SpellsOut(l, [])
    ensures AddedAll(AddedAll(l, [1]), [1]) == Queue(l.next[1 := 1], l.prev[1 := 1], 1, 1)
    ensures Removed(Queue(l.next[1 := 1], l.prev[1 := 1], 1, 1), 1).head == 1
  {
    var l1 := AddedAll(l, [1]);
    assert [1][..0] == [] && AddedAll(l, []) == l && l1 == Added(l, 1);
    assert AddedAll(l1, []) == l1;
  }

  lemma OneWakes(pool: seq<Pcb>, q: seq<int>)
    requires Pair(pool, Blocked) && pool[0].state != Blocked
    ensures Wakers(pool, NONE, MAX_PROCESSES) == [1] && Pair(AllWoken(pool, NONE, MAX_PROCESSES), Ready)
    ensures WakesOneQueued(pool, NONE, q) <==> 1 in q
  {
    hide Wakers;
    assert Wakes(pool[1], false);
    OnlyWaker(pool, NONE, 1, MAX_PROCESSES);
  }

  /** The running process reads without input, and a key wakes it before any time slice. */
  method ReadAndKey(k: Kernel)
    requires k.Valid() && k.current == 1 && k.shell == NONE
    requires Pair(k.pool[..], Running) || Pair(k.pool[..], Ready)
    modifies k`q, k.pool, k.rq, k.rq.next, k.rq.prev
    ensures k.Core() && Pair(k.pool[..], Ready) && k.rq.Links() == AddedAll(old(k.rq.Links()), [1])
    ensures k.q == old(k.q) + [1] && (k.Valid() <==> 1 !in old(k.q))
  {
    hide Kernel.Core, Kernel.QueueOk, NoLostWake, AddedAll, Wakers, AllWoken, WakesOneQueued;
    k.InRange();
    ghost var q0 := k.q;
    k.BlockOnInput();
    k.CoreFacts();
    OneWakes(k.pool[..], q0);
    k.WakeAllBlocked();
  }

  /** A process reads, a key comes before any time slice, and the same again: the second key queues it
      a second time. When it exits, its freed entry is what the queue gives: process 0, without a
      stack, runs. */
  method FailingRun(k: Kernel)
    requires k.Sized()
    modifies k, k.pool, k.owner, k.rq, k.rq.next, k.rq.prev
    ensures k.current == 1 && k.pool[1].state == Running && k.pool[1].pid == 0
    ensures k.rsp0 == 0 && k.syscallTop == 0 && !k.Core()
  {
    hide NoLostWake, SpellsOut, Ranged, AddedAll, Removed, Taken, ExitEffect, ExitLeaves, WaitsFor, Fallen;
    StartOne(k);
    ghost var l := k.rq.Links();
    ReadAndKey(k);
    ReadAndKey(k);
    AddedTwice(l);
    var w := k.Exit(0);
  }

  // ------------------------------------------------------------ a child beyond the scan

  /** The idle process, a running user process and a child of it that is blocked on input. */
  predicate Family(pool: seq<Pcb>)
  {
    && |pool| == MAX_PROCESSES && pool[0].pid == IDLE_PID && Live(pool[0]) && Behaves(pool[0])
    && pool[1].pid == 2 && pool[1].state == Running && pool[1].parent == 0 && !pool[1].kernel
    && pool[2].pid == 3 && pool[2].state == Blocked && pool[2].parent == 2 && !pool[2].waits
    && forall k :: 4 <= k < MAX_PROCESSES ==> !Live(pool[k])
  }

  predicate Exits(p: Pcb, pid: nat) { p.pid == pid && p.state == Zombie && p.parent == 2 }

  /** The running parent starts a child, and the time slice goes to it. */
  method StartChild(k: Kernel, i: nat)
    requires k.Valid() && k.current == 1 && k.q == [] && 2 <= i < MAX_PROCESSES && FirstUnused(k.pool[..], i)
    requires k.pool[1].pid == 2 && k.pool[1].state == Running
    modifies k, k.pool, k.owner, k.rq, k.rq.next, k.rq.prev
    ensures k.Valid() && k.current == i && k.q == [1] && k.nextPid == old(k.nextPid) + 1 && k.shell == old(k.shell)
    ensures old(NoLostWake(k.pool[..])) ==> NoLostWake(k.pool[..])
    ensures var c := k.pool[i];
      && c.pid == old(k.nextPid) && c.state == Running && c.parent == 2 && !c.waits && !c.kernel
      && k.pool[..] == old(k.pool[..])[1 := old(k.pool[1]).(state := Ready)][i := c]
  {
    hide Kernel.Core, Kernel.QueueOk, NoLostWake;
    ghost var p0 := k.pool[..];
    assert !Live(p0[i]);
    var pid := k.Exec(true, true);
    assert FirstUnused(p0, i) && k.q == [i as int];
    k.Tick();
    assert k.pool[..][i] == k.pool[i];
  }

  /** Boot, a user process, and a child of it that reads. */
  method StartFamily(k: Kernel)
    requires k.Sized()
    modifies k, k.pool, k.owner, k.rq, k.rq.next, k.rq.prev
    ensures k.Valid() && Family(k.pool[..]) && !Live(k.pool[3]) && k.current == 1 && k.q == []
    ensures k.nextPid == 4 && NoLostWake(k.pool[..])
  {
    hide Kernel.Core, Kernel.QueueOk, NoLostWake;
    StartOne(k);
    StartChild(k, 2);
    k.BlockOnInput();
    k.CoreFacts();
    assert k.pool[..][0] == k.pool[0];
    k.Tick();
  }

  /** The parent starts another child, which exits before the parent runs again. */
  method ChildExits(k: Kernel)
    requires k.Valid() && Family(k.pool[..]) && !Live(k.pool[3]) && k.current == 1 && k.q == []
    modifies k, k.pool, k.owner, k.rq, k.rq.next, k.rq.prev
    ensures k.Valid() && Family(k.pool[..]) && Exits(k.pool[3], old(k.nextPid)) && k.current == 1 && k.q == []
    ensures k.nextPid == old(k.nextPid) + 1 && (old(NoLostWake(k.pool[..])) ==> NoLostWake(k.pool[..]))
  {
    hide Kernel.Core, Kernel.QueueOk, NoLostWake;
    ghost var p0 := k.pool[..];
    StartChild(k, 3);
    ghost var p1, l1 := k.pool[..], k.rq.Links();
    k.CoreFacts();
    k.QueueFacts();
    RemovedOther(l1, 1, 3);
    var w := k.Exit(7);
  }

  lemma RemovedOther(l: Queue, x: int, p: int)
    requires Ranged(l) && SpellsOut(l, [x]) && x != p && 0 <= p < MAX_PROCESSES
    ensures Removed(l, p).head == x && Without([x], p) == [x]
  {
    hide SpellsOut, Removed, Without;
    WithoutNone([x], p);
    RemovedOne(l, [x], p);
    EndsOf(Removed(l, p), [x]);
  }

  /** The parent reaps the child, if the scan looks at its pid. */
  method ReapOne(k: Kernel)
    requires k.Valid() && Family(k.pool[..]) && Exits(k.pool[3], k.pool[3].pid) && k.current == 1 && k.q == []
    requires k.pool[3].pid < SCANNED
    modifies k, k.pool, k.owner, k.rq, k.rq.next, k.rq.prev
    ensures k.Valid() && Family(k.pool[..]) && !Live(k.pool[3]) && k.current == 1 && k.q == []
    ensures k.nextPid == old(k.nextPid) && (old(NoLostWake(k.pool[..])) ==> NoLostWake(k.pool[..]))
  {
    hide Kernel.Core, Kernel.QueueOk, NoLostWake;
    ghost var p0 := k.pool[..];
    assert Child(p0, 1, ANY, 3) && p0[3].state == Zombie;
    var r := k.WaitOnce(-1, true, true);
    assert r.Reap?;
  }

  /** A parent that reaps all its children but one, and the one that exits with pid 1000: it blocks in
      waitpid although that child is there to be reaped. */
  method LosesWake(k: Kernel)
    requires k.Sized()
    modifies k, k.pool, k.owner, k.rq, k.rq.next, k.rq.prev
    ensures k.Valid() && k.nextPid == SCANNED + 1 && !NoLostWake(k.pool[..])
    ensures Waiting(k.pool[1]) && Matches(k.pool[1], k.pool[3]) && Exits(k.pool[3], SCANNED)
  {
    hide Kernel.Core, Kernel.QueueOk, NoLostWake;
    StartFamily(k);
    while k.nextPid < SCANNED
      invariant k.Valid() && Family(k.pool[..]) && !Live(k.pool[3]) && k.current == 1 && k.q == []
      invariant k.nextPid <= SCANNED && NoLostWake(k.pool[..])
      decreases SCANNED - k.nextPid
    {
      ChildExits(k);
      ReapOne(k);
    }
    ChildExits(k);
    Blocks(k);
  }

  method Blocks(k: Kernel)
    requires k.Valid() && Family(k.pool[..]) && Exits(k.pool[3], SCANNED) && k.current == 1 && k.q == []
    requires NoLostWake(k.pool[..])
    modifies k, k.pool, k.owner, k.rq, k.rq.next, k.rq.prev
    ensures k.Valid() && k.nextPid == old(k.nextPid) && !NoLostWake(k.pool[..])
    ensures Waiting(k.pool[1]) && Matches(k.pool[1], k.pool[3]) && Exits(k.pool[3], SCANNED)
  {
    hide Kernel.Core, Kernel.QueueOk, NoLostWake;
    ghost var p0 := k.pool[..];
    assert Child(p0, 1, ANY, 2) && Unseen(p0, 1, ANY, 3);
    var r := k.WaitOnce(-1, false, true);
  }
}
