/** The process lifecycle: creation, kernel stacks, exit, waitpid and switching, with the ready queue
    the code keeps. Every method is one atomic kernel step or a part of one. */
module Kernel {
  import opened ProcTable
  import opened ProcWait
  import opened ReadyQueue

  /** sys_waitpid looks at pids below this. */
  const SCANNED: nat := 1000

  datatype WaitResult = Reap(pid: nat, status: int) | CopyFailed | NoChild | NotYet | Waits

  // ------------------------------------------------------------ the queue and the table

  /** Queued processes are ready or blocked, never running, and never the idle process. */
  predicate Queued(pool: seq<Pcb>, q: seq<int>)
  {
    forall x :: x in q ==> 0 <= x < |pool| && CanQueue(pool[x])
  }

  predicate CanQueue(p: Pcb) { (p.state == Ready || p.state == Blocked) && p.pid != IDLE_PID }

  lemma QueuedOn(pool: seq<Pcb>, q: seq<int>, i: nat, p: Pcb)
    requires Queued(pool, q) && i < |pool| && (i in q ==> CanQueue(p))
    ensures Queued(pool[i := p], q)
  {
  }

  lemma {:induction false} WithoutIn(q: seq<int>, p: int, x: int)
    requires x in Without(q, p)
    ensures x in q
  {
    if q[0] == p {
      assert x in q[1..];
    } else if x != q[0] {
      WithoutIn(q[1..], p, x);
    }
  }

  lemma NotWithout(l: Queue, q: seq<int>, p: int)
    requires SpellsOut(l, q)
    ensures p !in Without(q, p)
  {
    hide Links, Unlinked, Ends;
    if p in q {
      var i := PositionOf(q, p);
      Before(q, i);
      WithoutAt(q, i);
    } else {
      WithoutNone(q, p);
    }
  }

  lemma QueuedWithout(pool: seq<Pcb>, q: seq<int>, p: int)
    requires Queued(pool, q)
    ensures Queued(pool, Without(q, p))
  {
    forall x | x in Without(q, p) ensures x in q { WithoutIn(q, p, x); }
  }

  class Kernel {
    const pool: array<Pcb>
    const owner: array<int>
    const rq: ReadyQueue
    var nextPid: nat
    var count: nat
    var current: int
    var shell: int
    var rsp0: nat
    var syscallTop: nat
    ghost var q: seq<int>
    ghost var log: seq<Event>

    constructor ()
      ensures Sized() && fresh(pool) && fresh(owner) && fresh(rq) && fresh(rq.next) && fresh(rq.prev)
    {
      pool := new Pcb[MAX_PROCESSES];
      owner := new int[MAX_PROCESSES];
      rq := new ReadyQueue();
    }

    ghost predicate Sized()
    {
      && pool.Length == MAX_PROCESSES && owner.Length == MAX_PROCESSES && rq.Sized()
      && owner != rq.next && owner != rq.prev
    }

    /** The running process, if there is one, can run, and interrupts and system calls land on its
        kernel stack; both stack tops are always the same. */
    ghost predicate OnStack()
      requires Sized()
      reads this, pool
    {
      && rsp0 == syscallTop
      && (current != NONE ==> 0 <= current < MAX_PROCESSES && Runnable(pool[current]) && rsp0 == pool[current].top)
    }

    /** The table, the log and the stacks are in order; the links of the queue are in range. */
    ghost predicate Core()
      reads this, pool, owner, rq, rq.next, rq.prev
    {
      && Sized() && Good(pool[..], owner[..], nextPid, count, log) && OnStack() && rq.Linked()
      && (shell == NONE || 0 <= shell < MAX_PROCESSES)
    }

    /** The links spell out a queue of processes that may be queued. */
    ghost predicate QueueOk()
      reads this, pool, rq, rq.next, rq.prev
    {
      SpellsOut(rq.Links(), q) && Queued(pool[..], q)
    }

    ghost predicate Valid()
      reads this, pool, owner, rq, rq.next, rq.prev
    {
      Core() && QueueOk() && nextPid > IDLE_PID
    }

    // ---------------------------------------------------------- the queue

    /** scheduler_ready_queue_add for process i. */
    method Enqueue(i: nat)
      requires Core() && i < MAX_PROCESSES && Runnable(pool[i])
      modifies this`q, pool, rq, rq.next, rq.prev
      ensures Core() && rq.Links() == Added(old(rq.Links()), i) && q == old(q) + [i]
      ensures var p := old(pool[i]);
        pool[..] == if p.state == Running then old(pool[..])[i := p.(state := Ready)] else old(pool[..])
      ensures old(NoLostWake(pool[..])) ==> NoLostWake(pool[..])
      ensures old(QueueOk()) && i !in old(q) && old(pool[i]).pid != IDLE_PID ==> QueueOk()
      ensures old(QueueOk()) && i in old(q) ==> forall r :: !SpellsOut(rq.Links(), r)
    {
      hide Good, NoLostWake, SpellsOut, Added, Ranged;
      GoodBehaves(pool[..], owner[..], nextPid, count, log, i);
      if pool[i].state == Running { Change(i, pool[i].(state := Ready)); }
      rq.Add(i);
      q := q + [i];
    }

    /** scheduler_ready_queue_remove for process i. */
    method Dequeue(i: nat)
      requires Core() && i < MAX_PROCESSES
      modifies this`q, rq, rq.next, rq.prev
      ensures Core() && rq.Links() == Removed(old(rq.Links()), i) && q == Without(old(q), i)
      ensures old(QueueOk()) ==> QueueOk() && i !in q
    {
      hide Good, SpellsOut, Removed, Ranged, Without, Queued;
      ghost var q0 := q;
      rq.Remove(i);
      if old(QueueOk()) {
        NotWithout(old(rq.Links()), q0, i);
        QueuedWithout(pool[..], q0, i);
      }
      q := Without(q, i);
    }

    /** scheduler_ready_queue_next. */
    method TakeNext() returns (n: int)
      requires Core()
      modifies this`q, rq, rq.next, rq.prev
      ensures Core() && rq.Links() == Taken(old(rq.Links())) && n == old(rq.head)
      ensures q == Rest(old(q))
      ensures IsLink(n)
      ensures old(QueueOk()) ==> QueueOk() && n == HeadOf(old(q)) && n !in q && (n == NONE <==> old(q) == [])
      ensures old(QueueOk()) ==> (n != NONE ==> CanQueue(pool[n]))
    {
      hide Good, SpellsOut, Taken;
      ghost var q0 := q;
      n := rq.Next();
      if old(QueueOk()) && q0 != [] {
        FirstLeaves(old(rq.Links()), q0);
        assert q0[0] in q0 && forall x :: x in q0[1..] ==> x in q0;
      }
      q := Rest(q);
    }

    // ---------------------------------------------------------- the table

    /** process_find_by_pid. */
    method FindByPid(pid: nat) returns (i: int)
      requires Sized()
      ensures i == NONE ==> forall k :: 0 <= k < MAX_PROCESSES && Live(pool[k]) ==> pool[k].pid != pid
      ensures i != NONE ==> 0 <= i < MAX_PROCESSES && Live(pool[i]) && pool[i].pid == pid
    {
      i := 0;
      while i < MAX_PROCESSES
        invariant 0 <= i <= MAX_PROCESSES
        invariant forall k :: 0 <= k < i && Live(pool[k]) ==> pool[k].pid != pid
      {
        if pool[i].pid == pid && pool[i].state != Unused { return; }
        i := i + 1;
      }
      return NONE;
    }

    /** get_free_pcb: the first unused entry. */
    method GetFree() returns (i: int)
      requires Sized()
      ensures i == NONE ==> forall k :: 0 <= k < MAX_PROCESSES ==> Live(pool[k])
      ensures i != NONE ==> 0 <= i < MAX_PROCESSES && !Live(pool[i]) && forall k :: 0 <= k < i ==> Live(pool[k])
    {
      i := 0;
      while i < MAX_PROCESSES
        invariant 0 <= i <= MAX_PROCESSES && forall k :: 0 <= k < i ==> Live(pool[k])
      {
        if pool[i].state == Unused { return; }
        i := i + 1;
      }
      return NONE;
    }

    /** kernel_stack_slot_alloc: the first slot without an owner. */
    method SlotAlloc(i: nat) returns (s: int)
      requires Sized() && i < MAX_PROCESSES
      modifies owner
      ensures s == NONE ==> owner[..] == old(owner[..]) && forall x :: 0 <= x < MAX_PROCESSES ==> owner[x] != NONE
      ensures s != NONE ==> 0 <= s < MAX_PROCESSES && old(owner[s]) == NONE && owner[..] == old(owner[..])[s := i]
      ensures s != NONE ==> forall x :: 0 <= x < s ==> owner[x] != NONE
    {
      s := 0;
      while s < MAX_PROCESSES
        invariant 0 <= s <= MAX_PROCESSES && owner[..] == old(owner[..])
        invariant forall x :: 0 <= x < s ==> owner[x] != NONE
      {
        if owner[s] == NONE {
          owner[s] := i;
          return;
        }
        s := s + 1;
      }
      return NONE;
    }

    /** A change of one process that neither ends nor moves it. */
    method Change(i: nat, p: Pcb)
      requires Core() && i < MAX_PROCESSES && SamePlace(pool[i], p) && Runnable(pool[i]) && Runnable(p) && Behaves(p)
      modifies pool
      ensures Core() && pool[..] == old(pool[..])[i := p]
      ensures old(NoLostWake(pool[..])) && !Waiting(p) ==> NoLostWake(pool[..])
      ensures old(QueueOk()) && (i in q ==> CanQueue(p)) ==> QueueOk()
    {
      hide Good, NoLostWake, SpellsOut;
      GoodChanged(pool[..], owner[..], nextPid, count, log, i, p);
      ghost var p0 := pool[..];
      pool[i] := p;
      assert pool[..] == p0[i := p];
    }

    /** The table part of process_create. */
    method Make(kernel: bool, stackOk: bool) returns (i: int)
      requires Core() && (nextPid == IDLE_PID ==> kernel)
      modifies this`nextPid, this`count, pool, owner
      ensures Core() && (old(NoLostWake(pool[..])) ==> NoLostWake(pool[..]))
      ensures old(nextPid) <= nextPid <= old(nextPid) + 1 && (i != NONE ==> nextPid == old(nextPid) + 1)
      ensures i != NONE ==>
                FirstUnused(old(pool[..]), i) && (kernel || stackOk) && pool[..] == old(pool[..])[i := pool[i]]
      ensures i != NONE ==> HasStack(pool[i]) && NewPcb(pool[i], old(nextPid), kernel)
      ensures i == NONE && (kernel || stackOk) ==>
                pool[..] == old(pool[..]) && forall k :: 0 <= k < MAX_PROCESSES ==> old(Live(pool[k]))
      ensures forall k :: 0 <= k < MAX_PROCESSES && old(Live(pool[k])) ==> pool[k] == old(pool[k])
    {
      hide Good, NoLostWake, SlotsOk, Ranged;
      i := GetFree();
      if i == NONE { return; }
      ghost var p0, o0 := pool[..], owner[..];
      var p := Pcb(nextPid, Ready, 0, 0, false, 0, NONE, 0, kernel);
      GoodNew(p0, o0, nextPid, count, log, i, p);
      pool[i] := p;
      nextPid := nextPid + 1;
      count := count + 1;
      assert pool[..] == p0[i := p];
      if !kernel && !stackOk { return NONE; }
      ghost var p1 := pool[..];
      GoodSlots(p1, o0, nextPid, count, log);
      ghost var free := SlotFree(p1, o0, i);
      var s := SlotAlloc(i);
      if s == NONE { assert false; }
      GoodSlot(p1, o0, nextPid, count, log, i, s);
      pool[i] := pool[i].(slot := s, top := StackTop(s));
      assert pool[..] == p1[i := p1[i].(slot := s, top := StackTop(s))];
    }

    /** process_create: a new ready process at the end of the queue. It returns no process if the pool
        is full, and then nothing changes, or if a page of the user stack cannot be had; in that case
        the entry stays taken. The pool of kernel stacks is never exhausted. */
    method Create(kernel: bool, stackOk: bool) returns (i: int)
      requires Valid()
      modifies this`nextPid, this`count, this`q, pool, owner, rq, rq.next, rq.prev
      ensures Valid() && (old(NoLostWake(pool[..])) ==> NoLostWake(pool[..]))
      ensures old(nextPid) <= nextPid <= old(nextPid) + 1 && (i != NONE ==> nextPid == old(nextPid) + 1)
      ensures i != NONE ==>
                FirstUnused(old(pool[..]), i) && (kernel || stackOk) && pool[..] == old(pool[..])[i := pool[i]]
      ensures i != NONE ==> HasStack(pool[i]) && NewPcb(pool[i], old(nextPid), kernel) && i !in old(q)
      ensures q == if i != NONE then old(q) + [i] else old(q)
      ensures i == NONE && (kernel || stackOk) ==>
                pool[..] == old(pool[..]) && forall k :: 0 <= k < MAX_PROCESSES ==> old(Live(pool[k]))
      ensures forall k :: 0 <= k < MAX_PROCESSES && old(Live(pool[k])) ==> pool[k] == old(pool[k])
    {
      hide Good, NoLostWake, SpellsOut, Ranged;
      i := Make(kernel, stackOk);
      assert Queued(pool[..], q);
      if i == NONE { return; }
      assert i !in q;
      Enqueue(i);
    }

    /** The end of process_reclaim and process_destroy: the entry and its stack slot are free. */
    method ClearEntry(i: nat)
      requires Sized() && i < MAX_PROCESSES && count > 0
      modifies this`count, pool, owner
      ensures pool[..] == old(pool[..])[i := Gone(old(pool[i]))] && count == old(count) - 1
      ensures owner[..] == Freed(old(owner[..]), i, old(pool[i]).slot)
    {
      ghost var p0, o0 := pool[..], owner[..];
      var slot := pool[i].slot;
      if 0 <= slot < MAX_PROCESSES && owner[slot] == i { owner[slot] := NONE; }
      pool[i] := Gone(pool[i]);
      count := count - 1;
      assert pool[..] == p0[i := Gone(p0[i])] && owner[..] == Freed(o0, i, slot);
    }

    /** process_destroy of any process but the running one: it leaves the table and the queue, and
        what it was is remembered as destroyed, not as reaped. */
    method Destroy(i: nat)
      requires Valid() && i < MAX_PROCESSES && i != current && Live(pool[i])
      modifies this`count, this`q, this`log, pool, owner, rq, rq.next, rq.prev
      ensures Valid() && (old(NoLostWake(pool[..])) ==> NoLostWake(pool[..]))
      ensures pool[..] == old(pool[..])[i := Gone(old(pool[i]))] && q == Without(old(q), i)
      ensures log == old(log) + [Destroyed(old(pool[i]).pid)]
    {
      hide Good, NoLostWake, SpellsOut, Ranged, Without, Queued;
      ghost var p0, q0, l0 := pool[..], q, rq.Links();
      GoodDestroy(p0, owner[..], nextPid, count, log, i, Gone(pool[i]));
      log := log + [Destroyed(pool[i].pid)];
      ClearEntry(i);
      rq.Remove(i);
      NotWithout(l0, q0, i);
      QueuedWithout(p0, q0, i);
      QueuedOn(p0, Without(q0, i), i, Gone(p0[i]));
      q := Without(q, i);
    }

    // ---------------------------------------------------------- waking

    /** One process blocked on input becomes ready and joins the queue. */
    method Wake(i: nat)
      requires Core() && i < MAX_PROCESSES && Wakes(pool[i], i == shell)
      modifies this`q, pool, rq, rq.next, rq.prev
      ensures Core() && (old(NoLostWake(pool[..])) ==> NoLostWake(pool[..]))
      ensures pool[..] == old(pool[..])[i := Woken(old(pool[i]), i == shell)]
      ensures q == old(q) + [i] && rq.Links() == Added(old(rq.Links()), i)
    {
      hide Good, NoLostWake, SpellsOut, Ranged, Added;
      GoodBehaves(pool[..], owner[..], nextPid, count, log, i);
      Change(i, pool[i].(state := Ready));
      Enqueue(i);
    }

    /** The loop of process_wake_all_blocked, whatever the links are. */
    method WakeEach()
      requires Core()
      modifies this`q, pool, rq, rq.next, rq.prev
      ensures Core() && (old(NoLostWake(pool[..])) ==> NoLostWake(pool[..]))
      ensures pool[..] == AllWoken(old(pool[..]), shell, MAX_PROCESSES)
      ensures var ws := Wakers(old(pool[..]), shell, MAX_PROCESSES);
        q == old(q) + ws && rq.Links() == AddedAll(old(rq.Links()), ws)
    {
      hide Kernel.Core, NoLostWake, AddedAll, Added, Wakers;
      ghost var p0, q0, l0 := pool[..], q, rq.Links();
      CoreFacts();
      NoWakers(p0, shell, q0, l0);
      var i := 0;
      while i < MAX_PROCESSES
        invariant 0 <= i <= MAX_PROCESSES && Core() && (old(NoLostWake(pool[..])) ==> NoLostWake(pool[..]))
        invariant pool[..] == AllWoken(p0, shell, i)
        invariant q == q0 + Wakers(p0, shell, i) && rq.Links() == AddedAll(l0, Wakers(p0, shell, i))
      {
        WakersStep(p0, shell, i, q0, l0);
        assert pool[i] == AllWoken(p0, shell, i)[i];
        if i != shell && pool[i].state == Blocked && !pool[i].waits { Wake(i); }
        i := i + 1;
      }
    }

    /** process_wake_all_blocked, on a key: everyone blocked on input but the kernel shell becomes
        ready and joins the queue; no one blocked in waitpid is touched. The queue survives exactly
        if none of them was on it already. */
    method WakeAllBlocked()
      requires Core()
      modifies this`q, pool, rq, rq.next, rq.prev
      ensures Core() && (old(NoLostWake(pool[..])) ==> NoLostWake(pool[..]))
      ensures pool[..] == AllWoken(old(pool[..]), shell, MAX_PROCESSES)
      ensures var ws := Wakers(old(pool[..]), shell, MAX_PROCESSES);
        q == old(q) + ws && rq.Links() == AddedAll(old(rq.Links()), ws)
      ensures old(QueueOk()) ==> (QueueOk() <==> !WakesOneQueued(old(pool[..]), shell, old(q)))
      ensures old(QueueOk()) && WakesOneQueued(old(pool[..]), shell, old(q)) ==> forall r :: !SpellsOut(rq.Links(), r)
      ensures forall k :: 0 <= k < MAX_PROCESSES && old(Waiting(pool[k])) ==>
                pool[k] == old(pool[k]) && (k in q <==> k in old(q))
      ensures forall k :: 0 <= k < MAX_PROCESSES && (k == shell || old(pool[k]).state != Blocked) ==>
                pool[k] == old(pool[k]) && (k in q <==> k in old(q))
      ensures forall k :: 0 <= k < MAX_PROCESSES && k != shell &&
                          old(pool[k]).state == Blocked && !old(pool[k]).waits ==>
                pool[k] == old(pool[k]).(state := Ready) && k in q
    {
      hide Kernel.Core, Kernel.QueueOk, NoLostWake, AddedAll, Wakers, AllWoken, SpellsOut, Queued, WakesOneQueued;
      ghost var p0, q0, l0 := pool[..], q, rq.Links();
      CoreFacts();
      QueueFacts();
      WakeEach();
      QueueFacts();
      forall k | 0 <= k < MAX_PROCESSES ensures KeyEffect(p0[k], k == shell, k in q0, pool[k], k in q) {
        assert pool[k] == pool[..][k];
        WhoWakes(p0, shell, q0, k);
      }
      if old(QueueOk()) {
        WokenQueue(p0, pool[..], shell, l0, q0);
        if WakesOneQueued(p0, shell, q0) {
          forall r ensures !SpellsOut(rq.Links(), r) { WokenBreaks(p0, shell, l0, q0, r); }
        }
      }
    }

    lemma CoreFacts()
      requires Core()
      ensures Sized() && Ranged(rq.Links()) && (shell == NONE || 0 <= shell < MAX_PROCESSES)
      ensures current == NONE || 0 <= current < MAX_PROCESSES
      ensures forall k :: 0 <= k < MAX_PROCESSES && Live(pool[k]) ==> Behaves(pool[k])
    {
      hide SpellsOut, Ranged;
    }

    lemma QueueFacts()
      ensures QueueOk() <==> SpellsOut(rq.Links(), q) && Queued(pool[..], q)
    {
    }

    /** process_wake_parent_if_waiting: the parent that waits for child c becomes ready and joins the
        queue; afterwards no one waits for c. */
    method WakeParent(c: nat) returns (w: int)
      requires Core() && c < MAX_PROCESSES && Live(pool[c]) && pool[c].parent != 0
      modifies this`q, pool, rq, rq.next, rq.prev
      ensures Core() && (w == NONE || 0 <= w < MAX_PROCESSES)
      ensures w != NONE ==> AwaitsExit(old(pool[..]), c, w)
      ensures forall k :: 0 <= k < MAX_PROCESSES && AwaitsExit(old(pool[..]), c, k) ==> k == w
      ensures pool[..] == if w == NONE then old(pool[..]) else old(pool[..])[w := Resumed(old(pool[w]))]
      ensures rq.Links() == (if w == NONE then old(rq.Links()) else Added(old(rq.Links()), w))
      ensures q == if w == NONE then old(q) else old(q) + [w]
      ensures old(QueueOk()) && (w == NONE || w !in old(q)) ==> QueueOk()
    {
      hide Good, NoLostWake, SpellsOut, Ranged, Added;
      GoodPids(pool[..], owner[..], nextPid, count, log);
      w := FindByPid(pool[c].parent);
      if w == NONE { return; }
      if pool[w].state != Blocked { return NONE; }
      if !pool[w].waits { return NONE; }
      if pool[w].waitPid != ANY && pool[w].waitPid != pool[c].pid { return NONE; }
      GoodBehaves(pool[..], owner[..], nextPid, count, log, w);
      Change(w, Resumed(pool[w]));
      Enqueue(w);
    }

    // ---------------------------------------------------------- switching

    /** The process that stops running is ready again and, unless it is idle, at the end of the queue. */
    method Preempt(prev: nat)
      requires Valid() && prev < MAX_PROCESSES && Runnable(pool[prev])
      modifies this`q, pool, rq, rq.next, rq.prev
      ensures Valid() && (old(NoLostWake(pool[..])) ==> NoLostWake(pool[..]))
      ensures pool[..] == Stopped(old(pool[..]), prev) && q == Requeued(old(pool[..]), old(q), prev)
    {
      hide Good, NoLostWake, SpellsOut, Ranged, Added;
      if pool[prev].state == Running {
        GoodBehaves(pool[..], owner[..], nextPid, count, log, prev);
        Change(prev, pool[prev].(state := Ready));
        if pool[prev].pid != IDLE_PID { Enqueue(prev); }
      }
    }

    /** A process off the queue runs, and both stack tops are its own. */
    method Dispatch(n: nat)
      requires Valid() && n < MAX_PROCESSES && Runnable(pool[n]) && n !in q
      modifies this`current, this`rsp0, this`syscallTop, pool
      ensures Valid() && (old(NoLostWake(pool[..])) ==> NoLostWake(pool[..]))
      ensures current == n && pool[..] == old(pool[..])[n := old(pool[n]).(state := Running)]
    {
      hide Good, NoLostWake, SpellsOut, Ranged;
      GoodBehaves(pool[..], owner[..], nextPid, count, log, n);
      Change(n, pool[n].(state := Running));
      current := n;
      rsp0 := pool[n].top;
      syscallTop := pool[n].top;
    }

    /** scheduler_switch_to: after a switch both stack tops are those of the new process, which is off
        the queue; the process that was running is ready and queued. */
    method SwitchTo(n: int)
      requires Valid() && (n == NONE || (0 <= n < MAX_PROCESSES && Runnable(pool[n])))
      modifies this`current, this`rsp0, this`syscallTop, this`q, pool, rq, rq.next, rq.prev
      ensures Valid() && (old(NoLostWake(pool[..])) ==> NoLostWake(pool[..]))
      ensures if StaysOn(old(pool[..]), old(current), n)
              then current == old(current) && pool[..] == old(pool[..]) && q == old(q)
              else && current == n && pool[..] == Switched(old(pool[..]), old(current), n)
                   && q == Requeued(old(pool[..]), Without(old(q), n), old(current))
      ensures old(current) != NONE && current != old(current) ==>
                current == n && HandedOver(old(pool[..]), old(current), pool[..], q, n)
    {
      hide Kernel.Core, Kernel.QueueOk, NoLostWake, Without;
      InRange();
      if n == NONE { return; }
      if n == current { return; }
      if pool[n].pid == IDLE_PID && current != NONE && pool[current].state == Running { return; }
      var prev := current;
      IdleUnqueued(n);
      if pool[n].pid != IDLE_PID { Dequeue(n); } else { WithoutNone(q, n); }
      assert Valid();
      if prev != NONE { Preempt(prev); }
      Dispatch(n);
      InRange();
    }

    /** process_yield. The running process goes to the end of the queue and the first one runs; if that
        is the same process it goes on, ready; if the queue was empty a ready process queues itself
        and goes on, and for a blocked one the idle process runs. */
    method Yield()
      requires Valid()
      modifies this`current, this`rsp0, this`syscallTop, this`q, pool, rq, rq.next, rq.prev
      ensures Valid() && (old(NoLostWake(pool[..])) ==> NoLostWake(pool[..]))
      ensures old(current) == NONE || old(pool[current]).pid == IDLE_PID ==>
                current == old(current) && pool[..] == old(pool[..]) && q == old(q)
      ensures old(current) != NONE && old(pool[current]).pid != IDLE_PID ==>
                Yielded(old(pool[..]), old(q), old(current), pool[..], q, current) && Runnable(old(pool[..])[current])
      ensures old(current) != NONE && current != old(current) ==>
                HandedOver(old(pool[..]), old(current), pool[..], q, current)
    {
      hide Kernel.Core, Kernel.QueueOk, NoLostWake, Without, Added, Removed, Taken;
      InRange();
      if current == NONE { return; }
      if pool[current].pid == IDLE_PID { return; }
      var me := current;
      Preempt(me);
      InRange();
      var n := TakeNext();
      if n == NONE {
        if pool[me].state == Ready {
          Enqueue(me);
          n := me;
        } else {
          n := FindByPid(IDLE_PID);
          if n == NONE { return; }
          IdleUnqueued(n);
        }
      }
      WithoutNone(q, if n in q then NONE else n);
      SwitchTo(n);
      InRange();
    }

    /** timer_preempt_handler when the time slice is over. */
    method Tick()
      requires Valid()
      modifies this`current, this`rsp0, this`syscallTop, this`q, pool, rq, rq.next, rq.prev
      ensures Valid() && (old(NoLostWake(pool[..])) ==> NoLostWake(pool[..]))
      ensures old(current) == NONE || (old(q) == [] && old(pool[current]).pid == IDLE_PID) ==>
                current == old(current) && pool[..] == old(pool[..]) && q == old(q)
      ensures old(current) != NONE && (old(q) != [] || old(pool[current]).pid != IDLE_PID) ==>
                Ticked(old(pool[..]), old(q), old(current), pool[..], q, current)
      ensures old(current) != NONE && current != old(current) ==>
                HandedOver(old(pool[..]), old(current), pool[..], q, current)
    {
      hide Kernel.Core, Kernel.QueueOk, NoLostWake, Without, Added, Removed, Taken;
      InRange();
      if current == NONE { return; }
      var me := current;
      var n := TakeNext();
      if n == NONE {
        if pool[me].pid == IDLE_PID { return; }
        n := FindByPid(IDLE_PID);
        if n == NONE { return; }
        IdleUnqueued(n);
      }
      if pool[me].pid != IDLE_PID { Preempt(me); }
      Dispatch(n);
      InRange();
    }

    /** Facts about a valid state that do not need its whole definition. */
    lemma InRange()
      requires Valid()
      ensures Sized() && (current == NONE || (0 <= current < MAX_PROCESSES && Runnable(pool[current])))
      ensures forall x :: x in q ==> 0 <= x < MAX_PROCESSES && CanQueue(pool[x])
      ensures q != [] ==> 0 <= q[0] < MAX_PROCESSES && CanQueue(pool[q[0]])
    {
    }

    /** The idle process is never queued. */
    lemma IdleUnqueued(i: nat)
      requires Valid() && i < MAX_PROCESSES
      ensures pool[i].pid == IDLE_PID ==> i !in q && (Live(pool[i]) ==> Runnable(pool[i]))
    {
    }

    /** sys_read without input: block until a key arrives; the idle process only halts. The process
        may still be on the queue. */
    method BlockOnInput()
      requires Valid() && current != NONE
      modifies pool
      ensures Valid() && (old(NoLostWake(pool[..])) ==> NoLostWake(pool[..]))
      ensures pool[..] == if old(pool[current]).pid == IDLE_PID then old(pool[..])
                          else old(pool[..])[current := old(pool[current]).(state := Blocked, waits := false)]
    {
      hide Good, NoLostWake, SpellsOut, Ranged;
      if pool[current].pid == IDLE_PID { return; }
      GoodBehaves(pool[..], owner[..], nextPid, count, log, current);
      Change(current, pool[current].(state := Blocked, waits := false));
    }

    /** suspend_self_for_diagnostic: the kernel shell blocks before it starts another process. */
    method Suspend()
      requires Valid() && current != NONE && pool[current].kernel && pool[current].pid != IDLE_PID
      modifies pool
      ensures Valid() && (old(NoLostWake(pool[..])) ==> NoLostWake(pool[..]))
      ensures pool[..] == old(pool[..])[current := old(pool[current]).(state := Blocked)]
    {
      hide Good, NoLostWake, SpellsOut, Ranged;
      GoodBehaves(pool[..], owner[..], nextPid, count, log, current);
      Change(current, pool[current].(state := Blocked));
    }

    // ---------------------------------------------------------- exit

    /** The first half of sys_exit and process_exit: the process leaves the queue; with a parent it
        becomes a zombie with its status and a waiting parent is woken and queued; without one it is
        gone at once. */
    method Leave(status: int) returns (w: int)
      requires Core() && current != NONE && pool[current].pid != IDLE_PID
      modifies this`current, this`count, this`q, this`log, pool, owner, rq, rq.next, rq.prev
      ensures Core() && current == NONE && (old(NoLostWake(pool[..])) ==> NoLostWake(pool[..]))
      ensures IsWaiter(old(pool[..]), old(current), w) && pool[..] == LeftPool(old(pool[..]), old(current), status, w)
      ensures rq.Links() == LeftLinks(old(rq.Links()), old(current), w) && q == LeftQueue(old(q), old(current), w)
      ensures old(QueueOk()) && (w == NONE || w !in old(q)) ==> QueueOk()
      ensures var me := old(pool[current]);
        log == if me.parent == 0 then old(log) else old(log) + [Exited(me.pid, me.parent, status)]
      ensures ExitLeaves(old(pool[current]), status, pool[old(current)])
      ensures forall k :: 0 <= k < MAX_PROCESSES && k != old(current) ==>
                && ExitEffect(old(pool[k]), old(pool[current]), pool[k])
                && (WaitsFor(old(pool[k]), old(pool[current])) ==> k in q)
    {
      hide Kernel.Core, Kernel.QueueOk, NoLostWake, Removed, Added, Without, Queued, SpellsOut;
      CoreFacts();
      var me := StepDown();
      ghost var p0 := pool[..];
      if pool[me].parent != 0 {
        BecomeZombie(me, status);
        ghost var p1, q1 := pool[..], q;
        w := WakeParent(me);
        ParentWoken(p0, p1, pool[..], me, w);
        if w != NONE && w in q1 { WithoutIn(old(q), me, w); }
      } else {
        w := NONE;
        Reclaim(me);
      }
      forall k | 0 <= k < MAX_PROCESSES
        ensures if k == me then ExitLeaves(p0[me], status, pool[me]) else ExitEffect(p0[k], p0[me], pool[k])
      {
        assert pool[k] == pool[..][k];
        LeaveMeans(p0, me, status, w, k);
      }
    }

    /** The exiting process is no longer current and off the queue. */
    method StepDown() returns (me: nat)
      requires Core() && current != NONE
      modifies this`current, this`q, rq, rq.next, rq.prev
      ensures Core() && current == NONE && me == old(current) && Runnable(pool[me])
      ensures rq.Links() == Removed(old(rq.Links()), me) && q == Without(old(q), me)
      ensures old(QueueOk()) ==> QueueOk() && me !in q
    {
      hide Good, SpellsOut, Ranged, Removed, Without;
      me := current;
      current := NONE;
      Dequeue(me);
    }

    /** A process with a parent exits. */
    method BecomeZombie(me: nat, status: int)
      requires Core() && current == NONE && me < MAX_PROCESSES && Runnable(pool[me]) && pool[me].pid != IDLE_PID
      modifies this`log, pool
      ensures Core() && log == old(log) + [Exited(old(pool[me]).pid, old(pool[me]).parent, status)]
      ensures pool[..] == old(pool[..])[me := old(pool[me]).(state := Zombie, status := status)]
      ensures old(QueueOk()) && me !in q ==> QueueOk()
    {
      hide Good, SpellsOut, Ranged;
      ghost var p0 := pool[..];
      GoodExit(p0, owner[..], nextPid, count, log, me, status);
      log := log + [Exited(pool[me].pid, pool[me].parent, status)];
      pool[me] := pool[me].(state := Zombie, status := status);
      assert pool[..] == p0[me := p0[me].(state := Zombie, status := status)];
    }

    /** process_reclaim of a process that has no parent to reap it. */
    method Reclaim(me: nat)
      requires Core() && current == NONE && me < MAX_PROCESSES && Live(pool[me])
      modifies this`count, pool, owner
      ensures Core() && pool[..] == old(pool[..])[me := Gone(old(pool[me]))]
      ensures old(NoLostWake(pool[..])) ==> NoLostWake(pool[..])
      ensures old(QueueOk()) && me !in q ==> QueueOk()
    {
      hide Good, NoLostWake, SpellsOut, Ranged;
      GoodGone(pool[..], owner[..], nextPid, count, log, me, Gone(pool[me]));
      ClearEntry(me);
    }

    /** The end of process_exit with nothing to run: the idle stack is set up and the kernel shell, if
        it is suspended, runs after a kernel thread. */
    method Fallback(kernel: bool)
      requires Core() && current == NONE && rq.head == NONE
      modifies this`current, this`rsp0, this`syscallTop, this`q, pool, rq, rq.next, rq.prev
      ensures Core() && (old(NoLostWake(pool[..])) ==> NoLostWake(pool[..]))
      ensures Fallen(old(pool[..]), pool[..], kernel, shell, current, rsp0)
      ensures old(QueueOk()) ==> QueueOk() && q == []
    {
      hide Kernel.Core, Kernel.QueueOk, NoLostWake, Removed;
      CoreFacts();
      OnIdleStack();
      if kernel && shell != NONE && pool[shell].state == Blocked {
        Dequeue(shell);
        Resume(shell);
      }
    }

    /** scheduler_reset, and interrupts and system calls on the stack of the idle process. */
    method OnIdleStack()
      requires Core() && current == NONE && rq.head == NONE
      modifies this`rsp0, this`syscallTop, rq`head, rq`tail
      ensures Core() && rq.head == NONE && (old(QueueOk()) ==> QueueOk() && q == [])
      ensures forall k :: 0 <= k < MAX_PROCESSES && Live(pool[k]) && pool[k].pid == IDLE_PID ==> rsp0 == pool[k].top
    {
      hide Good, Ranged, Links, Unlinked;
      GoodPids(pool[..], owner[..], nextPid, count, log);
      rq.Reset();
      var idle := FindByPid(IDLE_PID);
      if idle != NONE {
        rsp0, syscallTop := pool[idle].top, pool[idle].top;
      } else {
        rsp0, syscallTop := 0, 0;
      }
    }

    /** process_exit as a whole, whatever the links are. With nothing to run, a kernel thread's exit
        resumes the suspended kernel shell; otherwise the machine halts on the idle stack. A valid
        state stays valid exactly if the parent that is woken was not on the queue. */
    method Exit(status: int) returns (w: int)
      requires Core() && current != NONE && pool[current].pid != IDLE_PID
      modifies this`current, this`count, this`q, this`log, this`rsp0, this`syscallTop, pool, owner, rq, rq.next, rq.prev
      ensures IsWaiter(old(pool[..]), old(current), w)
      ensures var l, p := LeftLinks(old(rq.Links()), old(current), w), LeftPool(old(pool[..]), old(current), status, w);
        RanNext(l, p, old(pool[current]).kernel, shell, rq.Links(), pool[..], current, rsp0, syscallTop)
      ensures var me := old(pool[current]);
        log == if me.parent == 0 then old(log) else old(log) + [Exited(me.pid, me.parent, status)]
      ensures old(Valid()) ==> (Valid() <==> !WakesQueued(old(pool[..]), old(q), old(current)))
      ensures old(Valid()) && WakesQueued(old(pool[..]), old(q), old(current)) ==>
                forall r :: SpellsOut(rq.Links(), r) ==> !Queued(pool[..], r)
      ensures old(Valid()) && Valid() ==> q == Rest(LeftQueue(old(q), old(current), w))
      ensures LeftLinks(old(rq.Links()), old(current), w).head == NONE && !old(pool[current]).kernel ==> current == NONE
      ensures LeftLinks(old(rq.Links()), old(current), w).head == NONE && old(pool[current]).kernel &&
              shell != NONE && shell != old(current) && old(pool[shell]).state == Blocked && !old(pool[shell]).waits ==>
                current == shell && pool[shell] == old(pool[shell]).(state := Running)
      ensures current != old(current) ==> ExitLeaves(old(pool[current]), status, pool[old(current)])
      ensures forall k :: 0 <= k < MAX_PROCESSES && k != old(current) && k != current ==>
                ExitEffect(old(pool[k]), old(pool[current]), pool[k])
      ensures old(Valid()) && Valid() && old(NoLostWake(pool[..])) ==> NoLostWake(pool[..])
    {
      hide Kernel.Core, Kernel.QueueOk, NoLostWake, SpellsOut, Queued, LeftLinks, LeftPool, Taken, Fallen;
      CoreFacts();
      QueueFacts();
      ghost var p0, q0, l0, me, was := pool[..], q, rq.Links(), current, Valid();
      var kernel := pool[current].kernel;
      w := Leave(status);
      ghost var p := pool[..];
      RunNext(kernel);
      QueueFacts();
      if was {
        if w != NONE && w in q0 {
          assert WakesQueued(p0, q0, me);
          forall r | SpellsOut(rq.Links(), r) ensures !Queued(pool[..], r) {
            ExitBreaks(l0, q0, me, w, r, p);
          }
        }
      }
    }

    /** The end of process_exit: the first process of the queue runs, if there is one. */
    method RunNext(kernel: bool)
      requires Core() && current == NONE
      modifies this`current, this`rsp0, this`syscallTop, this`q, pool, rq, rq.next, rq.prev
      ensures RanNext(old(rq.Links()), old(pool[..]), kernel, shell, rq.Links(), pool[..], current, rsp0, syscallTop)
      ensures forall k :: 0 <= k < MAX_PROCESSES && k != current ==> pool[k] == old(pool[k])
      ensures old(rq.head) == NONE && !kernel ==> current == NONE
      ensures old(rq.head) == NONE && kernel && shell != NONE && old(pool[shell]).state == Blocked ==>
                current == shell && pool[shell] == old(pool[shell]).(state := Running)
      ensures old(QueueOk()) ==> Core() && QueueOk() && (old(NoLostWake(pool[..])) ==> NoLostWake(pool[..]))
      ensures old(QueueOk()) ==> q == Rest(old(q))
    {
      hide Kernel.Core, Kernel.QueueOk, NoLostWake, Ranged;
      CoreFacts();
      ghost var p0 := pool[..];
      var n := TakeNext();
      if n == NONE {
        Fallback(kernel);
      } else {
        Resume(n);
      }
      forall k | 0 <= k < MAX_PROCESSES && k != current ensures pool[k] == p0[k] { assert pool[k] == pool[..][k]; }
    }

    /** The last stores of process_exit, whatever process the queue gave. */
    method Resume(n: nat)
      requires Core() && n < MAX_PROCESSES
      modifies this`current, this`rsp0, this`syscallTop, pool
      ensures pool[..] == old(pool[..])[n := old(pool[n]).(state := Running)] && current == n
      ensures rsp0 == syscallTop == pool[n].top
      ensures old(Runnable(pool[n])) ==> Core() && (old(NoLostWake(pool[..])) ==> NoLostWake(pool[..]))
      ensures old(Runnable(pool[n])) && old(QueueOk()) && n !in q ==> QueueOk()
    {
      hide Good, NoLostWake, SpellsOut, Ranged;
      ghost var p0 := pool[..];
      if Runnable(pool[n]) {
        GoodBehaves(pool[..], owner[..], nextPid, count, log, n);
        Change(n, pool[n].(state := Running));
      } else {
        pool[n] := pool[n].(state := Running);
      }
      assert pool[..] == p0[n := p0[n].(state := Running)];
      current := n;
      rsp0 := pool[n].top;
      syscallTop := pool[n].top;
    }

    // ---------------------------------------------------------- waitpid

    /** The scan of sys_waitpid: the zombie of least pid among the children it looks at, and whether
        there is any child. */
    method Scan(self: nat, target: nat) returns (zombie: int, live: bool)
      requires Valid() && self < MAX_PROCESSES
      ensures zombie != NONE ==> 0 <= zombie < MAX_PROCESSES && Child(pool[..], self, target, zombie)
      ensures zombie != NONE ==> pool[zombie].state == Zombie
      ensures zombie != NONE ==> forall k :: Child(pool[..], self, target, k) && pool[k].state == Zombie ==>
                pool[zombie].pid <= pool[k].pid
      ensures zombie == NONE ==> forall k :: Child(pool[..], self, target, k) ==> pool[k].state != Zombie
      ensures zombie == NONE ==> (live <==> exists k :: Child(pool[..], self, target, k))
    {
      hide Good, SpellsOut, Ranged;
      GoodPids(pool[..], owner[..], nextPid, count, log);
      zombie, live := NONE, false;
      var pid := 1;
      while pid < SCANNED
        invariant 1 <= pid <= SCANNED
        invariant forall k :: Child(pool[..], self, target, k) && pool[k].pid < pid ==> pool[k].state != Zombie && live
        invariant live ==> exists k :: Child(pool[..], self, target, k)
      {
        var c := FindByPid(pid);
        if c != NONE && pool[c].parent == pool[self].pid && (target == ANY || pool[c].pid == target) {
          assert Child(pool[..], self, target, c);
          if pool[c].state == Zombie { return c, live; }
          live := true;
        }
        pid := pid + 1;
      }
    }

    /** process_reclaim of zombie z by the process that found it in waitpid, its parent. */
    method ReapChild(z: nat, me: nat)
      requires Valid() && z < MAX_PROCESSES && me < MAX_PROCESSES
      requires pool[z].state == Zombie && pool[z].parent == pool[me].pid
      modifies this`count, this`log, pool, owner
      ensures Valid() && (old(NoLostWake(pool[..])) ==> NoLostWake(pool[..]))
      ensures pool[..] == old(pool[..])[z := Gone(old(pool[z]))]
      ensures log == old(log) + [Reaped(old(pool[z]).pid, old(pool[me]).pid, old(pool[z]).status)]
    {
      hide Good, NoLostWake, SpellsOut, Ranged;
      GoodReap(pool[..], owner[..], nextPid, count, log, z, pool[me].pid, Gone(pool[z]));
      log := log + [Reaped(pool[z].pid, pool[me].pid, pool[z].status)];
      ClearEntry(z);
    }

    /** The end of a pass of sys_waitpid that found no zombie: block until a child exits. */
    method BlockInWait(target: nat)
      requires Valid() && current != NONE && !pool[current].kernel
      modifies pool
      ensures Valid()
      ensures pool[..] ==
                old(pool[..])[current := old(pool[current]).(state := Blocked, waits := true, waitPid := target)]
      ensures pool[current].pid != IDLE_PID
    {
      hide Good, SpellsOut, Ranged;
      GoodBehaves(pool[..], owner[..], nextPid, count, log, current);
      Change(current, pool[current].(state := Blocked, waits := true, waitPid := target));
    }

    /** One pass of sys_waitpid in terms of the target it looks for. */
    method WaitPass(pid: int, nohang: bool, copies: bool) returns (r: WaitResult)
      requires Valid() && pid < ANY && (current != NONE ==> !pool[current].kernel)
      modifies this`current, this`count, this`q, this`log, this`rsp0, this`syscallTop, pool, owner, rq, rq.next, rq.prev
      ensures Valid() && (old(current) == NONE ==> r == NoChild)
      ensures r != Waits ==> current == old(current) && q == old(q)
      ensures old(NoLostWake(pool[..])) && r != Waits ==> NoLostWake(pool[..])
      ensures old(NoLostWake(pool[..])) && r == Waits ==>
                (NoLostWake(pool[..]) <==> !exists k :: Unseen(old(pool[..]), old(current), Target(pid), k))
      ensures old(current) != NONE ==>
                Waited(old(pool[..]), old(log), old(current), Target(pid), nohang, copies, r, pool[..], log)
    {
      hide Kernel.Core, Kernel.QueueOk, NoLostWake, Yielded;
      InRange();
      if current == NONE { return NoChild; }
      var me, target: nat := current, Target(pid);
      var z, live := Scan(me, target);
      if z != NONE {
        r := if copies then Reap(pool[z].pid, pool[z].status) else CopyFailed;
        ReapChild(z, me);
        return;
      }
      if !live { return NoChild; }
      if nohang { return NotYet; }
      ghost var p0 := pool[..];
      BlockInWait(target);
      ghost var p1, q1 := pool[..], q;
      Yield();
      YieldLoses(p0, p1, q1, me, target, pool[..], q, current);
      return Waits;
    }

    /** One pass of sys_waitpid for the running process. A wake-up is lost exactly if it blocks while a
        zombie it waits for has a pid that the scan does not look at. */
    method WaitOnce(pid: int, nohang: bool, copies: bool) returns (r: WaitResult)
      requires Valid() && pid < ANY && (current != NONE ==> !pool[current].kernel)
      modifies this`current, this`count, this`q, this`log, this`rsp0, this`syscallTop, pool, owner, rq, rq.next, rq.prev
      ensures Valid() && (old(current) == NONE ==> r == NoChild)
      ensures r != Waits ==> current == old(current) && q == old(q)
      ensures old(NoLostWake(pool[..])) && r != Waits ==> NoLostWake(pool[..])
      ensures old(NoLostWake(pool[..])) && r == Waits ==>
                (NoLostWake(pool[..]) <==>
                   !exists k :: Unseen(old(pool[..]), old(current), ANY, k) && (pid > 0 ==> old(pool[k]).pid == pid))
      ensures old(current) != NONE ==>
                Waited(old(pool[..]), old(log), old(current), Target(pid), nohang, copies, r, pool[..], log)
      ensures old(current) != NONE && pid > 0 ==> WaitedForOne(old(pool[..]), old(current), pid, r, pool[..])
      ensures old(current) != NONE && pid <= 0 ==> WaitedForAny(old(pool[..]), old(current), r, pool[..])
    {
      hide Kernel.Core, Kernel.QueueOk, NoLostWake, Waited, WaitedForOne, WaitedForAny, Target;
      InRange();
      ghost var p0, log0, me := pool[..], log, current;
      r := WaitPass(pid, nohang, copies);
      UnseenFor(p0, me, pid);
      if me != NONE { WaitMeans(p0, log0, me, pid, nohang, copies, r, pool[..], log); }
    }

    // ---------------------------------------------------------- exec and boot

    /** The process-making part of sys_exec: create, take off the queue, load, and only then name the
        caller as parent and queue the child; one that cannot be loaded is destroyed. */
    method Exec(stackOk: bool, loadOk: bool) returns (pid: int)
      requires Valid()
      modifies this`nextPid, this`count, this`q, this`log, pool, owner, rq, rq.next, rq.prev
      ensures Valid() && (old(NoLostWake(pool[..])) ==> NoLostWake(pool[..]))
      ensures old(nextPid) <= nextPid <= old(nextPid) + 1
      ensures pid != -1 ==>
                current != NONE && pid == old(nextPid) == nextPid - 1 && stackOk && loadOk && log == old(log)
      ensures pid != -1 ==> exists i :: FirstUnused(old(pool[..]), i) && NewChild(pool[i], pid, old(pool[current]).pid)
                                        && pool[..] == old(pool[..])[i := pool[i]] && q == old(q) + [i]
      ensures pid == -1 && stackOk ==> forall k :: 0 <= k < MAX_PROCESSES ==> Live(pool[k]) == old(Live(pool[k]))
      ensures pid == -1 && stackOk && loadOk && current != NONE ==>
                forall k :: 0 <= k < MAX_PROCESSES ==> old(Live(pool[k]))
      ensures pid == -1 ==> q == old(q) && (log == old(log) || log == old(log) + [Destroyed(old(nextPid))])
    {
      hide Kernel.Core, Kernel.QueueOk, NoLostWake, Added, Removed, Without;
      InRange();
      if current == NONE { return -1; }
      ghost var p0, q0 := pool[..], q;
      var child := Create(false, stackOk);
      if child == NONE { return -1; }
      ghost var p1 := pool[..];
      WithoutLast(q0, child);
      WithoutNone(q0, child);
      Dequeue(child);
      if !loadOk {
        Destroy(child);
        assert forall k :: 0 <= k < MAX_PROCESSES && k != child ==> pool[..][k] == p1[k] == p0[k];
        return -1;
      }
      assert pool[..][current] == p1[current] == p0[current];
      NameParent(child, pool[current].pid);
      Enqueue(child);
      pid := pool[child].pid;
    }

    /** kmain puts a process it created on the queue again. */
    method QueueAgain(i: nat)
      requires Valid() && i < MAX_PROCESSES
      modifies this`q, pool, rq, rq.next, rq.prev
      ensures Valid() <==> i !in old(q)
      ensures i in old(q) ==> forall r :: !SpellsOut(rq.Links(), r)
      ensures Valid() && old(NoLostWake(pool[..])) ==> NoLostWake(pool[..])
    {
      hide Kernel.Core, NoLostWake, SpellsOut, Added;
      InRange();
      if Runnable(pool[i]) && pool[i].pid != IDLE_PID { Enqueue(i); }
    }

    /** process_set_kernel_shell for the running process. */
    method SetShell()
      requires Valid() && current != NONE
      modifies this`shell
      ensures Valid() && shell == current
    {
      hide Good, SpellsOut, Ranged;
      shell := current;
    }

    /** While every pid is below the bound of the scan, no zombie is unseen. */
    lemma SmallPids(self: int, target: nat)
      requires Valid()
      ensures nextPid <= SCANNED ==> forall k :: !Unseen(pool[..], self, target, k)
    {
      hide SpellsOut, Ranged, LogOk, Tied, KernelOk;
    }

    method NameParent(i: nat, parent: nat)
      requires Valid() && i < MAX_PROCESSES && pool[i].state == Ready && pool[i].pid != IDLE_PID && !pool[i].waits
      modifies pool
      ensures Valid() && (old(NoLostWake(pool[..])) ==> NoLostWake(pool[..]))
      ensures pool[..] == old(pool[..])[i := old(pool[i]).(parent := parent)]
    {
      hide Good, NoLostWake, SpellsOut, Ranged;
      Change(i, pool[i].(parent := parent));
    }

    /** The empty tables of process_init. */
    method Empty()
      requires Sized()
      modifies this, pool, owner, rq, rq.next, rq.prev
      ensures Core() && QueueOk() && NoLostWake(pool[..]) && log == [] && q == []
      ensures nextPid == IDLE_PID && shell == NONE && current == NONE
      ensures forall k :: 0 <= k < MAX_PROCESSES ==> !Live(pool[k])
    {
      hide Good, NoLostWake, SpellsOut, Ranged;
      rq.Clear();
      var i := 0;
      while i < MAX_PROCESSES
        invariant 0 <= i <= MAX_PROCESSES && rq.Linked() && SpellsOut(rq.Links(), [])
        invariant forall k :: 0 <= k < i ==> !Live(pool[k]) && owner[k] == NONE
      {
        pool[i] := Pcb(0, Unused, 0, 0, false, 0, 0, 0, false);
        owner[i] := NONE;
        i := i + 1;
      }
      nextPid, count, current, shell, rsp0, syscallTop := IDLE_PID, 0, NONE, NONE, 0, 0;
      log, q := [], [];
      EmptyGood(pool[..], owner[..]);
    }

    /** process_init: the idle process is the only one, it is current and the queue is empty. */
    method Boot()
      requires Sized()
      modifies this, pool, owner, rq, rq.next, rq.prev
      ensures Valid() && NoLostWake(pool[..]) && log == [] && q == [] && nextPid == IDLE_PID + 1 && shell == NONE
      ensures current == 0 && pool[current].pid == IDLE_PID && HasStack(pool[current])
      ensures forall k :: 0 < k < MAX_PROCESSES ==> !Live(pool[k])
    {
      hide Good, NoLostWake, SpellsOut, Ranged;
      Empty();
      ghost var p0 := pool[..];
      assert !Live(pool[0]);
      var idle := Make(true, true);
      assert forall k :: 0 < k < MAX_PROCESSES ==> pool[..][k] == p0[k];
      PassThrough(idle);
      current := idle;
      rsp0, syscallTop := pool[idle].top, pool[idle].top;
    }

    /** The idle process joins the queue when it is created and leaves it again. */
    method PassThrough(i: nat)
      requires rq.Linked() && i < MAX_PROCESSES && SpellsOut(rq.Links(), [])
      modifies rq, rq.next, rq.prev
      ensures rq.Linked() && SpellsOut(rq.Links(), [])
    {
      hide SpellsOut, Ranged, Added, Removed;
      rq.Add(i);
      rq.Remove(i);
      WithoutLast([], i);
    }

    // ---------------------------------------------------------- runs

    /** A step that adds a process to the queue that is on it already. */
    ghost predicate Doubles(s: Action)
      reads this, pool
    {
      match s
      case Key => WakesOneQueued(pool[..], shell, q)
      case QueueUp(i) => i in q
      case ExitWith(_) =>
        0 <= current < pool.Length && pool[current].pid != IDLE_PID && WakesQueued(pool[..], q, current)
      case _ => false
    }

    /** The steps that never add a process twice. */
    method PlainStep(s: Action)
      requires Valid() && !s.Key? && !s.QueueUp? && !s.ExitWith?
      modifies this, pool, owner, rq, rq.next, rq.prev
      ensures Valid() && nextPid >= old(nextPid)
      ensures nextPid <= SCANNED && old(NoLostWake(pool[..])) ==> NoLostWake(pool[..])
    {
      hide Kernel.Core, Kernel.QueueOk, NoLostWake, Waited, Yielded, Ticked;
      InRange();
      match s {
        case Spawn(kernel, stackOk) => var i := Create(kernel, stackOk);
        case ExecChild(stackOk, loadOk) => var pid := Exec(stackOk, loadOk);
        case Destroy(i) => if i < MAX_PROCESSES && i != current && Live(pool[i]) { Destroy(i); }
        case TakeOff(i) => if i < MAX_PROCESSES { Dequeue(i); }
        case Start(i) => if i < MAX_PROCESSES && Runnable(pool[i]) { SwitchTo(i); }
        case TimeSlice => Tick();
        case YieldNow => Yield();
        case ReadInput => if current != NONE { BlockOnInput(); }
        case Suspend => if current != NONE && pool[current].kernel && pool[current].pid != IDLE_PID { Suspend(); }
        case WaitPid(pid, nohang, copies) =>
          if pid < ANY && (current != NONE ==> !pool[current].kernel) {
            SmallPids(current, Target(pid));
            var r := WaitOnce(pid, nohang, copies);
          }
        case BecomeShell => if current != NONE { SetShell(); }
      }
    }

    /** One kernel step. A valid state stays valid exactly if the step does not add a process that is
        queued already; after one that does, no reading of the links gives a queue of processes
        that may be queued. */
    method Step(s: Action)
      requires Valid()
      modifies this, pool, owner, rq, rq.next, rq.prev
      ensures Valid() <==> !old(Doubles(s))
      ensures old(Doubles(s)) ==> forall r :: SpellsOut(rq.Links(), r) ==> !Queued(pool[..], r)
      ensures nextPid >= old(nextPid)
      ensures Valid() && nextPid <= SCANNED && old(NoLostWake(pool[..])) ==> NoLostWake(pool[..])
      ensures s.Key? ==> forall k :: 0 <= k < MAX_PROCESSES && old(Waiting(pool[k])) ==>
                pool[k] == old(pool[k]) && (k in q <==> k in old(q))
    {
      hide Kernel.Core, Kernel.QueueOk, NoLostWake, SpellsOut, Queued, WakesQueued, WakesOneQueued, RanNext, LeftPool,
           LeftLinks, LeftQueue, IsWaiter, AllWoken, Wakers, AddedAll;
      InRange();
      QueueFacts();
      match s {
        case Key =>
          WakeAllBlocked();
          QueueFacts();
        case QueueUp(i) => if i < MAX_PROCESSES { QueueAgain(i); }
        case ExitWith(status) =>
          if current != NONE && pool[current].pid != IDLE_PID { var w := Exit(status); }
        case _ => PlainStep(s);
      }
    }

    /** Whether the links hold process i. */
    method IsQueued(i: nat) returns (b: bool)
      requires Valid() && i < MAX_PROCESSES
      ensures b <==> i in q
    {
      hide Good, SpellsOut, Ranged;
      OnQueue(rq.Links(), q, i);
      b := rq.next[i] != NONE || rq.prev[i] != NONE || rq.head == i;
    }

    /** Whether a key would wake a process on the queue. */
    method KeyDoubles() returns (b: bool)
      requires Valid()
      ensures b <==> WakesOneQueued(pool[..], shell, q)
    {
      hide Kernel.Core, Kernel.QueueOk;
      InRange();
      var i := 0;
      while i < MAX_PROCESSES
        invariant 0 <= i <= MAX_PROCESSES
        invariant forall k :: 0 <= k < i && k in q ==> !Wakes(pool[..][k], k == shell)
      {
        var on := IsQueued(i);
        if on && i != shell && pool[i].state == Blocked && !pool[i].waits {
          assert Wakes(pool[..][i], i == shell);
          return true;
        }
        i := i + 1;
      }
      b := false;
    }

    /** Whether the exit of the running process would wake a parent on the queue. */
    method ExitDoubles() returns (b: bool)
      requires Valid() && current != NONE
      ensures b <==> WakesQueued(pool[..], q, current)
    {
      hide Kernel.Core, Kernel.QueueOk;
      InRange();
      OnePid();
      if pool[current].parent == 0 { return false; }
      var w := FindByPid(pool[current].parent);
      if w == NONE { return false; }
      var on := IsQueued(w);
      b := && on && w != current && pool[w].state == Blocked && pool[w].waits
           && (pool[w].waitPid == ANY || pool[w].waitPid == pool[current].pid);
      assert b ==> AwaitsExit(pool[..], current, w);
    }

    lemma OnePid()
      requires Valid()
      ensures forall i, j :: 0 <= i < j < MAX_PROCESSES && Live(pool[i]) && Live(pool[j]) ==> pool[i].pid != pool[j].pid
    {
      hide SpellsOut, Ranged, SlotsOk, LogOk, Tied, KernelOk;
    }

    /** Whether a step adds a process that is on the queue. */
    method Doubling(s: Action) returns (b: bool)
      requires Valid()
      ensures b <==> Doubles(s)
    {
      hide Kernel.Core, Kernel.QueueOk;
      InRange();
      match s {
        case Key => b := KeyDoubles();
        case QueueUp(i) => if i < MAX_PROCESSES { b := IsQueued(i); } else { b := false; }
        case ExitWith(_) =>
          if current != NONE && pool[current].pid != IDLE_PID { b := ExitDoubles(); } else { b := false; }
        case _ => b := false;
      }
    }

    /** Every run from boot, up to the first step that adds a process which is on the queue: the
        table, the stacks, the queue and the log of exits and reaps stay in order, and while no pid
        reaches 1000 no process is ever blocked in waitpid with a zombie to reap. */
    method Run(steps: seq<Action>) returns (done: nat)
      requires Sized()
      modifies this, pool, owner, rq, rq.next, rq.prev
      ensures Valid() && (nextPid <= SCANNED ==> NoLostWake(pool[..]))
      ensures done <= |steps| && (done < |steps| ==> Doubles(steps[done]))
    {
      hide Kernel.Core, Kernel.QueueOk, NoLostWake, Kernel.Doubles;
      Boot();
      done := 0;
      while done < |steps|
        invariant done <= |steps| && Valid() && (nextPid <= SCANNED ==> NoLostWake(pool[..]))
      {
        var b := Doubling(steps[done]);
        if b { return; }
        Step(steps[done]);
        done := done + 1;
      }
    }
  }

  /** The kernel's steps: what the kernel shell does to processes, interrupts, and system calls of the
      running process. */
  datatype Action =
    | Spawn(kernel: bool, stackOk: bool)
    | Destroy(i: nat)
    | QueueUp(i: nat)
    | TakeOff(i: nat)
    | Start(i: nat)
    | Suspend
    | BecomeShell
    | Key
    | TimeSlice
    | YieldNow
    | ExecChild(stackOk: bool, loadOk: bool)
    | ReadInput
    | WaitPid(pid: int, nohang: bool, copies: bool)
    | ExitWith(status: int)

  predicate NewChild(p: Pcb, pid: int, parent: nat)
  {
    HasStack(p) && p.state == Ready && p.pid == pid && p.parent == parent && !p.waits && !p.kernel
  }

  lemma EmptyGood(pool: seq<Pcb>, owner: seq<int>)
    requires |pool| == |owner| == MAX_PROCESSES
    requires forall k :: 0 <= k < MAX_PROCESSES ==> !Live(pool[k]) && owner[k] == NONE
    ensures Good(pool, owner, IDLE_PID, 0, []) && NoLostWake(pool)
  {
    hide LiveCount;
    NothingLive(pool);
  }

  lemma {:induction false} NothingLive(pool: seq<Pcb>)
    requires forall k :: 0 <= k < |pool| ==> !Live(pool[k])
    ensures LiveCount(pool) == 0
  {
    if pool != [] { NothingLive(pool[..|pool| - 1]); }
  }

  lemma {:induction false} WithoutLast(q: seq<int>, p: int)
    requires p !in q
    ensures Without(q + [p], p) == q
  {
    if q == [] {
      assert q + [p] == [p];
    } else {
      WithoutLast(q[1..], p);
      assert (q + [p])[1..] == q[1..] + [p];
    }
  }

  // ------------------------------------------------------------ waiting

  function Target(pid: int): nat { if pid <= 0 then ANY else pid }

  /** Child k of process `self` that sys_waitpid looks at for a target. */
  predicate Child(pool: seq<Pcb>, self: int, target: nat, k: int)
  {
    && 0 <= k < |pool| && 0 <= self < |pool| && Live(pool[k]) && pool[k].pid < SCANNED
    && pool[k].parent == pool[self].pid && (target == ANY || pool[k].pid == target)
  }

  /** A zombie child of `self` that the target names and that has a pid beyond the scan. */
  predicate Unseen(pool: seq<Pcb>, self: int, target: nat, k: int)
  {
    && 0 <= k < |pool| && 0 <= self < |pool| && pool[k].state == Zombie && pool[k].pid >= SCANNED
    && pool[k].parent == pool[self].pid && (target == ANY || pool[k].pid == target)
  }

  /** What one pass of waitpid does: the zombie of least pid is reaped, by the caller; failing that
      it says so, or blocks. */
  ghost predicate Waited(p0: seq<Pcb>, log0: seq<Event>, me: int, target: nat, nohang: bool, copies: bool,
                   r: WaitResult, p1: seq<Pcb>, log1: seq<Event>)
    requires 0 <= me < |p0| == |p1|
  {
    match r
    case NoChild => log1 == log0 && p1 == p0 && !exists k :: Child(p0, me, target, k)
    case NotYet => log1 == log0 && p1 == p0 && nohang && NoneToReap(p0, me, target)
    case Waits =>
      && log1 == log0 && !nohang && NoneToReap(p0, me, target)
      && p1[me] == p0[me].(state := Blocked, waits := true, waitPid := target)
      && forall k :: 0 <= k < |p0| && !Runnable(p0[k]) ==> p1[k] == p0[k]
    case _ =>
      && (r.Reap? <==> copies)
      && exists z :: Child(p0, me, target, z) && LeastZombie(p0, me, target, z)
                     && (r.Reap? ==> r == Reap(p0[z].pid, p0[z].status))
                     && p1 == p0[z := Gone(p0[z])]
                     && log1 == log0 + [Reaped(p0[z].pid, p0[me].pid, p0[z].status)]
  }

  /** waitpid for one pid, in terms of that pid: what is reaped or waited for is the child with it, and
      there is none exactly if no live child with a pid below 1000 has it. */
  ghost predicate WaitedForOne(p0: seq<Pcb>, me: int, pid: nat, r: WaitResult, p1: seq<Pcb>)
    requires 0 <= me < |p0| == |p1|
  {
    && (r.Reap? ==> r.pid == pid)
    && (r.Reap? || r.CopyFailed? ==> exists z :: 0 <= z < |p0| && ReapedAt(p0, me, z, r, p1) && p0[z].pid == pid)
    && (r.Waits? ==> p1[me].state == Blocked && p1[me].waits && p1[me].waitPid == pid)
    && (r.NoChild? <==> forall k :: 0 <= k < |p0| && ScannedChild(p0, me, k) ==> p0[k].pid != pid)
  }

  /** waitpid for any child: the zombie of least pid among all the children it looks at is reaped. */
  ghost predicate WaitedForAny(p0: seq<Pcb>, me: int, r: WaitResult, p1: seq<Pcb>)
    requires 0 <= me < |p0| == |p1|
  {
    && (r.Reap? || r.CopyFailed? ==>
          exists z :: 0 <= z < |p0| && ReapedAt(p0, me, z, r, p1)
                      && forall k :: 0 <= k < |p0| && ScannedChild(p0, me, k) && p0[k].state == Zombie ==>
                           p0[z].pid <= p0[k].pid)
    && (r.Waits? ==> p1[me].state == Blocked && p1[me].waits && p1[me].waitPid == ANY)
    && (r.NoChild? <==> forall k :: 0 <= k < |p0| ==> !ScannedChild(p0, me, k))
  }

  /** Entry z was a zombie child of `me` and is gone; its status is what is returned. */
  predicate ReapedAt(p0: seq<Pcb>, me: int, z: int, r: WaitResult, p1: seq<Pcb>)
    requires 0 <= me < |p0| == |p1| && 0 <= z < |p0|
  {
    && ScannedChild(p0, me, z) && p0[z].state == Zombie && p1[z].state == Unused
    && (r.Reap? ==> r.pid == p0[z].pid && r.status == p0[z].status)
    && forall k :: 0 <= k < |p0| && k != z ==> p1[k] == p0[k]
  }

  predicate ScannedChild(pool: seq<Pcb>, me: int, k: int)
    requires 0 <= me < |pool| && 0 <= k < |pool|
  {
    pool[k].state != Unused && pool[k].parent == pool[me].pid && pool[k].pid < 1000
  }

  lemma WaitMeans(p0: seq<Pcb>, log0: seq<Event>, me: int, pid: int, nohang: bool, copies: bool,
                  r: WaitResult, p1: seq<Pcb>, log1: seq<Event>)
    requires 0 <= me < |p0| == |p1| && pid < ANY
    requires Waited(p0, log0, me, Target(pid), nohang, copies, r, p1, log1)
    ensures pid > 0 ==> WaitedForOne(p0, me, pid, r, p1)
    ensures pid <= 0 ==> WaitedForAny(p0, me, r, p1)
  {
    forall k | 0 <= k < |p0|
      ensures Child(p0, me, Target(pid), k) <==> ScannedChild(p0, me, k) && (pid > 0 ==> p0[k].pid == pid)
    {
    }
    if r.Reap? || r.CopyFailed? {
      var z :| Child(p0, me, Target(pid), z) && LeastZombie(p0, me, Target(pid), z)
               && (r.Reap? ==> r == Reap(p0[z].pid, p0[z].status)) && p1 == p0[z := Gone(p0[z])];
      assert ReapedAt(p0, me, z, r, p1);
    }
  }

  lemma UnseenFor(pool: seq<Pcb>, me: int, pid: int)
    requires pid < ANY
    ensures (exists k :: Unseen(pool, me, Target(pid), k)) <==>
              exists k :: Unseen(pool, me, ANY, k) && (pid > 0 ==> pool[k].pid == pid)
  {
    if k :| Unseen(pool, me, Target(pid), k) { assert Unseen(pool, me, ANY, k); }
    if k :| Unseen(pool, me, ANY, k) && (pid > 0 ==> pool[k].pid == pid) { assert Unseen(pool, me, Target(pid), k); }
  }

  ghost predicate LeastZombie(pool: seq<Pcb>, me: int, target: nat, z: int)
  {
    && 0 <= z < |pool| && pool[z].state == Zombie
    && forall k :: Child(pool, me, target, k) && pool[k].state == Zombie ==> pool[z].pid <= pool[k].pid
  }

  ghost predicate NoneToReap(pool: seq<Pcb>, me: int, target: nat)
  {
    && (exists k :: Child(pool, me, target, k))
    && forall k :: Child(pool, me, target, k) ==> pool[k].state != Zombie
  }

  /** A process that blocks in waitpid after a scan without a zombie loses a wake-up exactly if an
      unseen zombie is there, and the yield that follows neither repairs nor causes it. */
  lemma YieldLoses(p0: seq<Pcb>, p1: seq<Pcb>, q1: seq<int>, me: nat, target: nat, p2: seq<Pcb>, q2: seq<int>, now: int)
    requires me < |p0| && Runnable(p0[me]) && (target == ANY || target < ANY) && |p2| == |p0|
    requires p1 == p0[me := p0[me].(state := Blocked, waits := true, waitPid := target)]
    requires forall k :: Child(p0, me, target, k) ==> p0[k].state != Zombie
    requires Yielded(p1, q1, me, p2, q2, now) && Runnable(p1[now])
    requires NoLostWake(p1) ==> NoLostWake(p2)
    ensures p2[me] == p1[me] && forall k :: 0 <= k < |p0| && !Runnable(p0[k]) ==> p2[k] == p0[k]
    ensures NoLostWake(p0) ==> (NoLostWake(p2) <==> !exists k :: Unseen(p0, me, target, k))
  {
    assert p2[me] == p1[me] && forall k :: 0 <= k < |p0| && k != now ==> p2[k] == p1[k];
    if k :| Unseen(p0, me, target, k) {
      assert k != me && k != now && p2[k] == p0[k];
      assert Waiting(p2[me]) && p2[k].state == Zombie && Matches(p2[me], p2[k]);
    } else if NoLostWake(p0) {
      forall i, j | 0 <= i < |p1| && 0 <= j < |p1| && Waiting(p1[i]) && p1[j].state == Zombie
        ensures !Matches(p1[i], p1[j])
      {
        assert j != me && p1[j] == p0[j];
        if i == me {
          assert !Unseen(p0, me, target, j);
          assert !Child(p0, me, target, j);
        } else {
          assert !Matches(p0[i], p0[j]);
        }
      }
    }
  }

  // ------------------------------------------------------------ switching

  /** A process that was running is ready again. */
  function Stopped(pool: seq<Pcb>, prev: int): seq<Pcb>
    requires prev == NONE || 0 <= prev < |pool|
  {
    if prev != NONE && pool[prev].state == Running then pool[prev := pool[prev].(state := Ready)] else pool
  }

  /** A switch: the process that was running is ready again, the new one runs. */
  function Switched(pool: seq<Pcb>, prev: int, n: int): seq<Pcb>
    requires 0 <= n < |pool| && (prev == NONE || 0 <= prev < |pool|)
  {
    var p1 := Stopped(pool, prev);
    p1[n := p1[n].(state := Running)]
  }

  /** A switch that is not made: to nothing, to the same process, or to idle from a running one. */
  predicate StaysOn(pool: seq<Pcb>, current: int, n: int)
    requires (n == NONE || 0 <= n < |pool|) && (current == NONE || 0 <= current < |pool|)
  {
    || n == NONE || n == current
    || (pool[n].pid == IDLE_PID && current != NONE && pool[current].state == Running)
  }

  /** The queue once process `prev` stops running: at its end, unless it was not running or is idle. */
  function Requeued(pool: seq<Pcb>, q: seq<int>, prev: int): seq<int>
    requires prev == NONE || 0 <= prev < |pool|
  {
    if prev != NONE && pool[prev].state == Running && pool[prev].pid != IDLE_PID then q + [prev] else q
  }

  /** With nothing to run the idle process runs, or the old one goes on if there is none. */
  predicate Idles(pool: seq<Pcb>, prev: int, n: int)
  {
    if n == prev then forall k :: 0 <= k < |pool| && Live(pool[k]) ==> pool[k].pid != IDLE_PID
    else 0 <= n < |pool| && Live(pool[n]) && pool[n].pid == IDLE_PID
  }

  /** What process_yield makes of a process that is not idle. */
  predicate Yielded(p0: seq<Pcb>, q0: seq<int>, me: int, p1: seq<Pcb>, q1: seq<int>, now: int)
    requires |p0| == |p1| && 0 <= me < |p0|
  {
    0 <= now < |p0| &&
    var (p, r) := (Stopped(p0, me), Requeued(p0, q0, me));
    if r != [] then now == r[0] && q1 == r[1..] && p1 == (if now == me then p else Switched(p, me, now))
    else if p[me].state == Ready then now == me && q1 == [me] && p1 == p
    else Idles(p0, me, now) && q1 == [] && p1 == (if now == me then p else Switched(p, me, now))
  }

  /** What the end of the time slice makes of the process it interrupts. */
  predicate Ticked(p0: seq<Pcb>, q0: seq<int>, me: int, p1: seq<Pcb>, q1: seq<int>, now: int)
    requires |p0| == |p1| && 0 <= me < |p0|
  {
    0 <= now < |p0| &&
    var prev := if p0[me].pid == IDLE_PID then NONE else me;
    if q0 != [] then now == q0[0] && q1 == Requeued(p0, q0[1..], prev) && p1 == Switched(p0, prev, now)
    else if now == me then Idles(p0, me, me) && q1 == [] && p1 == p0
    else Idles(p0, me, now) && q1 == Requeued(p0, [], prev) && p1 == Switched(p0, prev, now)
  }

  /** A process that had the processor and now has not: it is ready, at the end of the queue; only it
      and the process that runs now changed, and that one is running and not queued. */
  predicate HandedOver(p0: seq<Pcb>, me: int, p1: seq<Pcb>, q1: seq<int>, now: int)
    requires |p0| == |p1| && 0 <= me < |p0| && 0 <= now < |p0|
  {
    && p1[now] == p0[now].(state := Running) && now !in q1
    && (p0[me].state == Running && p0[me].pid != IDLE_PID && me != now ==>
          p1[me] == p0[me].(state := Ready) && q1 != [] && q1[|q1| - 1] == me)
    && (p0[me].state != Running && me != now ==> p1[me] == p0[me])
    && forall k :: 0 <= k < |p0| && k != me && k != now ==> p1[k] == p0[k]
  }

  /** The end of a time slice hands over to the head of the queue, and to the idle process if there is
      no head. */
  lemma TickMeans(p0: seq<Pcb>, q0: seq<int>, me: int, p1: seq<Pcb>, q1: seq<int>, now: int)
    requires |p0| == |p1| && 0 <= me < |p0| && Ticked(p0, q0, me, p1, q1, now) && now !in q1
    ensures q0 != [] ==> now == q0[0] && HandedOver(p0, me, p1, q1, now) && q0[1..] <= q1
    ensures q0 == [] && now != me ==> p0[now].pid == IDLE_PID && HandedOver(p0, me, p1, q1, now)
  {
  }

  /** A yield hands over to the head of the queue; a process that is alone on it goes on, ready; and a
      blocked one leaves the processor to the idle process. */
  lemma YieldMeans(p0: seq<Pcb>, q0: seq<int>, me: int, p1: seq<Pcb>, q1: seq<int>, now: int)
    requires |p0| == |p1| && 0 <= me < |p0| && Yielded(p0, q0, me, p1, q1, now) && p0[me].pid != IDLE_PID
    requires now != me ==> now !in q1
    ensures q0 != [] && now != me ==> now == q0[0] && HandedOver(p0, me, p1, q1, now)
    ensures q0 == [] && p0[me].state == Running ==> now == me && q1 == [] && p1 == p0[me := p0[me].(state := Ready)]
    ensures q0 == [] && p0[me].state == Ready ==> now == me && q1 == [me] && p1 == p0
    ensures q0 == [] && p0[me].state == Blocked && now != me ==>
              p0[now].pid == IDLE_PID && HandedOver(p0, me, p1, q1, now)
  {
  }

  /** Whether a key wakes a process, and what it does to it. */
  predicate Wakes(p: Pcb, isShell: bool) { !isShell && p.state == Blocked && !p.waits }

  function Woken(p: Pcb, isShell: bool): Pcb { if Wakes(p, isShell) then p.(state := Ready) else p }

  /** A key wakes a process that is still on the queue. */
  predicate WakesOneQueued(pool: seq<Pcb>, shell: int, q: seq<int>)
  {
    exists k :: k in q && 0 <= k < |pool| && Wakes(pool[k], k == shell)
  }

  /** The processes below n that a key wakes, in the order of the pool. */
  function Wakers(pool: seq<Pcb>, shell: int, n: nat): (ws: seq<int>)
    requires n <= |pool|
    ensures forall k :: 0 <= k < |ws| ==> 0 <= ws[k] < n && Wakes(pool[ws[k]], ws[k] == shell)
    ensures forall i, j :: 0 <= i < j < |ws| ==> ws[i] != ws[j]
    ensures forall x :: 0 <= x < n && Wakes(pool[x], x == shell) ==> x in ws
  {
    if n == 0 then []
    else if Wakes(pool[n - 1], n - 1 == shell) then Wakers(pool, shell, n - 1) + [n - 1]
    else Wakers(pool, shell, n - 1)
  }

  /** The table with everyone below n woken that a key wakes. */
  function AllWoken(pool: seq<Pcb>, shell: int, n: nat): (r: seq<Pcb>)
    requires n <= |pool|
    ensures |r| == |pool|
  {
    seq(|pool|, k requires 0 <= k < |pool| => if k < n then Woken(pool[k], k == shell) else pool[k])
  }

  /** What a key does to one process: only one that is blocked, not in waitpid and not the kernel shell,
      is woken and queued. */
  predicate KeyEffect(p: Pcb, isShell: bool, queued: bool, p': Pcb, queued': bool)
  {
    if p.state == Blocked && !p.waits && !isShell then p' == p.(state := Ready) && queued'
    else p' == p && queued' == queued
  }

  lemma WhoWakes(pool: seq<Pcb>, shell: int, q: seq<int>, k: nat)
    requires k < |pool|
    ensures KeyEffect(pool[k], k == shell, k in q,
                      AllWoken(pool, shell, |pool|)[k], k in q + Wakers(pool, shell, |pool|))
  {
  }

  lemma NoWakers(pool: seq<Pcb>, shell: int, q: seq<int>, l: Queue)
    requires Ranged(l)
    ensures AllWoken(pool, shell, 0) == pool && q + Wakers(pool, shell, 0) == q
    ensures AddedAll(l, Wakers(pool, shell, 0)) == l
  {
  }

  lemma WakersStep(pool: seq<Pcb>, shell: int, i: nat, q: seq<int>, l: Queue)
    requires |pool| == MAX_PROCESSES && i < MAX_PROCESSES && Ranged(l)
    ensures var ws, r := Wakers(pool, shell, i), Wakers(pool, shell, i + 1);
      && AllWoken(pool, shell, i + 1) == AllWoken(pool, shell, i)[i := Woken(pool[i], i == shell)]
      && if Wakes(pool[i], i == shell)
         then q + r == (q + ws) + [i] && Added(AddedAll(l, ws), i) == AddedAll(l, r)
         else r == ws
  {
    var ws := Wakers(pool, shell, i);
    assert (ws + [i as int])[..|ws|] == ws;
  }

  /** After a key: a queue exactly if no one woken was on it. */
  lemma WokenQueue(p0: seq<Pcb>, p1: seq<Pcb>, shell: int, l: Queue, q: seq<int>)
    requires |p0| == |p1| == MAX_PROCESSES && Ranged(l) && SpellsOut(l, q) && Queued(p0, q)
    requires p1 == AllWoken(p0, shell, MAX_PROCESSES)
    requires forall k :: 0 <= k < MAX_PROCESSES && p0[k].state == Blocked ==> p0[k].pid != IDLE_PID
    ensures var ws := Wakers(p0, shell, MAX_PROCESSES);
      SpellsOut(AddedAll(l, ws), q + ws) && Queued(p1, q + ws)
      <==> !WakesOneQueued(p0, shell, q)
  {
    hide SpellsOut, AddedAll, Ranged, Wakers;
    var ws := Wakers(p0, shell, MAX_PROCESSES);
    if WakesOneQueued(p0, shell, q) {
      WokenBreaks(p0, shell, l, q, q + ws);
    } else {
      AddedFresh(l, q, ws);
    }
  }

  lemma WokenBreaks(pool: seq<Pcb>, shell: int, l: Queue, q: seq<int>, r: seq<int>)
    requires |pool| == MAX_PROCESSES && Ranged(l) && SpellsOut(l, q) && WakesOneQueued(pool, shell, q)
    ensures !SpellsOut(AddedAll(l, Wakers(pool, shell, MAX_PROCESSES)), r)
  {
    hide SpellsOut, AddedAll, Ranged, Wakers;
    var ws := Wakers(pool, shell, MAX_PROCESSES);
    var k :| k in q && 0 <= k < |pool| && Wakes(pool[k], k == shell);
    assert k in ws;
    AddedBreaks(l, q, ws, r);
  }

  /** The parent of `me` that waits for it, if there is one. */
  predicate IsWaiter(pool: seq<Pcb>, me: int, w: int)
    requires 0 <= me < |pool|
  {
    && (w != NONE ==> 0 <= w < |pool| && w != me && AwaitsExit(pool, me, w))
    && forall k :: 0 <= k < |pool| && k != me && AwaitsExit(pool, me, k) ==> k == w
  }

  predicate AwaitsExit(pool: seq<Pcb>, me: int, k: int)
    requires 0 <= me < |pool| && 0 <= k < |pool|
  {
    pool[me].parent != 0 && Waiting(pool[k]) && Matches(pool[k], pool[me])
  }

  /** Process p is blocked in waitpid for child c, by its pid or for any. */
  predicate WaitsFor(p: Pcb, c: Pcb)
  {
    p.state == Blocked && p.waits && c.parent != 0 && c.parent == p.pid && (p.waitPid == ANY || p.waitPid == c.pid)
  }

  /** What the exit of c makes of another process: only one that waits for c becomes ready. */
  predicate ExitEffect(p: Pcb, c: Pcb, p': Pcb)
  {
    if WaitsFor(p, c) then p' == p.(state := Ready, waits := false, waitPid := 0) else p' == p
  }

  /** What an exit leaves of the process itself: a zombie with its status for the parent, or nothing. */
  predicate ExitLeaves(c: Pcb, status: int, c': Pcb)
  {
    if c.parent != 0 then c' == c.(state := Zombie, status := status) else c'.state == Unused && c'.pid == 0
  }

  lemma LeaveMeans(pool: seq<Pcb>, me: int, status: int, w: int, k: int)
    requires 0 <= me < |pool| && 0 <= k < |pool| && IsWaiter(pool, me, w) && (w == NONE || pool[me].parent != 0)
    ensures var p := LeftPool(pool, me, status, w)[k];
      if k == me then ExitLeaves(pool[me], status, p) else ExitEffect(pool[k], pool[me], p)
    ensures k != me && WaitsFor(pool[k], pool[me]) ==> k == w
  {
    if k != me && WaitsFor(pool[k], pool[me]) { assert AwaitsExit(pool, me, k); }
  }

  /** The exit of `me` wakes a process that is still on the queue. */
  predicate WakesQueued(pool: seq<Pcb>, q: seq<int>, me: int)
    requires 0 <= me < |pool|
  {
    exists k :: k in q && 0 <= k < |pool| && k != me && AwaitsExit(pool, me, k)
  }

  /** What an exit makes of the table, the links and the queue before another process runs. */
  function LeftPool(pool: seq<Pcb>, me: int, status: int, w: int): (r: seq<Pcb>)
    requires 0 <= me < |pool| && (w == NONE || 0 <= w < |pool|)
    ensures |r| == |pool|
  {
    if pool[me].parent == 0 then pool[me := Gone(pool[me])]
    else
      var p := pool[me := pool[me].(state := Zombie, status := status)];
      if w == NONE then p else p[w := Resumed(p[w])]
  }

  function LeftLinks(l: Queue, me: int, w: int): (r: Queue)
    requires Ranged(l) && 0 <= me < MAX_PROCESSES && IsLink(w)
    ensures Ranged(r)
  {
    RangedOn(l, me);
    if w == NONE then Removed(l, me) else Added(Removed(l, me), w)
  }

  function LeftQueue(q: seq<int>, me: int, w: int): seq<int>
  {
    if w == NONE then Without(q, me) else Without(q, me) + [w]
  }

  function Rest(q: seq<int>): seq<int> { if q == [] then [] else q[1..] }

  /** The end of an exit: the head of the links runs on its own stack. */
  predicate RanNext(l: Queue, p: seq<Pcb>, kernel: bool, shell: int,
                    l1: Queue, p1: seq<Pcb>, current: int, rsp0: nat, syscallTop: nat)
    requires Ranged(l) && |p| == MAX_PROCESSES
  {
    if l.head != NONE
    then && l1 == Taken(l) && current == l.head && p1 == p[l.head := p[l.head].(state := Running)]
         && rsp0 == syscallTop == p[l.head].top
    else Fallen(p, p1, kernel, shell, current, rsp0)
  }

  /** What happens with nothing to run. */
  predicate Fallen(p: seq<Pcb>, p1: seq<Pcb>, kernel: bool, shell: int, current: int, rsp0: nat)
  {
    if kernel && 0 <= shell < |p| && p[shell].state == Blocked
    then current == shell && p1 == p[shell := p[shell].(state := Running)] && rsp0 == p[shell].top
    else current == NONE && p1 == p && forall k :: 0 <= k < |p| && Live(p[k]) && p[k].pid == IDLE_PID ==>
      rsp0 == p[k].top
  }

  lemma {:induction false} WithoutKeeps(q: seq<int>, p: int, x: int)
    requires x in q && x != p
    ensures x in Without(q, p)
  {
    if q[0] == p {
      assert q == [p] + q[1..];
    } else if x != q[0] {
      assert q == [q[0]] + q[1..];
      WithoutKeeps(q[1..], p, x);
    }
  }

  /** A woken parent that was on the queue spoils it: what runs next is still linked, or nothing that
      the links spell out is a queue. */
  lemma ExitBreaks(l: Queue, q: seq<int>, me: int, w: int, r: seq<int>, pool: seq<Pcb>)
    requires Ranged(l) && SpellsOut(l, q) && w in q && w != me && 0 <= me < MAX_PROCESSES && 0 <= w < MAX_PROCESSES
    requires |pool| == MAX_PROCESSES
    ensures var l1 := LeftLinks(l, me, w);
      && Ranged(l1) && l1.head != NONE
      && (SpellsOut(Taken(l1), r) ==> !Queued(pool[l1.head := pool[l1.head].(state := Running)], r))
  {
    hide SpellsOut, Ranged, Removed, Taken, Without;
    RangedOn(l, me);
    RemovedOne(l, q, me);
    WithoutKeeps(q, me, w);
    TakenAgain(Removed(l, me), Without(q, me), w, r);
    InRangeOf(Removed(l, me), Without(q, me), Without(q, me)[0]);
  }

  /** A process became a zombie and the parent that waited for it was woken: no wake-up is lost. */
  lemma ParentWoken(p0: seq<Pcb>, p1: seq<Pcb>, p2: seq<Pcb>, c: nat, w: int)
    requires c < |p0| == |p1| && p1 == p0[c := p1[c]] && p1[c].state == Zombie
    requires p1[c].parent == p0[c].parent != 0 && p1[c].pid == p0[c].pid
    requires w != NONE ==> 0 <= w < |p1| && AwaitsExit(p1, c, w)
    requires forall k :: 0 <= k < |p1| && AwaitsExit(p1, c, k) ==> k == w
    requires p2 == if w == NONE then p1 else p1[w := Resumed(p1[w])]
    ensures IsWaiter(p0, c, w) && (NoLostWake(p0) ==> NoLostWake(p2))
  {
    forall k | 0 <= k < |p0| && k != c && AwaitsExit(p0, c, k) ensures k == w { assert AwaitsExit(p1, c, k); }
    if NoLostWake(p0) {
      forall i, j | 0 <= i < |p2| && 0 <= j < |p2| && Waiting(p2[i]) && p2[j].state == Zombie
        ensures !Matches(p2[i], p2[j])
      {
        assert p2[i] == p1[i] && p2[j] == p1[j];
        if j != c { assert !Matches(p0[i], p0[j]); } else { assert !AwaitsExit(p1, c, i); }
      }
    }
  }

  /** A waiter whose child has exited. */
  function Resumed(p: Pcb): Pcb { p.(state := Ready, waits := false, waitPid := 0) }

  /** An entry that was given back. */
  function Gone(p: Pcb): Pcb { p.(state := Unused, pid := 0, slot := NONE, top := 0) }

  predicate FirstUnused(pool: seq<Pcb>, i: int)
  {
    0 <= i < |pool| && !Live(pool[i]) && forall k :: 0 <= k < i ==> Live(pool[k])
  }

  /** A process as process_create leaves it. */
  predicate NewPcb(p: Pcb, pid: nat, kernel: bool)
  {
    p.pid == pid && p.state == Ready && p.parent == 0 && p.status == 0 && !p.waits && p.kernel == kernel
  }

  lemma GoodBehaves(pool: seq<Pcb>, owner: seq<int>, nextPid: nat, count: nat, log: seq<Event>, i: nat)
    requires Good(pool, owner, nextPid, count, log) && i < |pool| && Live(pool[i])
    ensures Behaves(pool[i])
  {
  }

  lemma FirstLeaves(l: Queue, q: seq<int>)
    requires SpellsOut(l, q) && q != []
    ensures 0 <= q[0] < MAX_PROCESSES && q[0] !in q[1..]
  {
    hide Links, Unlinked, Ends;
    forall k | 0 <= k < |q[1..]| ensures q[1..][k] != q[0] { assert q[1..][k] == q[k + 1]; }
  }

  lemma GoodPids(pool: seq<Pcb>, owner: seq<int>, nextPid: nat, count: nat, log: seq<Event>)
    requires Good(pool, owner, nextPid, count, log)
    ensures PidsOk(pool, nextPid)
  {
  }

  lemma GoodSlots(pool: seq<Pcb>, owner: seq<int>, nextPid: nat, count: nat, log: seq<Event>)
    requires Good(pool, owner, nextPid, count, log)
    ensures SlotsOk(pool, owner)
  {
  }
}
