/** Exit and wait: which child a waiter waits for, and what exits and reaps leave behind. */
module ProcWait {
  import opened ProcTable

  /** Child c is one that process p waits for. */
  predicate Matches(p: Pcb, c: Pcb) { c.parent == p.pid && (p.waitPid == ANY || p.waitPid == c.pid) }

  predicate Waiting(p: Pcb) { p.state == Blocked && p.waits }

  /** No process is blocked in waitpid while a child it waits for is a zombie. */
  predicate NoLostWake(pool: seq<Pcb>)
  {
    forall i, j :: 0 <= i < |pool| && 0 <= j < |pool| && Waiting(pool[i]) && pool[j].state == Zombie ==>
      !Matches(pool[i], pool[j])
  }

  /** What is remembered: an exit of a process with a parent, a reap by the process that called
      waitpid, and a process destroyed by the kernel. */
  datatype Event =
    | Exited(pid: nat, parent: nat, status: int)
    | Reaped(pid: nat, caller: nat, status: int)
    | Destroyed(pid: nat)

  /** Every reap is of a process that exited before, by its parent and with the status it left;
      nothing exits twice, and what was reaped or destroyed is not heard of again. */
  predicate LogOk(log: seq<Event>)
  {
    && (forall j :: 0 <= j < |log| && log[j].Reaped? ==> Exited(log[j].pid, log[j].caller, log[j].status) in log[..j])
    && (forall i, j :: 0 <= i < j < |log| && log[i].pid == log[j].pid ==> log[i].Exited? && !log[j].Exited?)
  }

  /** Zombies have exited and have not been reaped; the other processes have not exited. */
  predicate Tied(pool: seq<Pcb>, log: seq<Event>, nextPid: nat)
  {
    && (forall e :: e in log ==> 0 < e.pid < nextPid)
    && (forall i, e :: 0 <= i < |pool| && e in log && Live(pool[i]) && e.pid == pool[i].pid ==>
          pool[i].state == Zombie && e == Exited(pool[i].pid, pool[i].parent, pool[i].status))
    && (forall i :: 0 <= i < |pool| && pool[i].state == Zombie ==>
          Exited(pool[i].pid, pool[i].parent, pool[i].status) in log)
  }

  /** The idle process is a kernel thread, never blocks, never exits and has no parent; kernel threads, which make
      no system calls, never wait. */
  predicate KernelOk(pool: seq<Pcb>)
  {
    forall i :: 0 <= i < |pool| && Live(pool[i]) ==> Behaves(pool[i])
  }

  predicate Behaves(p: Pcb)
  {
    && (p.pid == IDLE_PID ==> (p.state == Ready || p.state == Running) && p.parent == 0 && p.kernel)
    && (p.kernel ==> !p.waits)
  }

  predicate Good(pool: seq<Pcb>, owner: seq<int>, nextPid: nat, count: nat, log: seq<Event>)
  {
    Table(pool, owner, nextPid, count) && LogOk(log) && Tied(pool, log, nextPid) && KernelOk(pool)
  }

  /** A process changes its state, its parent or what it waits for, but neither dies nor exits. */
  lemma GoodChanged(pool: seq<Pcb>, owner: seq<int>, nextPid: nat, count: nat, log: seq<Event>, i: nat, p: Pcb)
    requires Good(pool, owner, nextPid, count, log) && i < |pool| && SamePlace(pool[i], p)
    requires Runnable(pool[i]) && Runnable(p) && Behaves(p)
    ensures Good(pool[i := p], owner, nextPid, count, log)
    ensures NoLostWake(pool) && !Waiting(p) ==> NoLostWake(pool[i := p])
  {
    hide Table, LogOk;
    TableChanged(pool, owner, nextPid, count, i, p);
    TiedChanged(pool, owner, nextPid, count, log, i, p);
  }

  lemma TiedChanged(pool: seq<Pcb>, owner: seq<int>, nextPid: nat, count: nat, log: seq<Event>, i: nat, p: Pcb)
    requires Tied(pool, log, nextPid) && i < |pool| && SamePlace(pool[i], p) && Runnable(pool[i]) && Runnable(p)
    ensures Tied(pool[i := p], log, nextPid)
  {
  }

  lemma GoodNew(pool: seq<Pcb>, owner: seq<int>, nextPid: nat, count: nat, log: seq<Event>, i: nat, p: Pcb)
    requires Good(pool, owner, nextPid, count, log) && i < |pool| && !Live(pool[i])
    requires Runnable(p) && !Waiting(p) && p.pid == nextPid && p.slot == NONE && Behaves(p)
    ensures Good(pool[i := p], owner, nextPid + 1, count + 1, log)
    ensures NoLostWake(pool) ==> NoLostWake(pool[i := p])
  {
    hide Table, LogOk;
    TableNew(pool, owner, nextPid, count, i, p);
  }

  lemma GoodSlot(pool: seq<Pcb>, owner: seq<int>, nextPid: nat, count: nat, log: seq<Event>, i: nat, s: nat)
    requires Good(pool, owner, nextPid, count, log) && i < |pool| && Runnable(pool[i]) && !Waiting(pool[i])
    requires pool[i].slot == NONE
    requires s < |owner| && owner[s] == NONE
    ensures var p := pool[i].(slot := s, top := StackTop(s));
      Good(pool[i := p], owner[s := i], nextPid, count, log) && (NoLostWake(pool) ==> NoLostWake(pool[i := p]))
  {
    hide Table, LogOk;
    TableSlot(pool, owner, nextPid, count, i, s);
  }

  /** A process leaves the table. */
  lemma GoodGone(pool: seq<Pcb>, owner: seq<int>, nextPid: nat, count: nat, log: seq<Event>, i: nat, p: Pcb)
    requires Good(pool, owner, nextPid, count, log) && i < |pool| && Live(pool[i]) && !Live(p)
    ensures count > 0 && Good(pool[i := p], Freed(owner, i, pool[i].slot), nextPid, count - 1, log)
    ensures NoLostWake(pool) ==> NoLostWake(pool[i := p])
  {
    hide Table, LogOk;
    TableGone(pool, owner, nextPid, count, i, p);
  }

  /** A process with a parent exits: it becomes a zombie and the exit is remembered. */
  lemma GoodExit(pool: seq<Pcb>, owner: seq<int>, nextPid: nat, count: nat, log: seq<Event>, i: nat, status: int)
    requires Good(pool, owner, nextPid, count, log) && i < |pool| && Runnable(pool[i]) && pool[i].pid != IDLE_PID
    ensures var p := pool[i].(state := Zombie, status := status);
      Good(pool[i := p], owner, nextPid, count, log + [Exited(p.pid, p.parent, status)])
  {
    hide Table;
    var p := pool[i].(state := Zombie, status := status);
    TableChanged(pool, owner, nextPid, count, i, p);
    TablePids(pool, owner, nextPid, count);
    ExitLog(pool, nextPid, log, i, status);
  }

  lemma TablePids(pool: seq<Pcb>, owner: seq<int>, nextPid: nat, count: nat)
    requires Table(pool, owner, nextPid, count)
    ensures PidsOk(pool, nextPid)
  {
  }

  lemma ExitLog(pool: seq<Pcb>, nextPid: nat, log: seq<Event>, i: nat, status: int)
    requires PidsOk(pool, nextPid) && LogOk(log) && Tied(pool, log, nextPid) && i < |pool| && Runnable(pool[i])
    ensures var p := pool[i].(state := Zombie, status := status); var log' := log + [Exited(p.pid, p.parent, status)];
      LogOk(log') && Tied(pool[i := p], log', nextPid)
  {
    var e := Exited(pool[i].pid, pool[i].parent, status);
    var log' := log + [e];
    forall j | 0 <= j < |log| ensures log[j].pid != e.pid && log'[..j] == log[..j] { assert log[j] in log; }
  }

  /** The parent of zombie z reaps it. */
  lemma GoodReap(pool: seq<Pcb>, owner: seq<int>, nextPid: nat, count: nat, log: seq<Event>, z: nat, caller: nat,
                 p: Pcb)
    requires Good(pool, owner, nextPid, count, log) && z < |pool| && pool[z].state == Zombie && !Live(p)
    requires caller == pool[z].parent
    ensures count > 0 && Good(pool[z := p], Freed(owner, z, pool[z].slot), nextPid, count - 1,
                              log + [Reaped(pool[z].pid, caller, pool[z].status)])
    ensures NoLostWake(pool) ==> NoLostWake(pool[z := p])
  {
    hide Table, LogOk, Tied;
    var e := Reaped(pool[z].pid, caller, pool[z].status);
    GoodGone(pool, owner, nextPid, count, log, z, p);
    TablePids(pool, owner, nextPid, count);
    LastLog(pool, nextPid, log, z, e);
    LastTied(pool, nextPid, log, z, p, e);
  }

  /** The kernel destroys process i. */
  lemma GoodDestroy(pool: seq<Pcb>, owner: seq<int>, nextPid: nat, count: nat, log: seq<Event>, i: nat, p: Pcb)
    requires Good(pool, owner, nextPid, count, log) && i < |pool| && Live(pool[i]) && !Live(p)
    ensures count > 0 && Good(pool[i := p], Freed(owner, i, pool[i].slot), nextPid, count - 1,
                              log + [Destroyed(pool[i].pid)])
    ensures NoLostWake(pool) ==> NoLostWake(pool[i := p])
  {
    hide Table, LogOk, Tied;
    GoodGone(pool, owner, nextPid, count, log, i, p);
    TablePids(pool, owner, nextPid, count);
    LastLog(pool, nextPid, log, i, Destroyed(pool[i].pid));
    LastTied(pool, nextPid, log, i, p, Destroyed(pool[i].pid));
  }

  lemma LastLog(pool: seq<Pcb>, nextPid: nat, log: seq<Event>, z: nat, e: Event)
    requires LogOk(log) && Tied(pool, log, nextPid) && z < |pool| && Live(pool[z]) && e.pid == pool[z].pid && !e.Exited?
    requires e.Reaped? ==> pool[z].state == Zombie && e.caller == pool[z].parent && e.status == pool[z].status
    ensures LogOk(log + [e])
  {
    var log' := log + [e];
    forall j | 0 <= j < |log| ensures log'[..j] == log[..j] && (log[j].pid == e.pid ==> log[j].Exited?) {
      assert log[j] in log;
    }
    assert log'[..|log|] == log;
  }

  lemma LastTied(pool: seq<Pcb>, nextPid: nat, log: seq<Event>, z: nat, p: Pcb, e: Event)
    requires PidsOk(pool, nextPid) && Tied(pool, log, nextPid) && z < |pool| && Live(pool[z]) && !Live(p)
    requires e.pid == pool[z].pid
    ensures Tied(pool[z := p], log + [e], nextPid)
  {
  }
}
