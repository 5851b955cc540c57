/** The process table as a value: process control blocks, kernel stack slots and their owners. */
module ProcTable {
  const MAX_PROCESSES: nat := 32
  const STACK_SIZE: nat := 16384
  const NONE: int := -1
  /** The wait target that matches every child. */
  const ANY: nat := 0xFFFF_FFFF_FFFF_FFFF
  const IDLE_PID: nat := 1

  datatype State = Unused | Ready | Running | Blocked | Zombie | Terminated

  /** The fields of a process control block that the lifecycle uses. `waits` tells a block in
      waitpid from a block on input; `kernel` tells kernel threads from user processes. */
  datatype Pcb = Pcb(pid: nat, state: State, parent: nat, status: int,
                     waits: bool, waitPid: nat, slot: int, top: nat, kernel: bool)

  predicate Live(p: Pcb) { p.state != Unused }

  predicate Runnable(p: Pcb) { p.state == Ready || p.state == Running || p.state == Blocked }

  /** Stack top of a slot, as an offset into the pool of kernel stacks. */
  function StackTop(slot: nat): nat { (slot + 1) * STACK_SIZE }

  predicate HasStack(p: Pcb) { Live(p) && p.slot != NONE }

  predicate PidsOk(pool: seq<Pcb>, nextPid: nat)
  {
    && (forall i :: 0 <= i < |pool| && Live(pool[i]) ==> 0 < pool[i].pid < nextPid)
    && (forall i, j :: 0 <= i < j < |pool| && Live(pool[i]) && Live(pool[j]) ==> pool[i].pid != pool[j].pid)
  }

  /** Slots and stacks are inverse to each other, so no two processes share a stack. */
  predicate SlotsOk(pool: seq<Pcb>, owner: seq<int>)
  {
    && (forall i :: 0 <= i < |pool| && HasStack(pool[i]) ==>
          0 <= pool[i].slot < |owner| && owner[pool[i].slot] == i && pool[i].top == StackTop(pool[i].slot))
    && (forall s :: 0 <= s < |owner| && owner[s] != NONE ==>
          0 <= owner[s] < |pool| && HasStack(pool[owner[s]]) && pool[owner[s]].slot == s)
  }

  predicate Table(pool: seq<Pcb>, owner: seq<int>, nextPid: nat, count: nat)
  {
    && |pool| == |owner| == MAX_PROCESSES && 0 < nextPid
    && PidsOk(pool, nextPid) && SlotsOk(pool, owner) && count == LiveCount(pool)
  }

  function LiveCount(pool: seq<Pcb>): nat
  {
    if pool == [] then 0 else LiveCount(pool[..|pool| - 1]) + (if Live(pool[|pool| - 1]) then 1 else 0)
  }

  lemma {:induction false} LiveCountUpdate(pool: seq<Pcb>, i: nat, p: Pcb)
    requires i < |pool|
    ensures LiveCount(pool[i := p]) == LiveCount(pool) - (if Live(pool[i]) then 1 else 0) + (if Live(p) then 1 else 0)
  {
    var n := |pool| - 1;
    if i == n {
      assert pool[i := p][..n] == pool[..n];
    } else {
      assert pool[i := p][..n] == pool[..n][i := p];
      LiveCountUpdate(pool[..n], i, p);
    }
  }

  /** Two processes never share a kernel stack. */
  lemma StacksApart(pool: seq<Pcb>, owner: seq<int>, i: nat, j: nat)
    requires SlotsOk(pool, owner) && i < |pool| && j < |pool| && i != j && HasStack(pool[i]) && HasStack(pool[j])
    ensures pool[i].top + STACK_SIZE <= pool[j].top || pool[j].top + STACK_SIZE <= pool[i].top
  {
    assert owner[pool[i].slot] == i && owner[pool[j].slot] == j;
  }

  // ------------------------------------------------------------ what keeps the table

  /** Same identity, same stack, alive or not as before. */
  predicate SamePlace(a: Pcb, b: Pcb)
  {
    a.pid == b.pid && Live(a) == Live(b) && a.slot == b.slot && a.top == b.top
  }

  lemma TableChanged(pool: seq<Pcb>, owner: seq<int>, nextPid: nat, count: nat, i: nat, p: Pcb)
    requires Table(pool, owner, nextPid, count) && i < |pool| && SamePlace(pool[i], p)
    ensures Table(pool[i := p], owner, nextPid, count)
  {
    hide LiveCount;
    LiveCountUpdate(pool, i, p);
  }

  /** A new process, not yet with a stack. */
  lemma TableNew(pool: seq<Pcb>, owner: seq<int>, nextPid: nat, count: nat, i: nat, p: Pcb)
    requires Table(pool, owner, nextPid, count) && i < |pool| && !Live(pool[i])
    requires Live(p) && p.pid == nextPid && p.slot == NONE
    ensures Table(pool[i := p], owner, nextPid + 1, count + 1)
  {
    hide LiveCount;
    LiveCountUpdate(pool, i, p);
  }

  lemma TableSlot(pool: seq<Pcb>, owner: seq<int>, nextPid: nat, count: nat, i: nat, s: nat)
    requires Table(pool, owner, nextPid, count) && i < |pool| && Live(pool[i]) && pool[i].slot == NONE
    requires s < |owner| && owner[s] == NONE
    ensures Table(pool[i := pool[i].(slot := s, top := StackTop(s))], owner[s := i], nextPid, count)
  {
    hide LiveCount;
    LiveCountUpdate(pool, i, pool[i].(slot := s, top := StackTop(s)));
  }

  function Freed(owner: seq<int>, i: int, slot: int): seq<int>
  {
    if 0 <= slot < |owner| && owner[slot] == i then owner[slot := NONE] else owner
  }

  lemma TableGone(pool: seq<Pcb>, owner: seq<int>, nextPid: nat, count: nat, i: nat, p: Pcb)
    requires Table(pool, owner, nextPid, count) && i < |pool| && Live(pool[i]) && !Live(p)
    ensures count > 0 && Table(pool[i := p], Freed(owner, i, pool[i].slot), nextPid, count - 1)
  {
    hide LiveCount;
    LiveCountUpdate(pool, i, p);
  }

  // ------------------------------------------------------------ a slot is always free

  /** While a live process has no stack, some slot has no owner: the owned slots belong to
      different processes, all with a stack. */
  lemma SlotFree(pool: seq<Pcb>, owner: seq<int>, i: nat) returns (s: nat)
    requires |pool| == |owner| == MAX_PROCESSES && SlotsOk(pool, owner) && i < |pool| && pool[i].slot == NONE
    ensures s < |owner| && owner[s] == NONE
  {
    hide SlotsOk, OwnersOf, OwnedCount, Below;
    Owners(pool, owner, MAX_PROCESSES);
    var others := Below(MAX_PROCESSES) - {i as int};
    forall k | k in OwnersOf(owner, MAX_PROCESSES) ensures k in others { OwnerOther(pool, owner, i, k); }
    Fewer(OwnersOf(owner, MAX_PROCESSES), others);
    s := Gap(owner, MAX_PROCESSES);
  }

  lemma OwnerOther(pool: seq<Pcb>, owner: seq<int>, i: nat, k: int)
    requires |pool| == |owner| == MAX_PROCESSES && SlotsOk(pool, owner) && i < |pool| && pool[i].slot == NONE
    requires k in OwnersOf(owner, MAX_PROCESSES)
    ensures 0 <= k < MAX_PROCESSES && k != i
  {
    hide OwnersOf;
    var x := OwnedSlot(owner, MAX_PROCESSES, k);
  }

  function Below(n: nat): (b: set<int>)
    ensures |b| == n && forall k :: k in b <==> 0 <= k < n
  {
    if n == 0 then {} else Below(n - 1) + {n - 1}
  }

  /** The owners of the first n slots. */
  function OwnersOf(owner: seq<int>, n: nat): set<int>
    requires n <= |owner|
  {
    if n == 0 then {} else if owner[n - 1] == NONE then OwnersOf(owner, n - 1)
      else OwnersOf(owner, n - 1) + {owner[n - 1]}
  }

  function OwnedCount(owner: seq<int>, n: nat): nat
    requires n <= |owner|
  {
    if n == 0 then 0 else OwnedCount(owner, n - 1) + (if owner[n - 1] == NONE then 0 else 1)
  }

  lemma {:induction false} OwnedSlot(owner: seq<int>, n: nat, k: int) returns (x: nat)
    requires n <= |owner| && k in OwnersOf(owner, n)
    ensures x < n && owner[x] == k != NONE
  {
    if owner[n - 1] == k != NONE { x := n - 1; } else { x := OwnedSlot(owner, n - 1, k); }
  }

  lemma {:induction false} Owners(pool: seq<Pcb>, owner: seq<int>, n: nat)
    requires n <= |owner| && SlotsOk(pool, owner)
    ensures |OwnersOf(owner, n)| == OwnedCount(owner, n)
  {
    if n > 0 {
      Owners(pool, owner, n - 1);
      if owner[n - 1] != NONE { NotYet(pool, owner, n - 1); }
    }
  }

  lemma NotYet(pool: seq<Pcb>, owner: seq<int>, n: nat)
    requires n < |owner| && SlotsOk(pool, owner) && owner[n] != NONE
    ensures owner[n] !in OwnersOf(owner, n)
  {
    forall x | 0 <= x < n ensures owner[x] != owner[n] {
      assert owner[x] != NONE ==> pool[owner[x]].slot == x;
      assert pool[owner[n]].slot == n;
    }
    NotOwner(owner, n, owner[n]);
  }

  lemma {:induction false} NotOwner(owner: seq<int>, n: nat, k: int)
    requires n <= |owner| && forall x :: 0 <= x < n ==> owner[x] != k
    ensures k !in OwnersOf(owner, n)
  {
    if n > 0 { NotOwner(owner, n - 1, k); }
  }

  lemma {:induction false} Gap(owner: seq<int>, n: nat) returns (s: nat)
    requires n <= |owner| && OwnedCount(owner, n) < n
    ensures s < n && owner[s] == NONE
  {
    if owner[n - 1] == NONE { s := n - 1; } else { s := Gap(owner, n - 1); }
  }

  lemma Fewer(a: set<int>, b: set<int>)
    requires a <= b
    ensures |a| <= |b|
  {
    assert a + (b - a) == b;
  }
}
