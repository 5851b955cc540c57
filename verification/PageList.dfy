/** A process's record of the pages it owns: a buffer grown 64 entries at a time. */
module PageList {
  const STEP: nat := 64

  /** Entries the buffer has room for when n are recorded. */
  function Room(n: nat): nat { if n == 0 then STEP else ((n - 1) / STEP + 1) * STEP }

  lemma RoomStep(n: nat)
    ensures n <= Room(n) && Room(0) == STEP
    ensures if n % STEP == 0 && n > 0 then Room(n) == n && Room(n + 1) == n + STEP else n < Room(n) == Room(n + 1)
  {
  }

  class PageList {
    var buf: array?<nat>
    var num: nat
    var basePhys: nat

    ghost predicate Valid()
      reads this, buf
    {
      if buf == null then num == 0 else buf.Length == Room(num) && (num > 0 ==> buf[0] == basePhys)
    }

    /** The recorded pages, in order. */
    ghost function Pages(): seq<nat>
      requires Valid()
      reads this, buf
    {
      if buf == null then [] else buf[..num]
    }

    constructor ()
      ensures Valid() && Pages() == [] && buf == null
    {
      buf, num, basePhys := null, 0, 0;
    }

    /** elf_add_page_to_pcb. A page already recorded is not recorded twice; a full buffer is moved
        to one 64 entries larger; if there is no memory for a buffer nothing changes. `memory` promises
        that there is. */
    method Add(phys: nat, memory: bool) returns (ghost ok: bool)
      requires Valid()
      modifies this, buf
      ensures Valid() && (buf == old(buf) || fresh(buf))
      ensures memory || (old(buf) != null && (old(num) == 0 || old(num) % STEP != 0)) ==> ok
      ensures Pages() == if !ok || phys in old(Pages()) then old(Pages()) else old(Pages()) + [phys]
    {
      hide Room;
      RoomStep(num);
      RoomStep(0);
      ok := true;
      if buf == null {
        var given := Given(memory);
        if !given { return false; }
        buf := new nat[STEP];
        num := 0;
      }
      assert Pages() == old(Pages());
      var i := 0;
      while i < num
        invariant 0 <= i <= num && phys !in buf[..i]
      {
        if buf[i] == phys { return; }
        i := i + 1;
      }
      if num % STEP == 0 && num > 0 {
        var given := Given(memory);
        if !given { return false; }
        Copy();
      }
      ghost var before := buf[..num];
      buf[num] := phys;
      num := num + 1;
      assert buf[..num] == before + [phys];
      if num == 1 { basePhys := phys; }
    }

    /** Whether kmalloc succeeds: it must if memory is promised. */
    method Given(memory: bool) returns (given: bool)
      ensures memory ==> given
    {
      given := *;
      given := given || memory;
    }

    /** Move a full buffer to a larger one. */
    method Copy()
      requires Valid() && buf != null && num > 0 && num % STEP == 0
      modifies this`buf
      ensures buf != null && fresh(buf) && buf.Length == num + STEP && buf[..num] == old(buf[..num])
    {
      RoomStep(num);
      var full, larger := buf, new nat[num + STEP];
      for i := 0 to num
        invariant larger[..i] == full[..i]
      {
        larger[i] := full[i];
      }
      buf := larger;
    }
  }
}
