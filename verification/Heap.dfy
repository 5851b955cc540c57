/** The kernel heap: first-fit allocation over a doubly linked, address-ordered block list. */
module Heap {
  import opened HeapBlocks
  import opened HeapLinks

  /** kmalloc's rounding of a request to a multiple of 16, in 64 bits. */
  function Round16(size: nat): nat { (size + (ALIGN - 1)) % U64 / ALIGN * ALIGN }

  /** Pages heap_extend maps for a number of bytes, in 64 bits. */
  function PagesFor(bytes: nat): nat { (bytes + (PAGE - 1)) % U64 / PAGE }

  /** Bytes kmalloc adds to the heap when no block fits. */
  function RegionFor(size: nat): nat { PagesFor((Round16(size) + HEADER) % U64) * PAGE }

  /** The largest request whose computation does not wrap. */
  const MAX_REQUEST: nat := U64 - 4144

  /** The page allocator tracks at most this many pages (MAX_PAGES). */
  const MAX_FRAMES: nat := 32768

  /** The new region holds the request and a header exactly for requests up to MAX_REQUEST; for
      larger ones the 64-bit computation wraps. */
  lemma RegionCoversIff(size: nat)
    requires 0 < size < U64
    ensures size <= Round16(size) && Round16(size) + HEADER <= RegionFor(size) <==> size <= MAX_REQUEST
  {
    if size <= MAX_REQUEST {
      RoundUp(size);
      assert Round16(size) + HEADER + (PAGE - 1) < U64;
    } else if size <= U64 - ALIGN {
      RoundUp(size);
      var needed := (Round16(size) + HEADER) % U64;
      assert PagesFor(needed) <= 1;
    } else {
      assert Round16(size) == 0;
    }
  }

  /** Requests are rounded to the next multiple of 16, and the region is the least number of whole pages
      that holds the rounded request and a header. */
  lemma RegionLeast(size: nat)
    requires 0 < size <= MAX_REQUEST
    ensures Round16(size) % 16 == 0 && size <= Round16(size) < size + 16
    ensures RegionFor(size) % 4096 == 0 && Round16(size) + 48 <= RegionFor(size) < Round16(size) + 48 + 4096
  {
    RoundUp(size);
    RegionCoversIff(size);
  }

  /** The largest requests round to 0 bytes, so that any free block passes for large enough: kmalloc
      hands out the first one, far smaller than what was asked for. */
  lemma WrapsToNothing(bs: seq<Block>, size: nat, start: nat, end: nat)
    requires U64 - ALIGN < size < U64 && Tiles(bs, start, end) && end - start <= HEAP_MAX
    requires exists k :: 0 <= k < |bs| && !bs[k].used
    ensures Round16(size) == 0 && Round16(U64 - 1) == 0
    ensures var i := FirstFit(bs, Round16(size), 0);
      && i < |bs| && !bs[i].used && bs[i].size < size && forall k :: 0 <= k < i ==> bs[k].used
  {
    AllOrdered(bs, start, end);
  }

  /** Requests just below those add no page at all: the header of the "new region" would be stored past
      the end of the heap. */
  lemma NoRegionIff(size: nat)
    requires 0 < size < U64
    ensures RegionFor(size) == 0 <==> MAX_REQUEST < size <= U64 - HEADER
  {
  }

  lemma RoundUp(size: nat)
    requires size <= U64 - ALIGN
    ensures size <= Round16(size) < size + ALIGN && Round16(size) % ALIGN == 0
    ensures size <= MAX_REQUEST ==> Round16(size) <= MAX_REQUEST
  {
  }

  /** Pages heap_init maps. */
  function InitialPages(size: nat): nat { if size < PAGE then 1 else size / PAGE }

  lemma WholePages(size: nat)
    requires size < U64
    ensures var pages := InitialPages(size);
      && pages == (if size / PAGE == 0 then 1 else size / PAGE)
      && 0 < pages && PAGE <= pages * PAGE < U64 && PagesFor(pages * PAGE) == pages
      && (pages * PAGE) % PAGE == 0 && (pages * PAGE - HEADER) % ALIGN == 0
  {
  }

  class Heap {
    var start: nat
    var brk: nat
    var freeList: nat
    var mapped: nat
    var usedBytes: nat
    var mem: Memory
    ghost var blocks: seq<Block>

    /** The list spells out a tiling of the mapped region and the counters agree with it. */
    ghost predicate Shape()
      reads this
    {
      && 0 < start && start % PAGE == 0 && start + HEAP_MAX < U64
      && brk == start + mapped && mapped <= HEAP_MAX && mapped % PAGE == 0
      && Tiles(blocks, start, brk) && Linked(mem, blocks)
      && freeList == (if blocks == [] then 0 else start)
      && usedBytes == UsedBytes(blocks)
    }

    /** Between calls no two neighbours are free. */
    ghost predicate Valid()
      reads this
    {
      Shape() && NoAdjacentFree(blocks)
    }

    /** heap_extend: map pages at the end of the heap; `frames` is how many the page allocator
        can give. 0 if it refuses or runs out, and then the heap ends where it did. */
    method Extend(bytes: nat, frames: nat) returns (region: nat)
      requires bytes < U64 && frames <= MAX_FRAMES
      requires 0 < start && start + HEAP_MAX < U64 && brk == start + mapped && mapped <= HEAP_MAX
      modifies this`brk, this`mapped
      ensures brk == start + mapped && mapped <= HEAP_MAX
      ensures region != 0 ==> region == old(brk) && brk == old(brk) + (if bytes == 0 then 0 else PagesFor(bytes) * PAGE)
      ensures region == 0 ==> brk == old(brk) && mapped == old(mapped)
      ensures region != 0 && bytes + PAGE <= U64 ==>
                bytes <= brk - old(brk) < bytes + PAGE && (brk - old(brk)) % PAGE == 0
      ensures region == 0 <==>
                bytes != 0 && (old(mapped) + PagesFor(bytes) * PAGE > HEAP_MAX || PagesFor(bytes) > frames)
    {
      if bytes == 0 { return brk; }
      var pages := PagesFor(bytes);
      var size := pages * PAGE;
      if (mapped + size) % U64 > HEAP_MAX { return 0; }
      var i := 0;
      while i < pages
        invariant 0 <= i <= pages && i <= frames
      {
        if i == frames { return 0; }
        i := i + 1;
      }
      region := brk;
      brk := brk + size;
      mapped := mapped + size;
    }

    /** heap_init: one free block over the initial region, or an empty heap if it cannot be mapped. */
    method Init(base: nat, size: nat, frames: nat)
      requires 0 < base && base % PAGE == 0 && base + HEAP_MAX < U64 && size < U64 && frames <= MAX_FRAMES
      modifies this
      ensures Valid() && start == base && usedBytes == 0
      ensures var pages := InitialPages(size);
        blocks == if pages * PAGE > HEAP_MAX || pages > frames then [] else [Block(base, pages * PAGE - HEADER, false)]
    {
      hide InitialPages, PagesFor, UsedBytes, Tiles, Linked, NoAdjacentFree;
      start, brk, mapped, usedBytes, freeList := base, base, 0, 0, 0;
      blocks := [];
      var pages := size / PAGE;
      if pages == 0 { pages := 1; }
      var initial := pages * PAGE;
      WholePages(size);
      var region := Extend(initial, frames);
      EmptyList(mem, start);
      if region == 0 { return; }
      mem := mem[start := Header(MAGIC, initial - HEADER, 0, 0, 0)];
      freeList := start;
      blocks := [Block(base, initial - HEADER, false)];
      OneBlock(mem, blocks[0]);
    }

    /** The block list kmalloc chooses from: as it is if a block fits, else with a new free region
        at the end, merged with a free block before it. */
    ghost function Candidates(size: nat): seq<Block>
      requires 0 < size <= MAX_REQUEST
      reads this`blocks, this`brk
    {
      if HasFit(blocks, Round16(size)) then blocks
      else RegionCoversIff(size); CoalesceFrom(blocks + [Block(brk, RegionFor(size) - HEADER, false)], 0)
    }

    /** Whether kmalloc has to grow the heap and cannot. */
    ghost predicate CannotGrow(size: nat, frames: nat)
      reads this`blocks, this`mapped
    {
      && !HasFit(blocks, Round16(size))
      && (mapped + RegionFor(size) > HEAP_MAX || RegionFor(size) > frames * PAGE)
    }

    /** find_free_block: the header address of the first free block that is large enough. */
    method FindFreeBlock(size: nat) returns (a: nat)
      requires Shape()
      ensures var i := FirstFit(blocks, size, 0); a == if i < |blocks| then blocks[i].addr else 0
    {
      hide Tiles, FirstFit, UsedBytes;
      a := freeList;
      ghost var i := 0;
      if blocks != [] { ListStart(blocks, start, brk); }
      while a != 0
        invariant 0 <= i <= |blocks| && a == (if i < |blocks| then blocks[i].addr else 0)
        invariant FirstFit(blocks, size, 0) == FirstFit(blocks, size, i)
        decreases |blocks| - i
      {
        FitStep(blocks, size, i);
        var h := Load(mem, a);
        assert h == HeaderOf(blocks, i);
        if h.used == 0 && h.size >= size { return; }
        a := h.next;
        i := i + 1;
      }
      NotZero(blocks, start, brk, i);
      FitStep(blocks, size, i);
    }

    /** split_block: cut the used block at `a` down to `size` bytes if the rest is worth a block. */
    method SplitBlock(a: nat, size: nat, ghost i: nat)
      requires Tiles(blocks, start, brk) && Linked(mem, blocks) && 0 < start
      requires i < |blocks| && blocks[i].addr == a && blocks[i].used && size <= blocks[i].size && size % ALIGN == 0
      modifies this`mem, this`blocks
      ensures Linked(mem, blocks) && Tiles(blocks, start, brk)
      ensures blocks == Replace(old(blocks), i, 1, Parts(old(blocks)[i], size))
      ensures SplitAt(old(blocks), i, size, blocks)
    {
      hide Tiles, UsedBytes, SplitStores, SplitAt;
      SplitMeans(blocks, i, size);
      var h := Load(mem, a);
      assert h == HeaderOf(blocks, i);
      AllocateTiles(blocks, i, size, start, brk);
      if h.size <= size + HEADER + ALIGN {
        assert Replace(blocks, i, 1, [blocks[i].(used := true)]) == blocks;
        return;
      }
      LinkedSplit(mem, blocks, i, size, start, brk);
      mem := SplitStores(mem, a, size);
      blocks := Cut(blocks, i, size);
    }

    /** coalesce_blocks: merge every run of adjacent free blocks. */
    method CoalesceBlocks()
      requires Shape()
      modifies this`mem, this`blocks
      ensures Valid() && blocks == CoalesceFrom(old(blocks), 0)
      ensures SameFlags(old(mem), mem)
    {
      hide Tiles, UsedBytes, MergeStores, CoalesceFrom, NoAdjacentFree, Load, Linked, Replace, SameFlags;
      SameFlagsRefl(mem);
      CoalesceKeeps(blocks, 0, start, brk);
      var a := freeList;
      ghost var i := 0;
      if blocks != [] { ListStart(blocks, start, brk); }
      while a != 0
        invariant SameFlags(old(mem), mem)
        invariant Tiles(blocks, start, brk) && Linked(mem, blocks) && (blocks == [] <==> old(blocks) == [])
        invariant 0 <= i <= |blocks| && a == (if i < |blocks| then blocks[i].addr else 0)
        invariant CoalesceFrom(blocks, i) == CoalesceFrom(old(blocks), 0)
        decreases |blocks|, |blocks| - i
      {
        NotZero(blocks, start, brk, i);
        CoalesceStep(blocks, i);
        CoalesceStep(blocks, i + 1);
        HeadersAt(mem, blocks, start, brk, i);
        var h := Load(mem, a);
        var next := h.next;
        if h.used == 0 && next != 0 && Load(mem, next).used == 0 {
          if a + HEADER + h.size == next {
            LinkedMerge(mem, blocks, i, start, brk);
            MergeFlags(old(mem), mem, a, next);
            MergeKeeps(blocks, i, start, brk);
            mem := MergeStores(mem, a, next);
            JoinedAt(blocks, i, i);
            blocks := Joined(blocks, i);
            continue;
          }
        }
        a := next;
        i := i + 1;
      }
      NotZero(blocks, start, brk, i);
      CoalesceStep(blocks, i);
    }

    /** The part of kmalloc that adds a region of free memory to the end of the list. */
    method Grow(size: nat, frames: nat) returns (ok: bool)
      requires Valid() && 0 < size <= MAX_REQUEST && frames <= MAX_FRAMES && !HasFit(blocks, Round16(size))
      modifies this
      ensures Valid() && start == old(start) && usedBytes == old(usedBytes)
      ensures ok <==> !old(CannotGrow(size, frames))
      ensures !ok ==> unchanged(this)
      ensures ok ==>
                blocks == old(Candidates(size)) && Live(blocks) == old(Live(blocks)) && HasFit(blocks, Round16(size))
      ensures ok ==> brk == old(brk) + RegionFor(size)
    {
      hide Tiles, Linked, Load, UsedBytes, Live, NoAdjacentFree, Round16, PagesFor, AppendStores, HasFit, CoalesceFrom;
      RegionSize(size);
      var region := Extend((Round16(size) + HEADER) % U64, frames);
      ok := region != 0;
      if !ok { return; }
      ghost var b := Block(region, brk - region - HEADER, false);
      GrownKeeps(mem, blocks, start, region, b, Round16(size));
      var tail := LastBlock(region);
      mem := AppendStores(mem, tail, region, brk - region - HEADER);
      if freeList == 0 { freeList := region; }
      blocks := blocks + [b];
      CoalesceFits(blocks, 0, Round16(size));
      CoalesceKeeps(blocks, 0, start, brk);
      CoalesceBlocks();
    }

    /** The walk to the last block of the list, 0 if the list is empty. */
    method LastBlock(ghost end: nat) returns (a: nat)
      requires 0 < start && Tiles(blocks, start, end) && Linked(mem, blocks)
      requires freeList == (if blocks == [] then 0 else start)
      ensures a == PrevAddr(blocks, |blocks|)
    {
      hide Tiles, Linked, Load;
      if freeList == 0 { return 0; }
      a := freeList;
      ListStart(blocks, start, end);
      ghost var i := 0;
      HeadersAt(mem, blocks, start, end, i);
      while Load(mem, a).next != 0
        invariant 0 <= i < |blocks| && a == blocks[i].addr
        invariant Load(mem, a).next != 0 <==> i + 1 < |blocks|
        invariant i + 1 < |blocks| ==> Load(mem, a).next == blocks[i + 1].addr
        decreases |blocks| - i
      {
        a := Load(mem, a).next;
        i := i + 1;
        HeadersAt(mem, blocks, start, end, i);
      }
    }

    /** The part of kmalloc that hands out the free block at `a`. */
    method Take(a: nat, size: nat, ghost i: nat) returns (p: nat)
      requires Valid() && i < |blocks| && blocks[i].addr == a && !blocks[i].used && size <= blocks[i].size
      requires size % ALIGN == 0
      modifies this`mem, this`blocks, this`usedBytes
      ensures Valid() && blocks == Allocate(old(blocks), i, size) && p == a + HEADER
    {
      hide Tiles, Linked, Load, UsedBytes, NoAdjacentFree, WithUsed, Apart, Replace;
      ghost var bs := blocks;
      AllOrdered(bs, start, brk);
      LinkedUsed(mem, bs, i, true);
      MarkTiles(bs, i, start, brk);
      AllocateTiles(bs, i, size, start, brk);
      AllocateSeparates(bs, i, size);
      AllocateUses(bs, i, size);
      mem := WithUsed(mem, a, 1);
      blocks := bs[i := bs[i].(used := true)];
      SplitBlock(a, size, i);
      AllocateMarked(bs, i, size);
      AllocatedHeader(mem, blocks, i);
      usedBytes := usedBytes + Load(mem, a).size;
      p := a + HEADER;
    }

    /** kmalloc: 0 exactly for a zero request or when no free block fits and the heap cannot grow,
        and then nothing changes; otherwise exactly one block b becomes live, the first that fits,
        and its payload is aligned and large enough. */
    method Kmalloc(size: nat, frames: nat) returns (p: nat, ghost b: Block)
      requires Valid() && size <= MAX_REQUEST && frames <= MAX_FRAMES
      modifies this
      ensures Valid() && start == old(start)
      ensures p == 0 <==> size == 0 || old(CannotGrow(size, frames))
      ensures p == 0 ==> unchanged(this)
      ensures p != 0 ==> Live(blocks) == old(Live(blocks)) + {b} && b !in old(Live(blocks))
      ensures p != 0 ==>
                p == b.addr + HEADER && p % ALIGN == 0 && size <= b.size && usedBytes == old(usedBytes) + b.size
      ensures p != 0 ==> var bs := old(Candidates(size)); var i := FirstFit(bs, Round16(size), 0);
                         i < |bs| && blocks == Allocate(bs, i, Round16(size))
      ensures p != 0 ==> b.size <= Round16(size) + HEADER + ALIGN && b.size < size + 80
      ensures p != 0 ==> TakenFrom(old(Candidates(size)), b, blocks)
      ensures p != 0 && old(HasFit(blocks, Round16(size))) ==> brk == old(brk)
      ensures p != 0 && !old(HasFit(blocks, Round16(size))) ==> size + HEADER <= brk - old(brk) < size + 80 + PAGE
    {
      hide Tiles, Linked, Load, UsedBytes, Live, NoAdjacentFree, Round16, FirstFit, HasFit, CoalesceFrom, PagesFor,
           Allocate, FreeBytes;
      b := Block(0, 0, true);
      if size == 0 { return 0, b; }
      RegionSize(size);
      RegionLeast(size);
      var r := Round16(size);
      FitIff(blocks, r);
      var a := FindFreeBlock(r);
      NotZero(blocks, start, brk, FirstFit(blocks, r, 0));
      if a == 0 {
        var ok := Grow(size, frames);
        if !ok { return 0, b; }
        a := FindFreeBlock(r);
        FitIff(blocks, r);
        NotZero(blocks, start, brk, FirstFit(blocks, r, 0));
        if a == 0 { assert false; }
      }
      ghost var i, bs := FirstFit(blocks, r, 0), blocks;
      AllocatedBlock(bs, i, r, start, brk);
      AllocateBounds(bs, i, r);
      b := Parts(bs[i], r)[0];
      p := Take(a, r, i);
      Accounting(bs, start, brk);
      Accounting(blocks, start, brk);
    }

    /** kfree: NULL, an address without the magic number and a block that is not in use change
        nothing; otherwise exactly the block at ptr stops being live. Afterwards the header still
        reads as free, so freeing the same pointer again changes nothing. */
    method Kfree(ptr: nat, ghost i: nat)
      requires Valid() && (ptr == 0 || HEADER <= ptr)
      requires ptr != 0 && Frees(mem, ptr) ==> i < |blocks| && blocks[i].addr + HEADER == ptr
      modifies this`mem, this`blocks, this`usedBytes
      ensures Valid()
      ensures ptr == 0 || !old(Frees(mem, ptr)) ==> unchanged(this)
      ensures ptr != 0 && old(Frees(mem, ptr)) ==>
                var b := old(blocks[i]);
                && b in old(Live(blocks)) && Live(blocks) == old(Live(blocks)) - {b}
                && usedBytes == old(usedBytes) - b.size
                && blocks == CoalesceFrom(Freed(old(blocks), i), 0)
      ensures ptr != 0 ==> !Frees(mem, ptr)
      ensures ptr != 0 && (Load(old(mem), ptr - HEADER).magic != MAGIC || Load(old(mem), ptr - HEADER).used == 0) ==>
                unchanged(this)
      ensures forall b :: b in old(Live(blocks)) && b.addr + HEADER == ptr ==>
                Live(blocks) == old(Live(blocks)) - {b} && usedBytes == old(usedBytes) - b.size
    {
      hide Tiles, Linked, Load, UsedBytes, Live, NoAdjacentFree, WithUsed, Apart, CoalesceFrom, Freed;
      LiveAt(mem, blocks, start, brk, ptr, i);
      if ptr == 0 { return; }
      var a := ptr - HEADER;
      if Load(mem, a).magic != MAGIC { return; }
      if Load(mem, a).used == 0 { return; }
      AllOrdered(blocks, start, brk);
      UsedBlock(mem, blocks, i);
      LinkedFreed(mem, blocks, i);
      FreedKeeps(blocks, i, start, brk);
      FreedHeader(mem, a);
      usedBytes := usedBytes - Load(mem, a).size;
      mem := WithUsed(mem, a, 0);
      blocks := Freed(blocks, i);
      CoalesceKeeps(blocks, 0, start, brk);
      ghost var m := mem;
      CoalesceBlocks();
      SameFlagsAt(m, mem, a);
    }

    /** Memory owned by a live block's user changes in any way: every header-sized read that
        overlaps the payload may differ. */
    method ClientWrite(m: Memory, ghost b: Block)
      requires Valid() && b in Live(blocks)
      requires forall x: nat :: x <= b.addr || End(b) <= x ==> Load(m, x) == Load(mem, x)
      modifies this`mem
      ensures Valid() && mem == m
    {
      hide Tiles, UsedBytes, NoAdjacentFree;
      PayloadHoldsNoHeader(mem, m, blocks, start, brk, b);
      mem := m;
    }
  }

  /** Whether kfree's checks let it free ptr. */
  predicate Frees(mem: Memory, ptr: nat)
  {
    HEADER <= ptr && Load(mem, ptr - HEADER).magic == MAGIC && Load(mem, ptr - HEADER).used != 0
  }

  /** A live block is one that kfree accepts, and the only one at its address. */
  lemma LiveAt(mem: Memory, bs: seq<Block>, lo: nat, hi: nat, ptr: nat, i: nat)
    requires Tiles(bs, lo, hi) && Linked(mem, bs)
    requires Frees(mem, ptr) ==> i < |bs| && bs[i].addr + HEADER == ptr
    ensures forall b :: b in Live(bs) && b.addr + HEADER == ptr ==> Frees(mem, ptr) && b == bs[i]
  {
    hide Tiles;
    AllOrdered(bs, lo, hi);
    forall b | b in Live(bs) && b.addr + HEADER == ptr ensures Frees(mem, ptr) && b == bs[i] {
      var k :| 0 <= k < |bs| && bs[k] == b;
      assert Load(mem, bs[k].addr) == HeaderOf(bs, k);
    }
  }

  lemma UsedBlock(mem: Memory, bs: seq<Block>, i: nat)
    requires Linked(mem, bs) && i < |bs| && Load(mem, bs[i].addr).used != 0
    ensures bs[i].used && bs[i] in Live(bs) && Load(mem, bs[i].addr).size == bs[i].size
    ensures UsedBytes(bs) >= bs[i].size
  {
    FreedUses(bs, i);
  }

  lemma LinkedFreed(mem: Memory, bs: seq<Block>, i: nat)
    requires Linked(mem, bs) && Apart(bs) && i < |bs|
    ensures Linked(WithUsed(mem, bs[i].addr, 0), Freed(bs, i)) && |Freed(bs, i)| == |bs|
    ensures Freed(bs, i)[0].addr == bs[0].addr
  {
    LinkedUsed(mem, bs, i, false);
  }

  lemma FreedHeader(mem: Memory, a: nat)
    ensures Load(WithUsed(mem, a, 0), a).used == 0
  {
  }

  lemma SameFlagsAt(m0: Memory, m1: Memory, a: nat)
    requires SameFlags(m0, m1)
    ensures Load(m1, a).used == Load(m0, a).used
  {
  }

  /** No block header lies inside a payload. */
  lemma PayloadHoldsNoHeader(m0: Memory, m1: Memory, bs: seq<Block>, lo: nat, hi: nat, b: Block)
    requires Tiles(bs, lo, hi) && Linked(m0, bs) && b in bs
    requires forall x: nat :: x <= b.addr || End(b) <= x ==> Load(m1, x) == Load(m0, x)
    ensures Linked(m1, bs)
  {
    hide Load, Tiles;
    AllOrdered(bs, lo, hi);
    var k :| 0 <= k < |bs| && bs[k] == b;
    forall i | 0 <= i < |bs| ensures Load(m1, bs[i].addr) == HeaderOf(bs, i) {
      assert Load(m0, bs[i].addr) == HeaderOf(bs, i);
      assert i < k ==> End(bs[i]) <= bs[k].addr;
    }
  }

  /** Every mapped byte is a header byte, a live byte or a free byte. */
  lemma {:induction false} Accounting(bs: seq<Block>, lo: nat, hi: nat)
    requires Tiles(bs, lo, hi)
    ensures hi - lo == HEADER * |bs| + UsedBytes(bs) + FreeBytes(bs)
    decreases |bs|
  {
    if bs != [] {
      assert Tiles(bs[1..], End(bs[0]), hi);
      Accounting(bs[1..], End(bs[0]), hi);
    }
  }

  function FreeBytes(bs: seq<Block>): nat
  {
    if bs == [] then 0 else (if bs[0].used then 0 else bs[0].size) + FreeBytes(bs[1..])
  }

  /** Block b was taken from the free bytes of bs: they drop by its size, and by a header if a block was
      cut in two, and no free block of 16 bytes or less is left behind. */
  predicate TakenFrom(bs: seq<Block>, b: Block, r: seq<Block>)
  {
    && (|r| == |bs| || |r| == |bs| + 1)
    && FreeBytes(r) + b.size + (if |r| > |bs| then HEADER else 0) == FreeBytes(bs)
    && forall c :: c in r && !c.used && c !in bs ==> c.size > ALIGN
  }

  /** Once every block has been freed, one free block covers the whole heap. */
  lemma Drained(bs: seq<Block>, lo: nat, hi: nat)
    requires Tiles(bs, lo, hi) && NoAdjacentFree(bs) && Live(bs) == {} && lo < hi
    ensures hi - lo >= HEADER && bs == [Block(lo, hi - lo - HEADER, false)]
  {
    forall i | 0 <= i < |bs| ensures !bs[i].used { assert bs[i] !in Live(bs); }
    if |bs| > 1 {
      OneOfTwoUsed(bs);
      assert false;
    }
  }

  lemma OneOfTwoUsed(bs: seq<Block>)
    requires NoAdjacentFree(bs) && |bs| > 1
    ensures bs[0].used || bs[1].used
  {
  }

  /** The numbers kmalloc computes for a request that does not wrap. */
  lemma RegionSize(size: nat)
    requires 0 < size <= MAX_REQUEST
    ensures var r := Round16(size);
      && size <= r && r % ALIGN == 0 && 0 < r && r + HEADER < U64
      && PagesFor(r + HEADER) * PAGE == RegionFor(size) && r + HEADER <= RegionFor(size)
      && RegionFor(size) % PAGE == 0 && (RegionFor(size) - HEADER) % ALIGN == 0
  {
    RegionCoversIff(size);
    RoundUp(size);
    PageAligned(RegionFor(size));
  }

  lemma GrownKeeps(mem: Memory, bs: seq<Block>, lo: nat, hi: nat, b: Block, r: nat)
    requires Tiles(bs, lo, hi) && Linked(mem, bs) && 0 < lo
    requires b.addr == hi && !b.used && hi % PAGE == 0 && b.size % ALIGN == 0 && r <= b.size
    ensures Tiles(bs + [b], lo, End(b)) && Linked(AppendStores(mem, PrevAddr(bs, |bs|), hi, b.size), bs + [b])
    ensures Live(bs + [b]) == Live(bs) && UsedBytes(bs + [b]) == UsedBytes(bs) && HasFit(bs + [b], r)
    ensures bs == [] ==> lo == hi
  {
    PageAligned(hi);
    AppendKeeps(bs, lo, hi, b);
    LinkedAppend(mem, bs, lo, hi, b.size);
    assert (bs + [b])[|bs|] == b;
  }

  lemma FitIff(bs: seq<Block>, r: nat)
    ensures FirstFit(bs, r, 0) < |bs| <==> HasFit(bs, r)
  {
  }

  lemma MarkTiles(bs: seq<Block>, i: nat, lo: nat, hi: nat)
    requires Tiles(bs, lo, hi) && i < |bs|
    ensures Tiles(bs[i := bs[i].(used := true)], lo, hi)
  {
  }

  lemma AllocateMarked(bs: seq<Block>, i: nat, size: nat)
    requires i < |bs|
    ensures Allocate(bs[i := bs[i].(used := true)], i, size) == Allocate(bs, i, size)
    ensures i < |Allocate(bs, i, size)| && Allocate(bs, i, size)[i] == Parts(bs[i], size)[0]
  {
  }

  lemma AllocatedHeader(mem: Memory, bs: seq<Block>, i: nat)
    requires Linked(mem, bs) && i < |bs|
    ensures Load(mem, bs[i].addr).size == bs[i].size
  {
  }

  lemma AllocatedBlock(bs: seq<Block>, i: nat, r: nat, lo: nat, hi: nat)
    requires Tiles(bs, lo, hi) && i < |bs| && !bs[i].used && r <= bs[i].size
    ensures var b := Parts(bs[i], r)[0];
      && b !in Live(bs) && Live(Allocate(bs, i, r)) == Live(bs) + {b}
      && UsedBytes(Allocate(bs, i, r)) == UsedBytes(bs) + b.size
      && b.addr == bs[i].addr && r <= b.size && (b.addr + HEADER) % ALIGN == 0
  {
    hide Tiles, Live, UsedBytes, Apart, Replace;
    AllOrdered(bs, lo, hi);
    AllocateLive(bs, i, r);
    AllocateUses(bs, i, r);
    PayloadAligned(bs, i, lo, hi);
  }

  lemma PayloadAligned(bs: seq<Block>, i: nat, lo: nat, hi: nat)
    requires Tiles(bs, lo, hi) && i < |bs|
    ensures (bs[i].addr + HEADER) % ALIGN == 0
  {
  }

  lemma PageAligned(a: nat)
    requires a % PAGE == 0
    ensures a % ALIGN == 0
  {
    var k := a / PAGE;
    assert a == ALIGN * (256 * k);
  }

  lemma EmptyList(mem: Memory, a: nat)
    ensures Tiles([], a, a) && Linked(mem, []) && UsedBytes([]) == 0 && NoAdjacentFree([])
  {
  }

  lemma OneBlock(mem: Memory, b: Block)
    requires !b.used && Load(mem, b.addr) == Header(MAGIC, b.size, 0, 0, 0) && b.size % ALIGN == 0 && b.addr % PAGE == 0
    ensures Tiles([b], b.addr, End(b)) && Linked(mem, [b]) && UsedBytes([b]) == 0 && NoAdjacentFree([b])
  {
    PageAligned(b.addr);
    UsedOne(b);
  }

  /** No header changed its magic or its used flag. */
  ghost predicate SameFlags(m0: Memory, m1: Memory)
  {
    forall x: nat :: Load(m1, x).magic == Load(m0, x).magic && Load(m1, x).used == Load(m0, x).used
  }

  lemma SameFlagsRefl(m: Memory)
    ensures SameFlags(m, m)
  {
  }

  lemma MergeFlags(m0: Memory, m: Memory, a: nat, b: nat)
    requires SameFlags(m0, m)
    ensures SameFlags(m0, MergeStores(m, a, b))
  {
  }

  lemma ListStart(bs: seq<Block>, lo: nat, hi: nat)
    requires Tiles(bs, lo, hi) && bs != []
    ensures bs[0].addr == lo
  {
  }

  lemma NotZero(bs: seq<Block>, lo: nat, hi: nat, i: nat)
    requires Tiles(bs, lo, hi) && 0 < lo
    ensures i < |bs| ==> bs[i].addr > 0
  {
    AllOrdered(bs, lo, hi);
  }

  /** What the header of block i says of it and of its successor. */
  lemma HeadersAt(mem: Memory, bs: seq<Block>, lo: nat, hi: nat, i: nat)
    requires Linked(mem, bs) && Tiles(bs, lo, hi) && 0 < lo && i < |bs|
    ensures var h := Load(mem, bs[i].addr);
      && h.size == bs[i].size && (h.used == 0 <==> !bs[i].used) && (h.next != 0 <==> i + 1 < |bs|)
      && (i + 1 < |bs| ==> h.next == bs[i + 1].addr && bs[i + 1].addr == End(bs[i])
                           && (Load(mem, h.next).used == 0 <==> !bs[i + 1].used))
  {
    AllOrdered(bs, lo, hi);
    assert Load(mem, bs[i].addr) == HeaderOf(bs, i);
    if i + 1 < |bs| { assert Load(mem, bs[i + 1].addr) == HeaderOf(bs, i + 1); }
  }

  lemma FitStep(bs: seq<Block>, size: nat, i: nat)
    requires i <= |bs|
    ensures FirstFit(bs, size, i)
         == if i == |bs| || (!bs[i].used && bs[i].size >= size) then i else FirstFit(bs, size, i + 1)
  {
  }

  lemma CoalesceStep(bs: seq<Block>, i: nat)
    ensures CoalesceFrom(bs, i)
         == if i + 1 >= |bs| then bs
            else if !bs[i].used && !bs[i + 1].used then CoalesceFrom(Joined(bs, i), i)
            else CoalesceFrom(bs, i + 1)
  {
  }
}
