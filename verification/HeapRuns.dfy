/** Whole runs of kmalloc and kfree. */
module HeapRuns {
  import opened HeapBlocks
  import opened HeapLinks
  import H = Heap

  /** A request, or the release of the k-th pointer still held; releasing a pointer that is not held
      stands for kfree(NULL). */
  datatype Call = Request(size: nat, frames: nat) | Release(k: nat)

  predicate Distinct(bs: seq<Block>) { forall i, j :: 0 <= i < j < |bs| ==> bs[i] != bs[j] }

  ghost function Elements(bs: seq<Block>): set<Block> { set b | b in bs }

  function Drop<T>(s: seq<T>, k: nat): seq<T>
    requires k < |s|
  {
    s[..k] + s[k + 1..]
  }

  /** The pointers held are the payloads of exactly the live blocks, each at least as large as was
      asked for and less than 80 bytes larger. */
  ghost predicate Holding(live: set<Block>, held: seq<Block>, ptrs: seq<nat>, asked: seq<nat>)
  {
    && Distinct(held) && Elements(held) == live && |ptrs| == |held| == |asked|
    && forall i :: 0 <= i < |held| ==>
          && ptrs[i] == held[i].addr + HEADER && ptrs[i] % ALIGN == 0
          && asked[i] <= held[i].size < asked[i] + 80
  }

  lemma HoldMore(live: set<Block>, held: seq<Block>, ptrs: seq<nat>, asked: seq<nat>, b: Block, p: nat, size: nat)
    requires Holding(live, held, ptrs, asked) && b !in live && p == b.addr + HEADER && p % ALIGN == 0
    requires size <= b.size < size + 80
    ensures Holding(live + {b}, held + [b], ptrs + [p], asked + [size])
  {
    assert forall i :: 0 <= i < |held| ==> held[i] in Elements(held);
    assert Elements(held + [b]) == Elements(held) + {b};
  }

  lemma HoldLess(live: set<Block>, held: seq<Block>, ptrs: seq<nat>, asked: seq<nat>, k: nat)
    requires Holding(live, held, ptrs, asked) && k < |held|
    ensures Holding(live - {held[k]}, Drop(held, k), Drop(ptrs, k), Drop(asked, k))
  {
    var rest := Drop(held, k);
    forall b | b in held && b != held[k] ensures b in rest {
      var i :| 0 <= i < |held| && held[i] == b;
      assert b == rest[if i < k then i else i - 1];
    }
    forall i | 0 <= i < |rest| ensures rest[i] in held && rest[i] != held[k] {
      assert rest[i] == held[if i < k then i else i + 1];
    }
    assert Elements(rest) == live - {held[k]};
  }

  /** A held pointer is one that kfree accepts. */
  lemma HeldFrees(mem: Memory, bs: seq<Block>, b: Block) returns (i: nat)
    requires Linked(mem, bs) && b in Live(bs)
    ensures i < |bs| && bs[i] == b && H.Frees(mem, b.addr + HEADER)
  {
    i :| 0 <= i < |bs| && bs[i] == b;
    assert Load(mem, bs[i].addr) == HeaderOf(bs, i);
  }

  method Ask(h: H.Heap, size: nat, frames: nat, ptrs0: seq<nat>, ghost asked0: seq<nat>, ghost held0: seq<Block>)
    returns (ptrs: seq<nat>, ghost asked: seq<nat>, ghost held: seq<Block>)
    requires h.Valid() && Holding(Live(h.blocks), held0, ptrs0, asked0) && size <= H.MAX_REQUEST
    requires frames <= H.MAX_FRAMES
    modifies h
    ensures h.Valid() && Holding(Live(h.blocks), held, ptrs, asked)
  {
    hide Tiles, Linked, UsedBytes, Live, NoAdjacentFree, Holding, H.Round16, H.Heap.Candidates, H.Heap.CannotGrow,
         FirstFit, Allocate;
    ghost var live := Live(h.blocks);
    var p; ghost var b;
    p, b := h.Kmalloc(size, frames);
    if p == 0 { return ptrs0, asked0, held0; }
    HoldMore(live, held0, ptrs0, asked0, b, p, size);
    return ptrs0 + [p], asked0 + [size], held0 + [b];
  }

  method GiveBack(h: H.Heap, k: nat, ptrs0: seq<nat>, ghost asked0: seq<nat>, ghost held0: seq<Block>)
    returns (ptrs: seq<nat>, ghost asked: seq<nat>, ghost held: seq<Block>)
    requires h.Valid() && Holding(Live(h.blocks), held0, ptrs0, asked0)
    modifies h
    ensures h.Valid() && Holding(Live(h.blocks), held, ptrs, asked)
  {
    hide Tiles, Linked, UsedBytes, Live, NoAdjacentFree, Holding, H.Frees, CoalesceFrom;
    ghost var live := Live(h.blocks);
    HoldingSizes(live, held0, ptrs0, asked0);
    if k >= |ptrs0| {
      h.Kfree(0, 0);
      return ptrs0, asked0, held0;
    }
    HeldPointer(live, held0, ptrs0, asked0, k);
    ghost var i := HeldFrees(h.mem, h.blocks, held0[k]);
    HoldLess(live, held0, ptrs0, asked0, k);
    h.Kfree(ptrs0[k], i);
    return Drop(ptrs0, k), Drop(asked0, k), Drop(held0, k);
  }

  /** Every run: the payloads held at the end are disjoint, aligned and large enough, nothing else is
      live, and if none is held one free block covers the heap again. */
  method Run(h: H.Heap, calls: seq<Call>) returns (ptrs: seq<nat>, ghost asked: seq<nat>, ghost held: seq<Block>)
    requires h.Valid() && Live(h.blocks) == {}
    requires forall c :: c in calls && c.Request? ==> c.size <= H.MAX_REQUEST && c.frames <= H.MAX_FRAMES
    modifies h
    ensures h.Valid() && Holding(Live(h.blocks), held, ptrs, asked)
    ensures forall i, j :: 0 <= i < j < |held| ==> End(held[i]) <= held[j].addr || End(held[j]) <= held[i].addr
    ensures ptrs == [] && h.mapped > 0 ==>
              |h.blocks| == 1 && !h.blocks[0].used && h.blocks[0].addr == h.start && End(h.blocks[0]) == h.brk
  {
    hide Tiles, Linked, Load, UsedBytes, Live, NoAdjacentFree, Holding;
    ptrs, asked, held := [], [], [];
    HoldNone();
    for n := 0 to |calls|
      invariant h.Valid() && Holding(Live(h.blocks), held, ptrs, asked)
    {
      assert calls[n] in calls;
      match calls[n] {
        case Request(size, frames) => ptrs, asked, held := Ask(h, size, frames, ptrs, asked, held);
        case Release(k) => ptrs, asked, held := GiveBack(h, k, ptrs, asked, held);
      }
    }
    HeldApart(h.blocks, h.start, h.brk, held, ptrs, asked);
    if ptrs == [] && h.mapped > 0 { H.Drained(h.blocks, h.start, h.brk); }
  }

  lemma HoldNone()
    ensures Holding({}, [], [], [])
  {
  }

  lemma HoldingSizes(live: set<Block>, held: seq<Block>, ptrs: seq<nat>, asked: seq<nat>)
    requires Holding(live, held, ptrs, asked)
    ensures |ptrs| == |held| == |asked|
  {
  }

  lemma HeldPointer(live: set<Block>, held: seq<Block>, ptrs: seq<nat>, asked: seq<nat>, k: nat)
    requires Holding(live, held, ptrs, asked) && k < |ptrs|
    ensures k < |held| && held[k] in live && ptrs[k] == held[k].addr + HEADER
  {
    assert held[k] in Elements(held);
  }

  lemma HeldApart(bs: seq<Block>, lo: nat, hi: nat, held: seq<Block>, ptrs: seq<nat>, asked: seq<nat>)
    requires Tiles(bs, lo, hi) && Holding(Live(bs), held, ptrs, asked)
    ensures forall i, j :: 0 <= i < j < |held| ==> End(held[i]) <= held[j].addr || End(held[j]) <= held[i].addr
    ensures held == [] ==> Live(bs) == {}
    ensures |ptrs| == |held|
  {
    hide Tiles;
    forall i, j | 0 <= i < j < |held| ensures End(held[i]) <= held[j].addr || End(held[j]) <= held[i].addr {
      assert held[i] in Elements(held) && held[j] in Elements(held);
      PayloadsDisjoint(bs, lo, hi, held[i], held[j]);
    }
  }
}
