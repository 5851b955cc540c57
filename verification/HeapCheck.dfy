/** The heap validator decides exactly whether some block list covers the heap. */
module HeapCheck {
  import opened HeapBlocks
  import opened HeapLinks
  import Heap

  /** Where block i has to start for the blocks to follow each other from lo. */
  function StartOf(bs: seq<Block>, i: nat, lo: nat): nat { if 0 < i <= |bs| then End(bs[i - 1]) else lo }

  predicate Consecutive(bs: seq<Block>, lo: nat)
  {
    forall i :: 0 <= i < |bs| ==> bs[i].addr == StartOf(bs, i, lo)
  }

  /** Consecutive blocks from lo to hi, at least one. */
  predicate Covers(bs: seq<Block>, lo: nat, hi: nat)
  {
    bs != [] && Consecutive(bs, lo) && StartOf(bs, |bs|, lo) == hi
  }

  /** The headers in memory spell out a block list that accounts for every byte of [lo, hi). */
  predicate Intact(mem: Memory, bs: seq<Block>, lo: nat, hi: nat)
  {
    Covers(bs, lo, hi) && Linked(mem, bs)
  }

  function NextOr(bs: seq<Block>, i: nat, cur: nat): nat { if i + 1 < |bs| then bs[i + 1].addr else cur }

  /** A correct start of a list: consecutive blocks from lo whose headers are right and whose last
      one links to cur. */
  predicate Walked(mem: Memory, bs: seq<Block>, lo: nat, cur: nat)
  {
    Consecutive(bs, lo) && HeadersTo(mem, bs, cur) && (cur == StartOf(bs, |bs|, lo) || (cur == 0 && bs != []))
  }

  predicate HeadersTo(mem: Memory, bs: seq<Block>, cur: nat)
  {
    forall i :: 0 <= i < |bs| ==> Load(mem, bs[i].addr) == HeaderTo(bs, i, cur)
  }

  function HeaderTo(bs: seq<Block>, i: nat, cur: nat): Header
    requires i < |bs|
  {
    Header(MAGIC, bs[i].size, if bs[i].used then 1 else 0, NextOr(bs, i, cur), PrevAddr(bs, i))
  }

  /** The checks one block has to pass. */
  predicate BlockOk(mem: Memory, lo: nat, hi: nat, prev: nat, cur: nat)
  {
    var h := Load(mem, cur);
    && h.magic == MAGIC && h.used <= 1 && lo <= cur && cur + HEADER <= hi && h.size <= hi - cur - HEADER
    && h.prev == prev
    && (h.next != 0 ==> h.next == cur + HEADER + h.size && Load(mem, h.next).prev == cur)
    && (h.next == 0 ==> cur + HEADER + h.size == hi)
  }

  /** heap_validate. 0 exactly when the heap is not set up or the headers from its first byte on
      spell out a list that covers it; otherwise the address returned is the first bad block: all
      blocks before it are right and link up to it. */
  method Validate(mem: Memory, start: nat, brk: nat, freeList: nat) returns (bad: nat, ghost before: seq<Block>)
    requires brk + HEADER < U64
    ensures bad == 0 <==> start == 0 || brk == 0 || (freeList == start && exists bs :: Intact(mem, bs, start, brk))
    ensures bad != 0 && freeList == start ==> Walked(mem, before, start, bad)
  {
    hide Load, Linked, Walked, BlockOk, Covers;
    before := [];
    if start == 0 || brk == 0 { return 0, before; }
    if freeList == 0 { return start, before; }
    if freeList != start { return freeList, before; }
    var prev, cur := 0, freeList;
    NothingWalked(mem, before, start);
    while cur != 0
      invariant Walked(mem, before, start, cur) && prev == PrevAddr(before, |before|)
      invariant start <= cur || cur == 0
      invariant cur == 0 ==> Intact(mem, before, start, brk)
      decreases if cur == 0 then 0 else brk + HEADER + 1 - cur
    {
      forall bs | Intact(mem, bs, start, brk) ensures BlockOk(mem, start, brk, prev, cur) {
        IntactPasses(mem, bs, before, start, brk, cur);
      }
      BlockChecks(mem, start, brk, prev, cur);
      var h := Load(mem, cur);
      if h.magic != MAGIC { return cur, before; }
      if h.used != 0 && h.used != 1 { return cur, before; }
      if cur < start { assert false; }
      if cur + HEADER > brk { return cur, before; }
      if h.size > brk - cur - HEADER { return cur, before; }
      if h.prev != prev { return cur, before; }
      var end := cur + HEADER + h.size;
      if h.next != 0 {
        if h.next != end { return cur, before; }
        if Load(mem, h.next).prev != cur { return cur, before; }
      } else {
        if end != brk { return cur, before; }
      }
      WalkOn(mem, before, start, brk, prev, cur);
      before := before + [Block(cur, h.size, h.used == 1)];
      prev := cur;
      cur := h.next;
    }
    return 0, before;
  }

  lemma NothingWalked(mem: Memory, bs: seq<Block>, lo: nat)
    requires bs == []
    ensures Walked(mem, bs, lo, lo) && PrevAddr(bs, |bs|) == 0
  {
  }

  lemma BlockChecks(mem: Memory, lo: nat, hi: nat, prev: nat, cur: nat)
    ensures BlockOk(mem, lo, hi, prev, cur) <==>
            var h := Load(mem, cur);
            && h.magic == MAGIC && h.used <= 1 && lo <= cur && cur + HEADER <= hi && h.size <= hi - cur - HEADER
            && h.prev == prev
            && (h.next != 0 ==> h.next == cur + HEADER + h.size && Load(mem, h.next).prev == cur)
            && (h.next == 0 ==> cur + HEADER + h.size == hi)
  {
  }

  lemma ConsecutiveOn(bs: seq<Block>, lo: nat, b: Block)
    requires Consecutive(bs, lo) && b.addr == StartOf(bs, |bs|, lo)
    ensures var bs' := bs + [b];
      Consecutive(bs', lo) && StartOf(bs', |bs'|, lo) == End(b) && PrevAddr(bs', |bs'|) == b.addr
  {
    hide StartOf;
    var bs' := bs + [b];
    forall i | 0 <= i < |bs'| ensures bs'[i].addr == StartOf(bs', i, lo) { StartOn(bs, lo, b, i); }
    StartOn(bs, lo, b, |bs'|);
  }

  lemma StartOn(bs: seq<Block>, lo: nat, b: Block, i: nat)
    requires i <= |bs| + 1
    ensures StartOf(bs + [b], i, lo) == if i <= |bs| then StartOf(bs, i, lo) else End(b)
  {
  }

  lemma HeadersOn(mem: Memory, bs: seq<Block>, b: Block, next: nat)
    requires HeadersTo(mem, bs, b.addr)
    requires Load(mem, b.addr) == Header(MAGIC, b.size, if b.used then 1 else 0, next, PrevAddr(bs, |bs|))
    ensures HeadersTo(mem, bs + [b], next)
  {
    hide Load;
    var bs' := bs + [b];
    forall i | 0 <= i < |bs'| ensures Load(mem, bs'[i].addr) == HeaderTo(bs', i, next) {
      if i < |bs| { assert Load(mem, bs[i].addr) == HeaderTo(bs, i, b.addr); }
    }
  }

  lemma WalkOn(mem: Memory, bs: seq<Block>, lo: nat, hi: nat, prev: nat, cur: nat)
    requires Walked(mem, bs, lo, cur) && prev == PrevAddr(bs, |bs|) && cur != 0 && BlockOk(mem, lo, hi, prev, cur)
    ensures var h := Load(mem, cur); var bs' := bs + [Block(cur, h.size, h.used == 1)];
      && Walked(mem, bs', lo, h.next) && PrevAddr(bs', |bs'|) == cur
      && (h.next == 0 ==> Intact(mem, bs', lo, hi))
  {
    hide Load, Consecutive, HeadersTo, StartOf, PrevAddr, Linked;
    var h := Load(mem, cur);
    var b := Block(cur, h.size, h.used == 1);
    ConsecutiveOn(bs, lo, b);
    HeadersOn(mem, bs, b, h.next);
    if h.next == 0 { HeadersLinked(mem, bs + [b]); }
  }

  lemma HeadersLinked(mem: Memory, bs: seq<Block>)
    ensures HeadersTo(mem, bs, 0) <==> Linked(mem, bs)
  {
    hide Load;
    forall i | 0 <= i < |bs| ensures HeaderTo(bs, i, 0) == HeaderOf(bs, i) { }
  }

  /** A correct start of a list agrees with every list that covers the heap. */
  lemma {:induction false} SameStart(mem: Memory, bs: seq<Block>, pre: seq<Block>, lo: nat, hi: nat, cur: nat, n: nat)
    requires Intact(mem, bs, lo, hi) && Walked(mem, pre, lo, cur) && 0 < lo && n <= |pre|
    ensures n <= |bs| && pre[..n] == bs[..n]
  {
    hide Intact, Walked;
    if n > 0 {
      SameStart(mem, bs, pre, lo, hi, cur, n - 1);
      SameNext(mem, bs, pre, lo, hi, cur, n - 1);
      assert pre[..n] == pre[..n - 1] + [pre[n - 1]] && bs[..n] == bs[..n - 1] + [bs[n - 1]];
    }
  }

  lemma SameNext(mem: Memory, bs: seq<Block>, pre: seq<Block>, lo: nat, hi: nat, cur: nat, k: nat)
    requires Intact(mem, bs, lo, hi) && Walked(mem, pre, lo, cur) && 0 < lo && k < |pre|
    requires k <= |bs| && pre[..k] == bs[..k]
    ensures k < |bs| && pre[k] == bs[k]
  {
    hide Load, StartOf;
    StartsAgree(bs, pre, lo, k);
    assert Load(mem, pre[k].addr) == HeaderTo(pre, k, cur);
    if k > 0 {
      assert Load(mem, pre[k - 1].addr) == HeaderTo(pre, k - 1, cur);
      assert Load(mem, bs[k - 1].addr) == HeaderOf(bs, k - 1);
      StartPositive(pre, lo, k);
    }
    assert Load(mem, bs[k].addr) == HeaderOf(bs, k);
  }

  lemma StartsAgree(bs: seq<Block>, pre: seq<Block>, lo: nat, k: nat)
    requires k <= |bs| && k <= |pre| && pre[..k] == bs[..k]
    ensures StartOf(bs, k, lo) == StartOf(pre, k, lo) && PrevAddr(bs, k) == PrevAddr(pre, k)
    ensures k > 0 ==> pre[k - 1] == bs[k - 1]
  {
    if k > 0 { assert pre[k - 1] == pre[..k][k - 1] == bs[..k][k - 1] == bs[k - 1]; }
  }

  lemma StartPositive(bs: seq<Block>, lo: nat, i: nat)
    requires 0 < lo
    ensures StartOf(bs, i, lo) > 0
  {
  }

  lemma IntactPasses(mem: Memory, bs: seq<Block>, pre: seq<Block>, lo: nat, hi: nat, cur: nat)
    requires Intact(mem, bs, lo, hi) && Walked(mem, pre, lo, cur) && 0 < lo && cur != 0
    ensures BlockOk(mem, lo, hi, PrevAddr(pre, |pre|), cur)
  {
    hide Intact, Walked, Load;
    SameStart(mem, bs, pre, lo, hi, cur, |pre|);
    assert pre == pre[..|pre|];
    AtBlock(mem, bs, pre, lo, hi, cur);
    ListedPasses(mem, bs, lo, hi, |pre|);
  }

  lemma AtBlock(mem: Memory, bs: seq<Block>, pre: seq<Block>, lo: nat, hi: nat, cur: nat)
    requires Intact(mem, bs, lo, hi) && Walked(mem, pre, lo, cur) && 0 < lo && cur != 0
    requires |pre| <= |bs| && pre == bs[..|pre|]
    ensures |pre| < |bs| && bs[|pre|].addr == cur && PrevAddr(pre, |pre|) == PrevAddr(bs, |pre|)
  {
    hide Load, StartOf;
    var n := |pre|;
    assert pre[..n] == pre;
    StartsAgree(bs, pre, lo, n);
    if n > 0 {
      assert Load(mem, pre[n - 1].addr) == HeaderTo(pre, n - 1, cur);
      assert Load(mem, bs[n - 1].addr) == HeaderOf(bs, n - 1);
    }
  }

  /** Every block of a list that covers the heap passes the checks. */
  lemma ListedPasses(mem: Memory, bs: seq<Block>, lo: nat, hi: nat, n: nat)
    requires Intact(mem, bs, lo, hi) && 0 < lo && n < |bs|
    ensures BlockOk(mem, lo, hi, PrevAddr(bs, n), bs[n].addr)
  {
    hide Load, StartOf, Consecutive;
    assert Load(mem, bs[n].addr) == HeaderOf(bs, n);
    Forward(bs, lo, n);
    Backward(bs, lo, hi, n);
    StartAfter(bs, lo, n);
    if n + 1 < |bs| {
      assert Load(mem, bs[n + 1].addr) == HeaderOf(bs, n + 1);
    }
  }

  lemma StartAfter(bs: seq<Block>, lo: nat, i: nat)
    requires i < |bs| && Consecutive(bs, lo)
    ensures StartOf(bs, i + 1, lo) == End(bs[i])
    ensures i + 1 < |bs| ==> bs[i + 1].addr == End(bs[i])
  {
  }

  lemma {:induction false} Forward(bs: seq<Block>, lo: nat, i: nat)
    requires Consecutive(bs, lo) && i < |bs|
    ensures lo <= bs[i].addr
  {
    if i > 0 {
      Forward(bs, lo, i - 1);
      StartAfter(bs, lo, i - 1);
    }
  }

  lemma {:induction false} Backward(bs: seq<Block>, lo: nat, hi: nat, i: nat)
    requires Covers(bs, lo, hi) && i < |bs|
    ensures End(bs[i]) <= hi
    decreases |bs| - i
  {
    StartAfter(bs, lo, i);
    if i + 1 < |bs| { Backward(bs, lo, hi, i + 1); }
  }

  lemma TilesCover(bs: seq<Block>, lo: nat, hi: nat)
    requires Tiles(bs, lo, hi) && bs != []
    ensures Covers(bs, lo, hi)
  {
  }

  /** Every reachable heap that holds a block passes the validator. */
  method ValidHeapPasses(h: Heap.Heap) returns (bad: nat)
    requires h.Valid()
    ensures bad == 0 <==> h.blocks != []
  {
    hide Tiles, Linked, UsedBytes, NoAdjacentFree, Covers;
    ghost var before;
    if h.blocks != [] {
      TilesCover(h.blocks, h.start, h.brk);
      assert Intact(h.mem, h.blocks, h.start, h.brk);
    }
    bad, before := Validate(h.mem, h.start, h.brk, h.freeList);
  }
}
