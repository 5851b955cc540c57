/** Block headers in memory, and how they spell out a block list. */
module HeapLinks {
  import opened HeapBlocks

  /** A heap_header_t; next and prev are addresses, 0 for none. */
  datatype Header = Header(magic: nat, size: nat, used: nat, next: nat, prev: nat)

  /** What a header-sized read at an address finds. */
  type Memory = map<nat, Header>

  function Load(mem: Memory, a: nat): Header
  {
    if a in mem then mem[a] else Header(0, 0, 0, 0, 0)
  }

  function NextAddr(bs: seq<Block>, i: nat): nat { if i + 1 < |bs| then bs[i + 1].addr else 0 }

  function PrevAddr(bs: seq<Block>, i: nat): nat { if 0 < i <= |bs| then bs[i - 1].addr else 0 }

  function HeaderOf(bs: seq<Block>, i: nat): Header
    requires i < |bs|
  {
    Header(MAGIC, bs[i].size, if bs[i].used then 1 else 0, NextAddr(bs, i), PrevAddr(bs, i))
  }

  lemma Neighbours(bs: seq<Block>, i: nat)
    requires i < |bs|
    ensures NextAddr(bs, i) == if i + 1 < |bs| then bs[i + 1].addr else 0
    ensures PrevAddr(bs, i) == if i > 0 then bs[i - 1].addr else 0
  {
  }

  /** The headers at the block addresses are those of the list. */
  predicate Linked(mem: Memory, bs: seq<Block>)
  {
    forall i :: 0 <= i < |bs| ==> Load(mem, bs[i].addr) == HeaderOf(bs, i)
  }

  function WithUsed(mem: Memory, a: nat, u: nat): Memory { mem[a := Load(mem, a).(used := u)] }

  lemma LinkedUsed(mem: Memory, bs: seq<Block>, i: nat, u: bool)
    requires Linked(mem, bs) && Apart(bs) && i < |bs|
    ensures Linked(WithUsed(mem, bs[i].addr, if u then 1 else 0), bs[i := bs[i].(used := u)])
  {
  }

  /** The stores of split_block: the new header, the back link of the block after it, and the
      shortened block. */
  function SplitStores(mem: Memory, a: nat, size: nat): Memory
    requires Load(mem, a).size >= size + HEADER
  {
    var h, n := Load(mem, a), a + HEADER + size;
    var m1 := mem[n := Header(MAGIC, h.size - size - HEADER, 0, h.next, a)];
    var m2 := if h.next != 0 then m1[h.next := Load(m1, h.next).(prev := n)] else m1;
    m2[a := Load(m2, a).(next := n, size := size)]
  }

  lemma SplitLoad(mem: Memory, a: nat, size: nat, x: nat)
    requires Load(mem, a).size >= size + HEADER
    requires var nx := Load(mem, a).next; nx != a && nx != a + HEADER + size
    ensures var h, n := Load(mem, a), a + HEADER + size;
      Load(SplitStores(mem, a, size), x)
      == if x == a then h.(next := n, size := size)
         else if x == n then Header(MAGIC, h.size - size - HEADER, 0, h.next, a)
         else if h.next != 0 && x == h.next then Load(mem, x).(prev := n)
         else Load(mem, x)
  {
  }

  /** bs with block i cut after `size` bytes. */
  function Cut(bs: seq<Block>, i: nat, size: nat): seq<Block>
    requires i < |bs| && bs[i].size >= size + HEADER
  {
    var b := bs[i];
    Replace(bs, i, 1, [Block(b.addr, size, true), Block(b.addr + HEADER + size, b.size - size - HEADER, false)])
  }

  lemma CutAt(bs: seq<Block>, i: nat, size: nat, j: nat)
    requires i < |bs| && bs[i].size >= size + HEADER && j < |bs| + 1
    ensures |Cut(bs, i, size)| == |bs| + 1
    ensures Cut(bs, i, size)[j]
         == if j < i then bs[j] else if j > i + 1 then bs[j - 1]
            else if j == i then Block(bs[i].addr, size, true)
            else Block(bs[i].addr + HEADER + size, bs[i].size - size - HEADER, false)
  {
  }

  lemma AddrApart(bs: seq<Block>, i: nat, j: nat)
    requires Apart(bs) && i < |bs| && j < |bs| && i != j
    ensures bs[i].addr != bs[j].addr
    ensures i < j ==> End(bs[i]) <= bs[j].addr
    ensures j < i ==> End(bs[j]) <= bs[i].addr
  {
  }

  lemma LinkedSplitAt(mem: Memory, bs: seq<Block>, i: nat, size: nat, j: nat)
    requires Linked(mem, bs) && Apart(bs) && i < |bs| && bs[i].used && bs[i].size >= size + HEADER
    requires (forall k :: 0 <= k < |bs| ==> bs[k].addr > 0) && j < |bs| + 1
    ensures Load(mem, bs[i].addr).size >= size + HEADER && |Cut(bs, i, size)| == |bs| + 1
    ensures Load(SplitStores(mem, bs[i].addr, size), Cut(bs, i, size)[j].addr) == HeaderOf(Cut(bs, i, size), j)
  {
    hide SplitStores, Cut, Load, NextAddr, PrevAddr, Apart;
    var a := bs[i].addr;
    assert Load(mem, a) == HeaderOf(bs, i);
    Neighbours(bs, i);
    CutAt(bs, i, size, j);
    Neighbours(Cut(bs, i, size), j);
    if j > 0 { CutAt(bs, i, size, j - 1); }
    if j < |bs| { CutAt(bs, i, size, j + 1); }
    if i + 1 < |bs| { AddrApart(bs, i, i + 1); }
    SplitLoad(mem, a, size, Cut(bs, i, size)[j].addr);
    if j < i {
      Neighbours(bs, j);
      AddrApart(bs, j, i);
      if i + 1 < |bs| { AddrApart(bs, j, i + 1); }
    } else if j > i + 1 {
      Neighbours(bs, j - 1);
      AddrApart(bs, i, j - 1);
      if j > i + 2 { AddrApart(bs, i + 1, j - 1); }
    }
  }

  lemma LinkedSplit(mem: Memory, bs: seq<Block>, i: nat, size: nat, lo: nat, hi: nat)
    requires Linked(mem, bs) && Tiles(bs, lo, hi) && 0 < lo && i < |bs| && bs[i].used && bs[i].size >= size + HEADER
    ensures Load(mem, bs[i].addr).size >= size + HEADER
    ensures Linked(SplitStores(mem, bs[i].addr, size), Cut(bs, i, size))
  {
    hide SplitStores, Cut, HeaderOf, Load, Tiles, Apart;
    AllOrdered(bs, lo, hi);
    forall j | 0 <= j < |bs| + 1
      ensures Load(mem, bs[i].addr).size >= size + HEADER && |Cut(bs, i, size)| == |bs| + 1
           && Load(SplitStores(mem, bs[i].addr, size), Cut(bs, i, size)[j].addr) == HeaderOf(Cut(bs, i, size), j)
    {
      LinkedSplitAt(mem, bs, i, size, j);
    }
    LinkedSplitAt(mem, bs, i, size, 0);
  }

  /** The stores of one merge of coalesce_blocks. */
  function MergeStores(mem: Memory, a: nat, b: nat): Memory
  {
    var ha, hb := Load(mem, a), Load(mem, b);
    var m1 := mem[a := ha.(size := ha.size + HEADER + hb.size, next := hb.next)];
    if hb.next != 0 then m1[hb.next := Load(m1, hb.next).(prev := a)] else m1
  }

  lemma MergeLoad(mem: Memory, a: nat, b: nat, x: nat)
    requires var nx := Load(mem, b).next; nx != a
    ensures var ha, hb := Load(mem, a), Load(mem, b);
      Load(MergeStores(mem, a, b), x)
      == if x == a then ha.(size := ha.size + HEADER + hb.size, next := hb.next)
         else if hb.next != 0 && x == hb.next then Load(mem, x).(prev := a)
         else Load(mem, x)
  {
  }

  function Joined(bs: seq<Block>, i: nat): seq<Block>
    requires i + 1 < |bs|
  {
    Replace(bs, i, 2, [Merged(bs[i], bs[i + 1])])
  }

  lemma JoinedAt(bs: seq<Block>, i: nat, j: nat)
    requires i + 1 < |bs| && j < |bs| - 1
    ensures |Joined(bs, i)| == |bs| - 1
    ensures Joined(bs, i)[j] == if j < i then bs[j] else if j > i then bs[j + 1] else Merged(bs[i], bs[i + 1])
  {
  }

  lemma LinkedMergeAt(mem: Memory, bs: seq<Block>, i: nat, j: nat)
    requires Linked(mem, bs) && Apart(bs) && i + 1 < |bs| && !bs[i].used && j < |bs| - 1
    requires forall k :: 0 <= k < |bs| ==> bs[k].addr > 0
    ensures |Joined(bs, i)| == |bs| - 1
    ensures Load(MergeStores(mem, bs[i].addr, bs[i + 1].addr), Joined(bs, i)[j].addr) == HeaderOf(Joined(bs, i), j)
  {
    hide MergeStores, Joined, Load, NextAddr, PrevAddr, Apart;
    var a, b := bs[i].addr, bs[i + 1].addr;
    assert Load(mem, a) == HeaderOf(bs, i) && Load(mem, b) == HeaderOf(bs, i + 1);
    Neighbours(bs, i);
    Neighbours(bs, i + 1);
    JoinedAt(bs, i, j);
    Neighbours(Joined(bs, i), j);
    if j > 0 { JoinedAt(bs, i, j - 1); }
    if j < |bs| - 2 { JoinedAt(bs, i, j + 1); }
    if i + 2 < |bs| { AddrApart(bs, i, i + 2); }
    MergeLoad(mem, a, b, Joined(bs, i)[j].addr);
    if j < i {
      Neighbours(bs, j);
      AddrApart(bs, j, i);
      if i + 2 < |bs| { AddrApart(bs, j, i + 2); }
    } else if j > i {
      Neighbours(bs, j + 1);
      AddrApart(bs, i, j + 1);
      if j > i + 1 { AddrApart(bs, i + 2, j + 1); }
    }
  }

  lemma LinkedMerge(mem: Memory, bs: seq<Block>, i: nat, lo: nat, hi: nat)
    requires Linked(mem, bs) && Tiles(bs, lo, hi) && 0 < lo && i + 1 < |bs| && !bs[i].used
    ensures Linked(MergeStores(mem, bs[i].addr, bs[i + 1].addr), Joined(bs, i))
  {
    hide MergeStores, Joined, HeaderOf, Load, Tiles, Apart;
    AllOrdered(bs, lo, hi);
    forall j | 0 <= j < |bs| - 1
      ensures |Joined(bs, i)| == |bs| - 1
           && Load(MergeStores(mem, bs[i].addr, bs[i + 1].addr), Joined(bs, i)[j].addr) == HeaderOf(Joined(bs, i), j)
    {
      LinkedMergeAt(mem, bs, i, j);
    }
    LinkedMergeAt(mem, bs, i, 0);
  }

  /** The stores that add a free block at the end of the list. */
  function AppendStores(mem: Memory, tail: nat, a: nat, size: nat): Memory
  {
    var m1 := mem[a := Header(MAGIC, size, 0, 0, 0)];
    if tail == 0 then m1
    else
      var m2 := m1[tail := Load(m1, tail).(next := a)];
      m2[a := Load(m2, a).(prev := tail)]
  }

  lemma AppendLoad(mem: Memory, tail: nat, a: nat, size: nat, x: nat)
    requires tail != a
    ensures Load(AppendStores(mem, tail, a, size), x)
         == if x == a then Header(MAGIC, size, 0, 0, tail)
            else if tail != 0 && x == tail then Load(mem, x).(next := a)
            else Load(mem, x)
  {
  }

  lemma LinkedAppend(mem: Memory, bs: seq<Block>, lo: nat, hi: nat, size: nat)
    requires Linked(mem, bs) && Tiles(bs, lo, hi) && 0 < lo
    ensures Linked(AppendStores(mem, PrevAddr(bs, |bs|), hi, size), bs + [Block(hi, size, false)])
  {
    hide AppendStores, Load;
    AllOrdered(bs, lo, hi);
    var r, tail := bs + [Block(hi, size, false)], PrevAddr(bs, |bs|);
    var m := AppendStores(mem, tail, hi, size);
    forall j | 0 <= j < |r| ensures Load(m, r[j].addr) == HeaderOf(r, j) {
      AppendLoad(mem, tail, hi, size, r[j].addr);
      if j < |bs| { assert Load(mem, bs[j].addr) == HeaderOf(bs, j); }
    }
  }
}
