/** The kernel heap's block list as a value: tiling, splitting, merging and what they keep. */
module HeapBlocks {

  const HEADER: nat := 48
  const ALIGN: nat := 16
  const PAGE: nat := 4096
  const U64: nat := 0x1_0000_0000_0000_0000
  const HEAP_MAX: nat := 24 * 1024 * 1024
  const MAGIC: nat := 0xDEAD_BEEF_CAFE_BABE

  /** A block: its header at addr, then `size` bytes of payload. */
  datatype Block = Block(addr: nat, size: nat, used: bool)

  function End(b: Block): nat { b.addr + HEADER + b.size }

  /** Blocks cover [lo, hi) without gap or overlap; sizes and addresses are multiples of 16. */
  predicate Tiles(bs: seq<Block>, lo: nat, hi: nat)
  {
    && (bs == [] ==> lo == hi)
    && (bs != [] ==> bs[0].addr == lo && End(bs[|bs| - 1]) == hi)
    && (forall i :: 0 < i < |bs| ==> bs[i].addr == End(bs[i - 1]))
    && (forall i :: 0 <= i < |bs| ==> bs[i].size % ALIGN == 0 && bs[i].addr % ALIGN == 0)
  }

  predicate NoAdjacentFree(bs: seq<Block>)
  {
    forall i :: 0 < i < |bs| ==> bs[i - 1].used || bs[i].used
  }

  /** Bytes in use: the payload sizes of the used blocks. */
  function UsedBytes(bs: seq<Block>): nat
  {
    if bs == [] then 0 else (if bs[0].used then bs[0].size else 0) + UsedBytes(bs[1..])
  }

  /** The used blocks. */
  function Live(bs: seq<Block>): set<Block> { set b | b in bs && b.used }

  lemma {:induction false} Ordered(bs: seq<Block>, lo: nat, hi: nat, i: nat, j: nat)
    requires Tiles(bs, lo, hi) && i < j < |bs|
    ensures End(bs[i]) <= bs[j].addr
    decreases j
  {
    if i < j - 1 { Ordered(bs, lo, hi, i, j - 1); }
  }

  lemma AllOrdered(bs: seq<Block>, lo: nat, hi: nat)
    requires Tiles(bs, lo, hi)
    ensures Apart(bs)
    ensures forall i :: 0 <= i < |bs| ==> lo <= bs[i].addr && End(bs[i]) <= hi
  {
    forall i, j | 0 <= i < j < |bs| ensures End(bs[i]) <= bs[j].addr { Ordered(bs, lo, hi, i, j); }
  }

  /** Earlier blocks end before later ones start. */
  predicate Apart(bs: seq<Block>)
  {
    forall i, j :: 0 <= i < j < |bs| ==> End(bs[i]) <= bs[j].addr
  }

  /** Payloads of different live blocks do not overlap and are 16-aligned. */
  lemma PayloadsDisjoint(bs: seq<Block>, lo: nat, hi: nat, a: Block, b: Block)
    requires Tiles(bs, lo, hi) && a in Live(bs) && b in Live(bs) && a != b
    ensures End(a) <= b.addr || End(b) <= a.addr
    ensures (a.addr + HEADER) % ALIGN == 0
    ensures lo <= a.addr && End(a) <= hi
  {
    hide Tiles;
    AllOrdered(bs, lo, hi);
    var i :| 0 <= i < |bs| && bs[i] == a;
    var j :| 0 <= j < |bs| && bs[j] == b;
    BlockAligned(bs, i, lo, hi);
    Aligned(a.addr, 0);
  }

  lemma {:induction false} UsedConcat(a: seq<Block>, b: seq<Block>)
    ensures UsedBytes(a + b) == UsedBytes(a) + UsedBytes(b)
  {
    if a == [] {
      assert a + b == b;
    } else {
      assert (a + b)[1..] == a[1..] + b;
      UsedConcat(a[1..], b);
    }
  }

  /** `bs` with the blocks i..i+k replaced by `mid`. */
  function Replace(bs: seq<Block>, i: nat, k: nat, mid: seq<Block>): seq<Block>
    requires i + k <= |bs|
  {
    bs[..i] + mid + bs[i + k..]
  }

  lemma UsedReplace(bs: seq<Block>, i: nat, k: nat, mid: seq<Block>)
    requires i + k <= |bs|
    ensures UsedBytes(Replace(bs, i, k, mid)) == UsedBytes(bs) - UsedBytes(bs[i..i + k]) + UsedBytes(mid)
  {
    assert bs == bs[..i] + (bs[i..i + k] + bs[i + k..]);
    assert Replace(bs, i, k, mid) == bs[..i] + (mid + bs[i + k..]);
    UsedConcat(bs[..i], bs[i..i + k] + bs[i + k..]);
    UsedConcat(bs[i..i + k], bs[i + k..]);
    UsedConcat(bs[..i], mid + bs[i + k..]);
    UsedConcat(mid, bs[i + k..]);
  }

  lemma LiveConcat(a: seq<Block>, b: seq<Block>)
    ensures Live(a + b) == Live(a) + Live(b)
  {
  }

  lemma LiveReplace(bs: seq<Block>, i: nat, k: nat, mid: seq<Block>)
    requires i + k <= |bs|
    ensures Live(bs) == Live(bs[..i]) + Live(bs[i..i + k]) + Live(bs[i + k..])
    ensures Live(Replace(bs, i, k, mid)) == Live(bs[..i]) + Live(mid) + Live(bs[i + k..])
  {
    hide Live;
    assert bs == bs[..i] + bs[i..i + k] + bs[i + k..];
    LiveConcat(bs[..i] + bs[i..i + k], bs[i + k..]);
    LiveConcat(bs[..i], bs[i..i + k]);
    LiveConcat(bs[..i] + mid, bs[i + k..]);
    LiveConcat(bs[..i], mid);
  }

  /** Blocks that tile the place of a run of blocks may stand for it. */
  lemma TilesReplace(bs: seq<Block>, i: nat, k: nat, mid: seq<Block>, lo: nat, hi: nat)
    requires Tiles(bs, lo, hi) && 0 < k && i + k <= |bs| && mid != []
    requires Tiles(mid, bs[i].addr, End(bs[i + k - 1]))
    ensures Tiles(Replace(bs, i, k, mid), lo, hi)
  {
    var r, n := Replace(bs, i, k, mid), |mid|;
    forall j | 0 <= j < |r|
      ensures r[j] == if j < i then bs[j] else if j < i + n then mid[j - i] else bs[j - n + k]
    {
    }
    forall j | 0 < j < |r| ensures r[j].addr == End(r[j - 1]) {
      if j == i + n { assert r[j] == bs[i + k]; }
    }
    if i + k == |bs| { assert r[|r| - 1] == mid[n - 1]; } else { assert r[|r| - 1] == bs[|bs| - 1]; }
  }

  // ------------------------------------------------------------ allocating from a block

  /** A block is split only if the rest can hold more than a header and 16 bytes. */
  predicate Splits(b: Block, size: nat) { b.size > size + HEADER + ALIGN }

  /** What a block becomes when `size` bytes are allocated from it. */
  function Parts(b: Block, size: nat): seq<Block>
  {
    if Splits(b, size) then
      [Block(b.addr, size, true), Block(b.addr + HEADER + size, b.size - size - HEADER, false)]
    else [b.(used := true)]
  }

  function Allocate(bs: seq<Block>, i: nat, size: nat): seq<Block>
    requires i < |bs|
  {
    Replace(bs, i, 1, Parts(bs[i], size))
  }

  /** The block handed out is never more than a header and 16 bytes larger than the request, and a free
      block that is cut off holds more than 16 bytes. */
  lemma AllocateBounds(bs: seq<Block>, i: nat, size: nat)
    requires i < |bs| && size <= bs[i].size
    ensures var r, b := Allocate(bs, i, size), Parts(bs[i], size)[0];
      && b.addr == bs[i].addr && b.used && size <= b.size <= size + 48 + 16
      && |r| == (if bs[i].size > size + 48 + 16 then |bs| + 1 else |bs|)
      && (bs[i].size > size + 48 + 16 ==> b.size == size)
      && forall c :: c in r && !c.used && c !in bs ==> c.size > 16
  {
  }

  /** A used block is cut down to `size` exactly if more than a header and 16 bytes would be left over, and
      those become a free block behind it. */
  predicate SplitAt(bs: seq<Block>, i: nat, size: nat, r: seq<Block>)
    requires i < |bs|
  {
    if bs[i].size > size + 48 + 16
    then && |r| == |bs| + 1 && r[i] == bs[i].(size := size) && !r[i + 1].used && r[i + 1].size > 16
         && r[i + 1].addr == bs[i].addr + 48 + size && End(r[i + 1]) == End(bs[i])
         && r[..i] == bs[..i] && r[i + 2..] == bs[i + 1..]
    else r == bs
  }

  lemma SplitMeans(bs: seq<Block>, i: nat, size: nat)
    requires i < |bs| && bs[i].used
    ensures SplitAt(bs, i, size, Replace(bs, i, 1, Parts(bs[i], size)))
  {
    var r := Replace(bs, i, 1, Parts(bs[i], size));
    if !Splits(bs[i], size) { assert r == bs; }
  }

  // ------------------------------------------------------------ merging

  function Merged(a: Block, b: Block): Block { Block(a.addr, a.size + HEADER + b.size, false) }

  /** coalesce_blocks from position i on: merge free neighbours, looking again after each merge. */
  function CoalesceFrom(bs: seq<Block>, i: nat): seq<Block>
    decreases |bs|, |bs| - i
  {
    if i + 1 >= |bs| then bs
    else if !bs[i].used && !bs[i + 1].used then CoalesceFrom(Replace(bs, i, 2, [Merged(bs[i], bs[i + 1])]), i)
    else CoalesceFrom(bs, i + 1)
  }

  lemma MergeKeeps(bs: seq<Block>, i: nat, lo: nat, hi: nat)
    requires Tiles(bs, lo, hi) && i + 1 < |bs| && !bs[i].used && !bs[i + 1].used
    ensures var bs' := Replace(bs, i, 2, [Merged(bs[i], bs[i + 1])]);
      && Tiles(bs', lo, hi) && Live(bs') == Live(bs) && UsedBytes(bs') == UsedBytes(bs)
  {
    hide Replace, Live, UsedBytes;
    var m := Merged(bs[i], bs[i + 1]);
    assert bs[i..i + 2] == [bs[i], bs[i + 1]];
    TilesReplace(bs, i, 2, [m], lo, hi);
    LiveReplace(bs, i, 2, [m]);
    UsedReplace(bs, i, 2, [m]);
    NotLive(bs[i]);
    NotLive(bs[i + 1]);
    NotLive(m);
    LiveConcat([bs[i]], [bs[i + 1]]);
    UsedTwo(bs[i], bs[i + 1]);
    assert [bs[i]] + [bs[i + 1]] == [bs[i], bs[i + 1]];
  }

  lemma NotLive(b: Block)
    requires !b.used
    ensures Live([b]) == {} && UsedBytes([b]) == 0
  {
    UsedOne(b);
  }

  lemma UsedOne(a: Block)
    ensures UsedBytes([a]) == if a.used then a.size else 0
  {
    assert [a][1..] == [];
  }

  lemma UsedTwo(a: Block, b: Block)
    ensures UsedBytes([a, b]) == UsedBytes([a]) + UsedBytes([b])
  {
    assert [a, b][1..] == [b];
    UsedOne(a);
  }

  /** coalesce_blocks keeps the tiling and the live blocks and leaves no two free neighbours. */
  lemma {:induction false} CoalesceKeeps(bs: seq<Block>, i: nat, lo: nat, hi: nat)
    requires Tiles(bs, lo, hi) && i <= |bs|
    requires forall k :: 0 < k <= i && k < |bs| ==> bs[k - 1].used || bs[k].used
    ensures var r := CoalesceFrom(bs, i);
      Tiles(r, lo, hi) && Live(r) == Live(bs) && UsedBytes(r) == UsedBytes(bs) && NoAdjacentFree(r)
    decreases |bs|, |bs| - i
  {
    if i + 1 < |bs| {
      if !bs[i].used && !bs[i + 1].used {
        MergeKeeps(bs, i, lo, hi);
        CoalesceKeeps(Replace(bs, i, 2, [Merged(bs[i], bs[i + 1])]), i, lo, hi);
      } else {
        CoalesceKeeps(bs, i + 1, lo, hi);
      }
    }
  }

  // ------------------------------------------------------------ what each call does

  lemma AllocateTiles(bs: seq<Block>, i: nat, size: nat, lo: nat, hi: nat)
    requires Tiles(bs, lo, hi) && i < |bs| && size <= bs[i].size && size % ALIGN == 0
    ensures Tiles(Allocate(bs, i, size), lo, hi)
  {
    hide Replace, Parts, Tiles;
    BlockAligned(bs, i, lo, hi);
    PartsTile(bs[i], size);
    TilesReplace(bs, i, 1, Parts(bs[i], size), lo, hi);
  }

  lemma BlockAligned(bs: seq<Block>, i: nat, lo: nat, hi: nat)
    requires Tiles(bs, lo, hi) && i < |bs|
    ensures bs[i].addr % ALIGN == 0 && bs[i].size % ALIGN == 0
  {
  }

  lemma PartsTile(b: Block, size: nat)
    requires b.addr % ALIGN == 0 && b.size % ALIGN == 0 && size % ALIGN == 0 && size <= b.size
    ensures Tiles(Parts(b, size), b.addr, End(b)) && Parts(b, size) != []
  {
    Aligned(b.addr, size);
    if b.size >= size + HEADER { Aligned(b.size - size - HEADER, size); }
  }

  lemma Aligned(x: nat, y: nat)
    requires y % ALIGN == 0
    ensures (x + HEADER + y) % ALIGN == x % ALIGN
  {
    var k, q, r := y / 16, x / 16, x % 16;
    assert x + HEADER + y == 16 * (q + 3 + k) + r;
  }

  lemma AllocateSeparates(bs: seq<Block>, i: nat, size: nat)
    requires i < |bs| && NoAdjacentFree(bs) && !bs[i].used
    ensures NoAdjacentFree(Allocate(bs, i, size))
  {
    var r := Allocate(bs, i, size);
    forall k | 0 < k < |r| ensures r[k - 1].used || r[k].used {
      if Splits(bs[i], size) && k > i + 1 {
        assert r[k] == bs[k - 1];
      }
    }
  }

  lemma AllocateLive(bs: seq<Block>, i: nat, size: nat)
    requires i < |bs| && Apart(bs) && !bs[i].used
    ensures var b := Parts(bs[i], size)[0];
      && b !in Live(bs) && Live(Allocate(bs, i, size)) == Live(bs) + {b}
      && (forall c :: c in Live(bs) ==> c.addr != b.addr)
  {
    hide Replace;
    var ps := Parts(bs[i], size);
    LiveReplace(bs, i, 1, ps);
    assert bs[i..i + 1] == [bs[i]];
    NotLive(bs[i]);
    PartsLive(bs[i], size);
    forall c | c in Live(bs) ensures c.addr != bs[i].addr {
      var k :| 0 <= k < |bs| && bs[k] == c;
      assert k != i;
    }
  }

  lemma PartsLive(b: Block, size: nat)
    ensures var ps := Parts(b, size); ps != [] && Live(ps) == {ps[0]} && ps[0].addr == b.addr
  {
    var ps := Parts(b, size);
    assert ps[0] in ps;
  }

  lemma AllocateUses(bs: seq<Block>, i: nat, size: nat)
    requires i < |bs| && !bs[i].used
    ensures UsedBytes(Allocate(bs, i, size)) == UsedBytes(bs) + Parts(bs[i], size)[0].size
  {
    var ps := Parts(bs[i], size);
    UsedReplace(bs, i, 1, ps);
    assert bs[i..i + 1] == [bs[i]];
    UsedOne(bs[i]);
    if Splits(bs[i], size) { UsedTwo(ps[0], ps[1]); } else { UsedOne(ps[0]); }
  }

  function Freed(bs: seq<Block>, i: nat): seq<Block>
    requires i < |bs|
  {
    bs[i := bs[i].(used := false)]
  }

  lemma FreedKeeps(bs: seq<Block>, i: nat, lo: nat, hi: nat)
    requires Tiles(bs, lo, hi) && i < |bs| && bs[i].used
    ensures Tiles(Freed(bs, i), lo, hi)
    ensures UsedBytes(Freed(bs, i)) == UsedBytes(bs) - bs[i].size
    ensures Live(Freed(bs, i)) == Live(bs) - {bs[i]}
  {
    hide Tiles, Live, UsedBytes, Apart, Freed;
    FreedUses(bs, i);
    AllOrdered(bs, lo, hi);
    FreedLive(bs, i);
    FreedTiles(bs, i, lo, hi);
  }

  lemma FreedTiles(bs: seq<Block>, i: nat, lo: nat, hi: nat)
    requires Tiles(bs, lo, hi) && i < |bs|
    ensures Tiles(Freed(bs, i), lo, hi)
  {
  }

  lemma FreedUses(bs: seq<Block>, i: nat)
    requires i < |bs| && bs[i].used
    ensures UsedBytes(Freed(bs, i)) == UsedBytes(bs) - bs[i].size
  {
    var b := bs[i].(used := false);
    assert Freed(bs, i) == Replace(bs, i, 1, [b]);
    UsedReplace(bs, i, 1, [b]);
    assert bs[i..i + 1] == [bs[i]];
    UsedOne(bs[i]);
    UsedOne(b);
  }

  lemma FreedLive(bs: seq<Block>, i: nat)
    requires i < |bs| && Apart(bs)
    ensures Live(Freed(bs, i)) == Live(bs) - {bs[i]}
  {
    var r := Freed(bs, i);
    forall c | c in Live(bs) && c != bs[i] ensures c in r {
      var k :| 0 <= k < |bs| && bs[k] == c;
      assert r[k] == c;
    }
    forall c | c in Live(r) ensures c in bs && c != bs[i] {
      var k :| 0 <= k < |r| && r[k] == c;
      assert bs[k] == c;
    }
  }

  lemma AppendKeeps(bs: seq<Block>, lo: nat, hi: nat, b: Block)
    requires Tiles(bs, lo, hi) && b.addr == hi && !b.used && hi % ALIGN == 0 && b.size % ALIGN == 0
    ensures Tiles(bs + [b], lo, End(b))
    ensures Live(bs + [b]) == Live(bs) && UsedBytes(bs + [b]) == UsedBytes(bs)
  {
    UsedConcat(bs, [b]);
    assert [b][1..] == [];
  }

  // ------------------------------------------------------------ finding a block

  /** Position of the first free block of at least `size` bytes, |bs| if there is none. */
  function FirstFit(bs: seq<Block>, size: nat, i: nat): (r: nat)
    requires i <= |bs|
    ensures i <= r <= |bs| && (r < |bs| ==> !bs[r].used && bs[r].size >= size)
    ensures forall k :: i <= k < r ==> bs[k].used || bs[k].size < size
    decreases |bs| - i
  {
    if i == |bs| || (!bs[i].used && bs[i].size >= size) then i else FirstFit(bs, size, i + 1)
  }

  predicate HasFit(bs: seq<Block>, size: nat)
  {
    exists k :: 0 <= k < |bs| && !bs[k].used && bs[k].size >= size
  }

  /** Merging never loses a free block of sufficient size. */
  lemma {:induction false} CoalesceFits(bs: seq<Block>, i: nat, size: nat)
    requires i <= |bs| && HasFit(bs, size)
    ensures HasFit(CoalesceFrom(bs, i), size)
    decreases |bs|, |bs| - i
  {
    if i + 1 < |bs| {
      if !bs[i].used && !bs[i + 1].used {
        MergeFits(bs, i, size);
        CoalesceFits(Replace(bs, i, 2, [Merged(bs[i], bs[i + 1])]), i, size);
      } else {
        CoalesceFits(bs, i + 1, size);
      }
    }
  }

  lemma MergeFits(bs: seq<Block>, i: nat, size: nat)
    requires i + 1 < |bs| && !bs[i].used && !bs[i + 1].used && HasFit(bs, size)
    ensures HasFit(Replace(bs, i, 2, [Merged(bs[i], bs[i + 1])]), size)
  {
    var bs' := Replace(bs, i, 2, [Merged(bs[i], bs[i + 1])]);
    var k :| 0 <= k < |bs| && !bs[k].used && bs[k].size >= size;
    var k' := if k < i then k else if k <= i + 1 then i else k - 1;
    assert !bs'[k'].used && bs'[k'].size >= size;
  }
}
