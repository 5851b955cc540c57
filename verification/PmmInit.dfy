/** Bringing the page allocator up from the firmware's memory map. */
module PmmInit {
  import opened PmmPages
  import opened Pmm

  const MAX_PHYSICAL: nat := MAX_PAGES * PAGE
  const LOW_MEGABYTE: nat := 0x100000
  /** Memory kept for the kernel when there is no map. */
  const FALLBACK_KERNEL: nat := 16 * 1024 * 1024
  const KERNEL_RESERVE_MARGIN: nat := 0x4000

  /** An E820 entry: kind 1 is usable memory, kinds 2 to 5 are not. */
  datatype Region = Region(base: nat, length: nat, kind: nat)

  function FirstPage(base: nat): nat { base / PAGE }

  function PastPage(end: nat): nat { (end + PAGE - 1) / PAGE }

  predicate NoWrap(regions: seq<Region>)
  {
    forall i :: 0 <= i < |regions| ==> regions[i].base + regions[i].length + PAGE < U64
  }

  /** Page p touches region r. */
  predicate Touches(r: Region, p: nat) { FirstPage(r.base) <= p < PastPage(r.base + r.length) }

  /** For a region that is not empty this means they share a byte. */
  lemma TouchesShares(r: Region, p: nat)
    requires r.length > 0
    ensures Touches(r, p) <==> exists a: nat :: InPage(a, p) && r.base <= a < r.base + r.length
  {
    if Touches(r, p) {
      assert InPage(Max(r.base, p * PAGE), p);
    }
  }

  predicate InPage(a: nat, p: nat) { p * PAGE <= a < (p + 1) * PAGE }

  /** One of the first n regions is usable and page p touches it. */
  predicate Usable(regions: seq<Region>, n: nat, p: nat)
    requires n <= |regions|
  {
    exists i :: 0 <= i < n && regions[i].kind == 1 && Touches(regions[i], p)
  }

  predicate Unusable(regions: seq<Region>, n: nat, p: nat)
    requires n <= |regions|
  {
    exists i :: 0 <= i < n && 2 <= regions[i].kind <= 5 && Touches(regions[i], p)
  }

  /** Opening the books: nothing but free and never-entered reserved pages. */
  ghost predicate Opening(m: Pmm)
    reads m, m.bitmap, m.kind
  {
    && m.Books() && m.uncounted == Count(m.kind[..], Reserved) && m.totalPages + m.uncounted == MAX_PAGES
    && forall p :: 0 <= p < MAX_PAGES ==> m.kind[p] in {Free, Reserved}
  }

  /** Enter pages of [first, past) below `limit` bytes and page n that are not free yet. */
  method ReleaseRange(m: Pmm, first: nat, past: nat, limit: nat, n: nat)
    requires Opening(m) && n <= MAX_PAGES && n * PAGE <= limit
    modifies m`byType, m`freePages, m`totalPages, m`uncounted, m.bitmap, m.kind
    ensures Opening(m)
    ensures forall q :: 0 <= q < MAX_PAGES ==> m.kind[q] == if first <= q < past && q < n then Free else old(m.kind[q])
  {
    hide Count, Counted, Agree, Pmm.Bits;
    var page := first;
    while page * PAGE < past * PAGE && page * PAGE < limit
      invariant Opening(m) && first <= page
      invariant forall q :: 0 <= q < MAX_PAGES ==>
                  m.kind[q] == if first <= q < page && q < past && q < n then Free else old(m.kind[q])
      decreases past - page
    {
      if page < n {
        KindOf(m, page);
        var used := m.BitmapTest(page);
        if used {
          ghost var k0 := m.kind[..];
          Enter(m, page);
          assert forall q :: 0 <= q < MAX_PAGES ==> m.kind[..][q] == if q == page then Free else k0[q];
        }
      }
      page := page + 1;
    }
  }

  lemma KindOf(m: Pmm, p: nat)
    requires m.Books() && p < MAX_PAGES
    ensures m.Bits()[p] <==> m.kind[p] != Free
  {
    hide Count, Counted, Pmm.Bits;
    assert m.kind[p] == m.kind[..][p];
  }

  lemma KindsOf(m: Pmm)
    requires m.Books()
    ensures forall p :: 0 <= p < MAX_PAGES ==> (m.Bits()[p] <==> m.kind[p] != Free)
  {
    hide Pmm.Bits, Agree, Count, Counted;
    forall p | 0 <= p < MAX_PAGES ensures m.Bits()[p] <==> m.kind[p] != Free { KindOf(m, p); }
  }

  method Enter(m: Pmm, page: nat)
    requires Opening(m) && page < MAX_PAGES && m.Bits()[page]
    modifies m`byType, m`freePages, m`totalPages, m`uncounted, m.bitmap, m.kind
    ensures Opening(m) && m.kind[..] == old(m.kind[..])[page := Free]
  {
    hide Count, Counted, Pmm.Bits;
    EnteredBooks(m.Bits(), m.kind[..], m.byType, m.uncounted, page, Free);
    m.BitmapClear(page);
    m.kind[page] := Free;
    m.totalPages := m.totalPages + 1;
    m.freePages := m.freePages + 1;
    m.byType := m.byType[Index(Free) := Up(m.byType[Index(Free)])];
    m.uncounted := m.uncounted - 1;
  }

  /** A reserved page that was in no count enters the count of type t. */
  lemma EnteredBooks(bits: seq<bool>, kind: seq<PageType>, c: seq<nat>, uncounted: nat, p: nat, t: PageType)
    requires Agree(bits, kind) && Counted(c, kind, uncounted) && p < |kind| && kind[p] == Reserved
    requires uncounted == Count(kind, Reserved) && t != Reserved
    ensures uncounted > 0 && |c| == 7 && Counted(c[Index(t) := Up(c[Index(t)])], kind[p := t], uncounted - 1)
    ensures Agree(bits[p := t != Free], kind[p := t])
    ensures Count(kind[p := t], Free) == Count(kind, Free) + if t == Free then 1 else 0
    ensures Count(kind[p := t], Reserved) == uncounted - 1
  {
    hide Reading, Count, Up;
    CountUpdate(kind, p, t, Reserved);
    forall u: PageType
      ensures c[Index(t) := Up(c[Index(t)])][Index(u)]
           == Reading(Count(kind[p := t], u), if u == Reserved then uncounted - 1 else 0)
    {
      CountUpdate(kind, p, t, u);
      Readings(Count(kind, u), 0);
      Readings(uncounted - 1, uncounted - 1);
    }
    CountUpdate(kind, p, t, Free);
  }

  /** Take the free pages of [first, past) below `limit` bytes and page n out of use. */
  method MarkRange(m: Pmm, first: nat, past: nat, limit: nat, n: nat, t: PageType)
    requires m.Books() && n <= MAX_PAGES && n * PAGE <= limit && t != Free
    modifies m`byType, m`freePages, m.bitmap, m.kind
    ensures m.Books()
    ensures forall q :: 0 <= q < MAX_PAGES ==>
              m.kind[q] == if old(m.kind[q]) == Free && first <= q < past && q < n then t else old(m.kind[q])
  {
    hide Count, Counted, Agree, Pmm.Bits;
    var page := first;
    while page * PAGE < past * PAGE && page * PAGE < limit
      invariant m.Books() && first <= page
      invariant forall q :: 0 <= q < MAX_PAGES ==>
                  m.kind[q] == if old(m.kind[q]) == Free && first <= q < page && q < past && q < n then t
                    else old(m.kind[q])
      decreases past - page
    {
      if page < n {
        KindOf(m, page);
        var used := m.BitmapTest(page);
        if !used {
          ghost var k0 := m.kind[..];
          m.Mark(page, t);
          assert forall q :: 0 <= q < MAX_PAGES ==> m.kind[..][q] == if q == page then t else k0[q];
        }
      }
      page := page + 1;
    }
  }

  /** pmm_compute_zones: the low zone is the first quarter of the span from the first free page
      to the last, the high zone the rest; every free page is in one of them. */
  method ComputeZones(m: Pmm, n: nat)
    requires m.Books() && n <= MAX_PAGES && (n > 0 ==> m.Bits()[0]) && forall q :: n <= q < MAX_PAGES ==> m.Bits()[q]
    modifies m`zones
    ensures m.Valid() && Zoned(m.Bits(), m.zones)
  {
    hide Count, Counted, Agree, Pmm.Bits;
    var first: nat, last: nat, page: nat := n, 0, 0;
    while page < n
      invariant 0 <= page <= n && first <= n && last <= page
      invariant forall q :: 0 <= q < page && !m.Bits()[q] ==> first <= q <= last
      invariant first < n ==> first <= last < page && !m.Bits()[first] && !m.Bits()[last]
      invariant first == n ==> last == 0
    {
      var used := m.BitmapTest(page);
      if !used {
        if page < first { first := page; }
        if page > last { last := page; }
      }
      page := page + 1;
    }
    if first == n {
      m.zones := NO_ZONES;
      return;
    }
    var lowEnd := first + (last - first) / 4;
    var highStart, highEnd := lowEnd + 1, last;
    if highStart > highEnd { highStart, highEnd := 0, 0; }
    m.zones := Zones(first, lowEnd, highStart, highEnd, first, highEnd);
  }

  /** The zones are disjoint and hold every free page, the low one about a quarter of the span. */
  predicate Zoned(bits: seq<bool>, z: Zones)
  {
    && (forall q :: 0 <= q < |bits| && !bits[q] ==>
          (z.lowStart != 0 && z.lowStart <= q <= z.lowEnd) || (z.highStart != 0 && z.highStart <= q <= z.highEnd))
    && (z.lowStart != 0 ==> z.lowStart <= z.lowEnd < |bits| && !bits[z.lowStart])
    && (z.highStart != 0 ==> z.lowStart != 0 && z.highStart == z.lowEnd + 1 && z.highEnd < |bits| && !bits[z.highEnd]
                             && z.lowEnd - z.lowStart == (z.highEnd - z.lowStart) / 4)
  }

  /** The type of page p once the allocator is up. */
  function TypeAtBoot(regions: seq<Region>, kernelFirst: nat, kernelPast: nat, n: nat, p: nat): PageType
  {
    if regions == [] then if p < FALLBACK_KERNEL / PAGE then Kernel else Free
    else if p >= n || !Usable(regions, |regions|, p) then Reserved
    else if p < LOW_MEGABYTE / PAGE || kernelFirst <= p < kernelPast then Kernel
    else if Unusable(regions, |regions|, p) then Reserved
    else Free
  }

  /** The part of pmm_init without a memory map: all the memory the allocator can track is there,
      the first 16 MB belong to the kernel. */
  method InitFallback(m: Pmm)
    requires Opening(m) && forall p :: 0 <= p < MAX_PAGES ==> m.kind[p] == Reserved
    modifies m`byType, m`freePages, m`totalPages, m`uncounted, m`zones, m.bitmap, m.kind
    ensures m.Valid() && Zoned(m.Bits(), m.zones)
    ensures m.totalPages == m.freePages == MAX_PAGES - FALLBACK_KERNEL / PAGE
    ensures forall p :: 0 <= p < MAX_PAGES ==> m.kind[p] == if p < FALLBACK_KERNEL / PAGE then Kernel else Free
  {
    hide Count, Counted, Agree, Pmm.Bits, Hints;
    var page := 0;
    m.totalPages, m.freePages := 0, 0;
    NothingFree(m);
    while page < MAX_PAGES
      invariant 0 <= page <= MAX_PAGES && m.Books() && m.uncounted == Count(m.kind[..], Reserved)
      invariant m.totalPages == m.freePages == if page < FALLBACK_KERNEL / PAGE then 0
                  else page - FALLBACK_KERNEL / PAGE
      invariant forall q :: 0 <= q < MAX_PAGES ==> m.kind[q] == FallbackType(page, q)
    {
      EnterAs(m, page, if page < FALLBACK_KERNEL / PAGE then Kernel else Free);
      page := page + 1;
    }
    KindsOf(m);
    ComputeZones(m, MAX_PAGES);
  }

  /** Types once the pages below n are set up. */
  function FallbackType(n: nat, q: nat): PageType
  {
    if q >= n then Reserved else if q < FALLBACK_KERNEL / PAGE then Kernel else Free
  }

  lemma NothingFree(m: Pmm)
    requires m.Sized() && forall p :: 0 <= p < MAX_PAGES ==> m.kind[p] == Reserved
    ensures Count(m.kind[..], Free) == 0
  {
    hide Count;
    CountAll(m.kind[..], Reserved, Free);
  }

  method EnterAs(m: Pmm, page: nat, t: PageType)
    requires m.Books() && m.uncounted == Count(m.kind[..], Reserved) && page < MAX_PAGES && m.kind[page] == Reserved
    requires t == Kernel || t == Free
    modifies m`byType, m`freePages, m`totalPages, m`uncounted, m.bitmap, m.kind
    ensures m.Books() && m.uncounted == Count(m.kind[..], Reserved) && m.kind[..] == old(m.kind[..])[page := t]
    ensures m.freePages == old(m.freePages) + (if t == Free then 1 else 0)
    ensures m.totalPages == old(m.totalPages) + (if t == Free then 1 else 0)
  {
    hide Count, Counted, Pmm.Bits, Agree;
    assert m.kind[..][page] == Reserved;
    EnteredBooks(m.Bits(), m.kind[..], m.byType, m.uncounted, page, t);
    if t == Kernel {
      m.BitmapSet(page);
    } else {
      m.BitmapClear(page);
      m.totalPages := m.totalPages + 1;
      m.freePages := m.freePages + 1;
    }
    m.kind[page] := t;
    m.byType := m.byType[Index(t) := Up(m.byType[Index(t)])];
    m.uncounted := m.uncounted - 1;
  }

  /** The part of pmm_init with a memory map. */
  method InitFromMap(m: Pmm, regions: seq<Region>, kernelStart: nat, loadedEnd: nat, kernelEnd: nat)
    requires Opening(m) && NoWrap(regions) && forall p :: 0 <= p < MAX_PAGES ==> m.kind[p] == Reserved
    requires kernelEnd + PAGE < U64 && loadedEnd + KERNEL_RESERVE_MARGIN + PAGE < U64 && regions != []
    modifies m`maxPhysical, m`byType, m`freePages, m`totalPages, m`uncounted, m`zones, m.bitmap, m.kind
    ensures m.Valid() && Zoned(m.Bits(), m.zones) && m.totalPages + m.uncounted == MAX_PAGES
    ensures forall p :: 0 <= p < MAX_PAGES ==>
              m.kind[p] == TypeAtBoot(regions, FirstPage(kernelStart),
                                      PastPage(Max(kernelEnd, loadedEnd + KERNEL_RESERVE_MARGIN)), Pages(regions), p)
  {
    hide Count, Counted, Agree, Pmm.Bits, Hints, Zoned;
    OpeningSized(m);
    MaxPhysical(m, regions);
    var limit, n := m.maxPhysical, m.maxPhysical / PAGE;
    ReleaseUsable(m, regions, limit, n);
    MarkRange(m, 0, LOW_MEGABYTE / PAGE, limit, n, Kernel);
    var kend := if loadedEnd + KERNEL_RESERVE_MARGIN > kernelEnd then loadedEnd + KERNEL_RESERVE_MARGIN else kernelEnd;
    MarkRange(m, FirstPage(kernelStart), PastPage(kend), limit, n, Kernel);
    MarkUnusable(m, regions, limit, n);
    KindsOf(m);
    ComputeZones(m, n);
  }

  lemma OpeningSized(m: Pmm)
    requires Opening(m)
    ensures m.Sized()
  {
  }

  /** pmm_init: from any memory map, in any order and overlapping or not, the free pages are
      exactly those that touch usable memory and lie above the first megabyte, outside the kernel
      image and outside every unusable region; the others are typed by why they are not free.
      Without a map the first 16 MB are the kernel's and all the rest is free. `kernelEnd` is the
      physical address of the end of the kernel's memory, `loadedEnd` the end of what was loaded. */
  method Init(m: Pmm, regions: seq<Region>, kernelStart: nat, loadedEnd: nat, kernelEnd: nat)
    requires m.Sized() && NoWrap(regions)
    requires kernelEnd + PAGE < U64 && loadedEnd + KERNEL_RESERVE_MARGIN + PAGE < U64
    modifies m, m.bitmap, m.kind, m.refs
    ensures m.Valid() && Zoned(m.Bits(), m.zones) && (regions != [] ==> m.totalPages + m.uncounted == MAX_PAGES)
    ensures forall p :: 0 <= p < MAX_PAGES ==> m.refs[p] == 0
    ensures forall p :: 0 <= p < MAX_PAGES ==>
              m.kind[p] == TypeAtBoot(regions, FirstPage(kernelStart),
                                      PastPage(Max(kernelEnd, loadedEnd + KERNEL_RESERVE_MARGIN)), Pages(regions), p)
  {
    hide Count, Counted, Agree, Pmm.Bits, Hints;
    ReserveAll(m);
    if regions == [] {
      m.maxPhysical := MAX_PHYSICAL;
      InitFallback(m);
      return;
    }
    InitFromMap(m, regions, kernelStart, loadedEnd, kernelEnd);
  }

  /** Pages the allocator manages: up to the end of the highest region, at most MAX_PAGES. */
  function Pages(regions: seq<Region>): nat
  {
    var top := Top(regions, |regions|);
    (if top > MAX_PHYSICAL then MAX_PHYSICAL else top) / PAGE
  }

  function Top(regions: seq<Region>, k: nat): nat
    requires k <= |regions|
  {
    if k == 0 then 0 else Max(Top(regions, k - 1), regions[k - 1].base + regions[k - 1].length)
  }

  lemma {:induction false} TopIsLargest(regions: seq<Region>, k: nat)
    requires k <= |regions|
    ensures forall i :: 0 <= i < k ==> regions[i].base + regions[i].length <= Top(regions, k)
    ensures Top(regions, k) == 0 || exists i :: 0 <= i < k && regions[i].base + regions[i].length == Top(regions, k)
  {
    if k > 0 { TopIsLargest(regions, k - 1); }
  }

  /** The pages the allocator manages: those it can track that end at or below the end of some region. */
  lemma PagesMeans(regions: seq<Region>, p: nat)
    ensures p < Pages(regions) <==>
              p < MAX_PAGES && exists i :: 0 <= i < |regions| && (p + 1) * PAGE <= regions[i].base + regions[i].length
  {
    TopIsLargest(regions, |regions|);
    var top := Top(regions, |regions|);
    var m := if top > MAX_PHYSICAL then MAX_PHYSICAL else top;
    assert p < m / PAGE <==> (p + 1) * PAGE <= m;
  }

  method MaxPhysical(m: Pmm, regions: seq<Region>)
    requires NoWrap(regions)
    modifies m`maxPhysical
    ensures m.maxPhysical <= MAX_PHYSICAL && m.maxPhysical / PAGE == Pages(regions)
  {
    m.maxPhysical := 0;
    for i := 0 to |regions|
      invariant m.maxPhysical == Top(regions, i)
    {
      var end := regions[i].base + regions[i].length;
      if end > m.maxPhysical { m.maxPhysical := end; }
    }
    if m.maxPhysical > MAX_PHYSICAL { m.maxPhysical := MAX_PHYSICAL; }
  }

  /** Every page reserved, nothing entered. */
  method ReserveAll(m: Pmm)
    requires m.Sized()
    modifies m, m.bitmap, m.kind, m.refs
    ensures Opening(m) && forall p :: 0 <= p < MAX_PAGES ==> m.kind[p] == Reserved && m.refs[p] == 0
  {
    hide Count, Pmm.Bits;
    var p := 0;
    while p < MAX_PAGES
      invariant 0 <= p <= MAX_PAGES
      invariant forall q :: 0 <= q < p ==> m.Bits()[q] && m.kind[q] == Reserved && m.refs[q] == 0
    {
      m.BitmapSet(p);
      m.kind[p] := Reserved;
      m.refs[p] := 0;
      p := p + 1;
    }
    m.byType := [0, 0, 0, 0, 0, 0, 0];
    m.totalPages := 0;
    m.freePages := 0;
    m.zones := NO_ZONES;
    m.uncounted := MAX_PAGES;
    OpeningBooks(m.byType, m.kind[..]);
  }

  lemma OpeningBooks(c: seq<nat>, kind: seq<PageType>)
    requires c == [0, 0, 0, 0, 0, 0, 0] && forall p :: 0 <= p < |kind| ==> kind[p] == Reserved
    ensures Counted(c, kind, |kind|) && Count(kind, Free) == 0 && Count(kind, Reserved) == |kind|
  {
    hide Count;
    forall t: PageType ensures Count(kind, t) == if t == Reserved then |kind| else 0 { CountAll(kind, Reserved, t); }
  }

  method ReleaseUsable(m: Pmm, regions: seq<Region>, limit: nat, n: nat)
    requires Opening(m) && NoWrap(regions) && n <= MAX_PAGES && n * PAGE <= limit
    requires forall p :: 0 <= p < MAX_PAGES ==> m.kind[p] == Reserved
    modifies m`byType, m`freePages, m`totalPages, m`uncounted, m.bitmap, m.kind
    ensures m.Books() && m.totalPages + m.uncounted == MAX_PAGES
    ensures forall p :: 0 <= p < MAX_PAGES ==>
              m.kind[p] == if p < n && Usable(regions, |regions|, p) then Free else Reserved
  {
    hide Count, Counted, Agree, Pmm.Bits, FirstPage, PastPage;
    for i := 0 to |regions|
      invariant Opening(m)
      invariant forall p :: 0 <= p < MAX_PAGES ==>
                  m.kind[p] == if p < n && Usable(regions, i, p) then Free else Reserved
    {
      OneMore(regions, i);
      if regions[i].kind == 1 {
        ReleaseRange(m, FirstPage(regions[i].base), PastPage(regions[i].base + regions[i].length), limit, n);
      }
    }
  }

  method MarkUnusable(m: Pmm, regions: seq<Region>, limit: nat, n: nat)
    requires m.Books() && NoWrap(regions) && n <= MAX_PAGES && n * PAGE <= limit
    modifies m`byType, m`freePages, m.bitmap, m.kind
    ensures m.Books()
    ensures forall p :: 0 <= p < MAX_PAGES ==>
              m.kind[p] == if old(m.kind[p]) == Free && p < n && Unusable(regions, |regions|, p) then Reserved
                else old(m.kind[p])
  {
    hide Count, Counted, Agree, Pmm.Bits, FirstPage, PastPage;
    for i := 0 to |regions|
      invariant m.Books()
      invariant forall p :: 0 <= p < MAX_PAGES ==>
                  m.kind[p] == if old(m.kind[p]) == Free && p < n && Unusable(regions, i, p) then Reserved
                    else old(m.kind[p])
    {
      OneMore(regions, i);
      if regions[i].kind == 2 || regions[i].kind == 3 || regions[i].kind == 4 || regions[i].kind == 5 {
        MarkRange(m, FirstPage(regions[i].base), PastPage(regions[i].base + regions[i].length), limit, n, Reserved);
      }
    }
  }

  lemma OneMore(regions: seq<Region>, i: nat)
    requires i < |regions|
    ensures forall p: nat :: Usable(regions, i + 1, p) <==>
              Usable(regions, i, p) || (regions[i].kind == 1 && Touches(regions[i], p))
    ensures forall p: nat :: Unusable(regions, i + 1, p) <==>
              Unusable(regions, i, p) || (2 <= regions[i].kind <= 5 && Touches(regions[i], p))
  {
  }
}
