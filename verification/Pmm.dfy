/** The physical page allocator: a bitmap with zone hints, page types and counters. */
module Pmm {
  import opened PmmPages
  import opened PmmBitmap

  /** First page kernel and table allocations may use: 2 MB. */
  const KERNEL_FLOOR: nat := 512

  /** Page numbers of the two zones and where the next search in each begins. A zone with start 0
      is empty. */
  datatype Zones = Zones(lowStart: nat, lowEnd: nat, highStart: nat, highEnd: nat, nextLow: nat, nextHigh: nat)

  const NO_ZONES := Zones(0, 0, 0, 0, 0, 0)

  /** No page in [lo, hi] is free. */
  predicate Full(bits: seq<bool>, lo: nat, hi: nat)
  {
    forall p :: lo <= p <= hi && p < |bits| ==> bits[p]
  }

  function Max(a: nat, b: nat): nat { if a < b then b else a }

  /** What the hints promise: nothing free lies outside the part of a zone still to be searched,
      except below 2 MB in the low zone. */
  predicate Hints(bits: seq<bool>, z: Zones)
  {
    && (z.lowStart == 0 ==> z.lowEnd == 0 && z.nextLow == 0)
    && (z.lowStart != 0 ==> z.lowStart <= z.nextLow <= z.lowEnd < |bits|
                            && forall p :: Max(z.lowStart, KERNEL_FLOOR) <= p < z.nextLow ==> bits[p])
    && (z.highStart == 0 ==> z.highEnd == 0 && z.nextHigh == 0)
    && (z.highStart != 0 ==> z.highStart <= z.nextHigh <= z.highEnd < |bits|
                             && forall p :: z.nextHigh < p <= z.highEnd ==> bits[p])
  }

  predicate IsUser(t: PageType) { t == UserData || t == UserPageTable }

  predicate KeepsFloor(t: PageType) { t == Kernel || t == PageTable || t == Reserved }

  /** The zone a type is served from has no free page it may use. */
  predicate Exhausted(bits: seq<bool>, z: Zones, t: PageType)
  {
    if IsUser(t) then z.highStart == 0 || Full(bits, z.highStart, z.highEnd)
    else z.lowStart == 0 || Full(bits, if KeepsFloor(t) then Max(z.lowStart, KERNEL_FLOOR) else z.nextLow, z.lowEnd)
  }

  /** r is the address of the highest free page of the high zone, 0 if it has none. */
  predicate HighestFree(bits: seq<bool>, z: Zones, r: nat)
  {
    if r == 0 then z.highStart == 0 || forall p :: z.highStart <= p <= z.highEnd && p < |bits| ==> bits[p]
    else && z.highStart <= r / PAGE <= z.highEnd < |bits| && !bits[r / PAGE]
         && forall p :: r / PAGE < p <= z.highEnd ==> bits[p]
  }

  /** r is the address of the lowest free page of the low zone from 2 MB on, 0 if there is none. */
  predicate LowestFree(bits: seq<bool>, z: Zones, r: nat)
  {
    if r == 0 then
      z.lowStart == 0 ||
      forall p :: z.lowStart <= p <= z.lowEnd && p < |bits| && p * 4096 >= 0x20_0000 ==> bits[p]
    else && z.lowStart <= r / PAGE <= z.lowEnd < |bits| && !bits[r / PAGE] && r >= 0x20_0000
         && forall p :: z.lowStart <= p < r / PAGE && p * 4096 >= 0x20_0000 ==> bits[p]
  }

  /** r is the address of the first free page of the low zone from the hint on, 0 if there is none. */
  predicate FirstFromHint(bits: seq<bool>, z: Zones, r: nat)
  {
    if r == 0 then z.lowStart == 0 || forall p :: z.nextLow <= p <= z.lowEnd && p < |bits| ==> bits[p]
    else && z.nextLow <= r / PAGE <= z.lowEnd < |bits| && !bits[r / PAGE]
         && forall p :: z.nextLow <= p < r / PAGE ==> bits[p]
  }

  lemma LowestFound(bits: seq<bool>, z: Zones, p: nat)
    requires Hints(bits, z) && z.lowStart != 0 && z.nextLow <= p <= z.lowEnd && !bits[p] && p >= KERNEL_FLOOR
    requires forall q :: Max(z.nextLow, KERNEL_FLOOR) <= q < p ==> bits[q]
    ensures LowestFree(bits, z, p * PAGE)
  {
    assert p * PAGE / PAGE == p;
  }

  lemma HighestFound(bits: seq<bool>, z: Zones, p: nat)
    requires Hints(bits, z) && z.highStart != 0 && z.highStart <= p <= z.nextHigh && !bits[p]
    requires Full(bits, p + 1, z.highEnd) && p > 0
    ensures HighestFree(bits, z, p * PAGE)
  {
    assert p * PAGE / PAGE == p;
  }

  lemma NoneFound(bits: seq<bool>, z: Zones)
    ensures z.highStart == 0 || Full(bits, z.highStart, z.highEnd) ==> HighestFree(bits, z, 0)
    ensures z.lowStart == 0 || Full(bits, Max(z.lowStart, KERNEL_FLOOR), z.lowEnd) ==> LowestFree(bits, z, 0)
    ensures z.lowStart == 0 || Full(bits, z.nextLow, z.lowEnd) ==> FirstFromHint(bits, z, 0)
  {
  }

  lemma FirstFound(bits: seq<bool>, z: Zones, p: nat)
    requires Hints(bits, z) && z.lowStart != 0 && z.nextLow <= p <= z.lowEnd && !bits[p]
    requires forall q :: z.nextLow <= q < p ==> bits[q]
    ensures FirstFromHint(bits, z, p * PAGE)
  {
    assert p * PAGE / PAGE == p;
  }

  /** The hints after page p is freed. */
  function Returned(z: Zones, p: nat): Zones
  {
    var z1 := if z.lowStart <= p <= z.lowEnd && p < z.nextLow then z.(nextLow := p) else z;
    if z.highStart <= p <= z.highEnd && p > z.nextHigh then z1.(nextHigh := p) else z1
  }

  lemma HintsReturned(bits: seq<bool>, z: Zones, p: nat)
    requires Hints(bits, z) && p < |bits|
    ensures Hints(bits[p := false], Returned(z, p))
  {
  }

  lemma HintsClaimed(bits: seq<bool>, z: Zones, p: nat)
    requires Hints(bits, z) && p < |bits|
    ensures Hints(bits[p := true], z)
  {
  }

  /** The highest free page of the high zone is taken: the hint may move below it. */
  lemma HighTaken(bits: seq<bool>, z: Zones, p: nat)
    requires Hints(bits, z) && z.highStart != 0 && z.highStart <= p <= z.nextHigh && !bits[p]
    requires Full(bits, p + 1, z.highEnd)
    ensures Hints(bits[p := true], z.(nextHigh := if p > z.highStart then p - 1 else z.highStart))
    ensures p <= z.highEnd < |bits| && !Full(bits, z.highStart, z.highEnd)
  {
    HintsClaimed(bits, z, p);
  }

  /** A free page of the low zone with none before it is taken: the hint may move past it. */
  lemma LowTaken(bits: seq<bool>, z: Zones, p: nat)
    requires Hints(bits, z) && z.lowStart != 0 && z.nextLow <= p <= z.lowEnd && !bits[p]
    requires forall q :: Max(z.nextLow, KERNEL_FLOOR) <= q < p ==> bits[q]
    ensures Hints(bits[p := true], z.(nextLow := if p < z.lowEnd then p + 1 else z.lowEnd))
    ensures p >= KERNEL_FLOOR ==> !Full(bits, Max(z.lowStart, KERNEL_FLOOR), z.lowEnd)
    ensures z.lowStart <= p <= z.lowEnd < |bits| && !Full(bits, z.nextLow, z.lowEnd)
  {
    HintsClaimed(bits, z, p);
  }

  /** A search of the low zone from the hint on misses nothing above the floor. */
  lemma LowMissed(bits: seq<bool>, z: Zones)
    requires Hints(bits, z) && z.lowStart != 0 && Full(bits, Max(z.nextLow, KERNEL_FLOOR), z.lowEnd)
    ensures Full(bits, Max(z.lowStart, KERNEL_FLOOR), z.lowEnd)
  {
  }

  lemma ZonesEmpty(bits: seq<bool>, z: Zones)
    requires Hints(bits, z)
    ensures z.lowStart == 0 ==> z.lowEnd == 0
    ensures z.highStart == 0 ==> z.highEnd == 0
  {
  }

  class Pmm {
    const bitmap: array<bv8>
    const kind: array<PageType>
    const refs: array<nat>
    var zones: Zones
    var totalPages: nat
    var freePages: nat
    var maxPhysical: nat
    var byType: seq<nat>
    ghost var uncounted: nat

    ghost predicate Sized()
    {
      bitmap.Length == MAX_PAGES / 8 && kind.Length == MAX_PAGES && refs.Length == MAX_PAGES
    }

    ghost function Bits(): (s: seq<bool>)
      requires bitmap.Length == MAX_PAGES / 8
      reads bitmap
      ensures |s| == MAX_PAGES && forall p :: 0 <= p < MAX_PAGES ==> s[p] == Bit(bitmap[..], p)
    {
      var s := bitmap[..];
      seq(MAX_PAGES, p requires 0 <= p < MAX_PAGES => Bit(s, p))
    }

    /** Bits and types agree; both free counters are the number of free pages; every other counter
        is right up to the reserved pages that were never entered. */
    ghost predicate Books()
      reads this`byType, this`freePages, this`uncounted, bitmap, kind
    {
      && Sized() && Agree(Bits(), kind[..])
      && Counted(byType, kind[..], uncounted) && freePages == Count(kind[..], Free)
    }

    ghost predicate Valid()
      reads this, bitmap, kind
    {
      Books() && Hints(Bits(), zones)
    }

    method BitmapSet(page: nat)
      requires Sized() && page < MAX_PAGES
      modifies bitmap
      ensures Bits() == old(Bits())[page := true]
    {
      ghost var s := bitmap[..];
      bitmap[page / 8] := SetAt(bitmap[page / 8], Place(page % 8));
      assert bitmap[..] == SetBit(s, page);
      forall q | 0 <= q < MAX_PAGES ensures Bit(bitmap[..], q) <==> q == page || Bit(s, q) { BitAfter(s, page, q); }
    }

    method BitmapClear(page: nat)
      requires Sized() && page < MAX_PAGES
      modifies bitmap
      ensures Bits() == old(Bits())[page := false]
    {
      ghost var s := bitmap[..];
      bitmap[page / 8] := ClearAt(bitmap[page / 8], Place(page % 8));
      assert bitmap[..] == ClearBit(s, page);
      forall q | 0 <= q < MAX_PAGES ensures Bit(bitmap[..], q) <==> q != page && Bit(s, q) { BitAfter(s, page, q); }
    }

    method BitmapTest(page: nat) returns (used: bool)
      requires Sized() && page < MAX_PAGES
      ensures used == Bits()[page]
    {
      used := TestAt(bitmap[page / 8], Place(page % 8));
      assert bitmap[page / 8] == bitmap[..][page / 8];
    }

    /** A free page becomes used. */
    method Mark(page: nat, t: PageType)
      requires Books() && page < MAX_PAGES && !Bits()[page]
      modifies this`freePages, this`byType, bitmap, kind
      ensures Bits() == old(Bits())[page := true] && kind[..] == old(kind[..])[page := t]
      ensures Books() <==> t != Free
    {
      hide Count, Bits, Counted, Moved;
      ClaimedBooks(Bits(), kind[..], byType, uncounted, page, t);
      BitmapSet(page);
      freePages := freePages - 1;
      kind[page] := t;
      byType := Moved(byType, Free, t);
    }

    /** The common end of every successful allocation. */
    method Claim(page: nat, t: PageType)
      requires Books() && page < MAX_PAGES && !Bits()[page]
      modifies this`freePages, this`byType, bitmap, kind, refs
      ensures Bits() == old(Bits())[page := true] && kind[..] == old(kind[..])[page := t]
      ensures refs[..] == old(refs[..])[page := 1]
      ensures Books() <==> t != Free
    {
      Mark(page, t);
      refs[page] := 1;
    }

    /** A used page becomes free and the hints move to cover it. */
    method Release(page: nat)
      requires Valid() && page < MAX_PAGES && Bits()[page]
      modifies this`freePages, this`byType, this`zones, bitmap, kind
      ensures Valid() && Bits() == old(Bits())[page := false] && kind[..] == old(kind[..])[page := Free]
      ensures zones == Returned(old(zones), page)
    {
      hide Count, Bits, Counted, Moved, Hints;
      ReleasedBooks(Bits(), kind[..], byType, uncounted, page);
      HintsReturned(Bits(), zones, page);
      byType := Moved(byType, kind[page], Free);
      BitmapClear(page);
      kind[page] := Free;
      freePages := freePages + 1;
      zones := Returned(zones, page);
    }

    /** The search for a user page: downwards from the hint through the high zone. It finds the
        highest free page of the zone, and misses only if there is none. */
    method SearchHigh() returns (found: bool, page: nat)
      requires Valid() && zones.highStart != 0
      ensures found ==>
                zones.highStart <= page <= zones.nextHigh && !Bits()[page] && Full(Bits(), page + 1, zones.highEnd)
      ensures !found ==> Full(Bits(), zones.highStart, zones.highEnd)
    {
      hide Count, Counted, Bits, Agree;
      page := zones.nextHigh;
      while page >= zones.highStart
        invariant zones.highStart <= page <= zones.nextHigh
        invariant Full(Bits(), page + 1, zones.highEnd)
        decreases page
      {
        var used := BitmapTest(page);
        if !used { return true, page; }
        if page == zones.highStart { break; }
        page := page - 1;
      }
      found := false;
    }

    /** The search for any other page: upwards from the hint through the low zone. */
    method SearchLow(t: PageType) returns (found: bool, page: nat)
      requires Valid() && zones.lowStart != 0
      ensures found ==>
                zones.nextLow <= page <= zones.lowEnd && !Bits()[page] && (KeepsFloor(t) ==> page >= KERNEL_FLOOR)
      ensures found ==> forall p :: Max(zones.nextLow, KERNEL_FLOOR) <= p < page ==> Bits()[p]
      ensures found && !KeepsFloor(t) ==> forall p :: zones.nextLow <= p < page ==> Bits()[p]
      ensures !found ==>
                Full(Bits(), if KeepsFloor(t) then Max(zones.nextLow, KERNEL_FLOOR) else zones.nextLow, zones.lowEnd)
    {
      hide Count, Counted, Bits, Agree;
      page := zones.nextLow;
      while page <= zones.lowEnd
        invariant zones.nextLow <= page <= zones.lowEnd + 1
        invariant forall p :: zones.nextLow <= p < page && (KeepsFloor(t) ==> p >= KERNEL_FLOOR) ==> Bits()[p]
      {
        if KeepsFloor(t) && page * PAGE < 0x200000 {
          page := page + 1;
          continue;
        }
        var used := BitmapTest(page);
        if !used { return true, page; }
        if page == zones.lowEnd {
          page := page + 1;
          break;
        }
        page := page + 1;
      }
      found := false;
    }

    lemma BooksSized()
      requires Books()
      ensures Sized()
    {
    }

    /** What one allocation does: it fails exactly when the zone is exhausted, and otherwise one
        page of the zone that was free is now in use with the given type and one reference. */
    twostate predicate Allocated(t: PageType, r: nat)
      reads this, bitmap, kind, refs
    {
      && Sized() && (r == 0 <==> Exhausted(old(Bits()), old(zones), t))
      && (Valid() <==> r == 0 || t != Free)
      && (r == 0 ==>
            && Bits() == old(Bits()) && kind[..] == old(kind[..])
            && refs[..] == old(refs[..]) && zones == old(zones))
      && (r != 0 ==>
            var p := r / PAGE;
            && r == p * PAGE && 0 < p < MAX_PAGES && !old(Bits())[p]
            && (if IsUser(t) then zones.highStart <= p <= zones.highEnd else zones.lowStart <= p <= zones.lowEnd)
            && (KeepsFloor(t) ==> p >= KERNEL_FLOOR)
            && Bits() == old(Bits())[p := true] && kind[..] == old(kind[..])[p := t]
            && refs[..] == old(refs[..])[p := 1])
      && zones == old(zones).(nextLow := zones.nextLow, nextHigh := zones.nextHigh)
    }

    /** pmm_alloc_page. */
    method Alloc(t: PageType) returns (r: nat)
      requires Valid()
      modifies this`freePages, this`byType, this`zones, bitmap, kind, refs
      ensures Allocated(t, r)
      ensures t == UserData || t == UserPageTable ==> HighestFree(old(Bits()), old(zones), r)
      ensures t == Kernel || t == PageTable || t == Reserved ==> LowestFree(old(Bits()), old(zones), r)
      ensures t == Free || t == Device ==> FirstFromHint(old(Bits()), old(zones), r)
    {
      if t == UserData || t == UserPageTable {
        r := AllocHigh(t);
      } else {
        r := AllocLow(t);
      }
    }

    method AllocHigh(t: PageType) returns (r: nat)
      requires Valid() && IsUser(t)
      modifies this`freePages, this`byType, this`zones, bitmap, kind, refs
      ensures Allocated(t, r) && HighestFree(old(Bits()), old(zones), r)
    {
      hide Count, Counted, Books, Bits, Hints, Full, HighestFree;
      BooksSized();
      ZonesEmpty(Bits(), zones);
      NoneFound(Bits(), zones);
      if zones.highStart == 0 && zones.highEnd == 0 { return 0; }
      var found, page := SearchHigh();
      if !found { return 0; }
      HighTaken(Bits(), zones, page);
      HighestFound(Bits(), zones, page);
      Claim(page, t);
      zones := zones.(nextHigh := if page > zones.highStart then page - 1 else zones.highStart);
      return page * PAGE;
    }

    method AllocLow(t: PageType) returns (r: nat)
      requires Valid() && !IsUser(t)
      modifies this`freePages, this`byType, this`zones, bitmap, kind, refs
      ensures Allocated(t, r)
      ensures KeepsFloor(t) ==> LowestFree(old(Bits()), old(zones), r)
      ensures !KeepsFloor(t) ==> FirstFromHint(old(Bits()), old(zones), r)
    {
      hide Count, Counted, Books, Bits, Hints, Full, LowestFree, FirstFromHint;
      BooksSized();
      ZonesEmpty(Bits(), zones);
      NoneFound(Bits(), zones);
      if zones.lowStart == 0 && zones.lowEnd == 0 { return 0; }
      var found, page := SearchLow(t);
      if !found {
        if KeepsFloor(t) { LowMissed(Bits(), zones); }
        return 0;
      }
      LowTaken(Bits(), zones, page);
      if KeepsFloor(t) { LowestFound(Bits(), zones, page); } else { FirstFound(Bits(), zones, page); }
      Claim(page, t);
      zones := zones.(nextLow := if page < zones.lowEnd then page + 1 else zones.lowEnd);
      return page * PAGE;
    }

    /** pmm_free_page: page 0, an address past the last page and a page already free change
        nothing; otherwise one reference goes, and with the last one the page becomes free. */
    method FreePage(phys: nat)
      requires Valid()
      modifies this`freePages, this`byType, this`zones, bitmap, kind, refs
      ensures Valid()
      ensures var p := phys / PAGE;
        if phys == 0 || p >= MAX_PAGES || !old(Bits())[p] then
          Bits() == old(Bits()) && kind[..] == old(kind[..]) && refs[..] == old(refs[..]) && zones == old(zones)
        else
          && refs[..] == old(refs[..])[p := Less(old(refs[p]))]
          && Bits() == old(Bits())[p := Less(old(refs[p])) != 0]
          && kind[..] == (if Less(old(refs[p])) == 0 then old(kind[..])[p := Free] else old(kind[..]))
      ensures zones == old(zones).(nextLow := zones.nextLow, nextHigh := zones.nextHigh)
      ensures var p := phys / PAGE;
        0 < phys && p < MAX_PAGES && old(Bits())[p] ==>
          && (old(refs[p]) > 1 ==> refs[p] == old(refs[p]) - 1 && Bits()[p] && kind[p] == old(kind[p]))
          && (old(refs[p]) <= 1 ==> refs[p] == 0 && !Bits()[p] && kind[p] == Free)
    {
      hide Count, Bits, Counted, Hints, Agree;
      if phys == 0 { return; }
      var page := phys / PAGE;
      if page >= MAX_PAGES { return; }
      var used := BitmapTest(page);
      if !used { return; }
      if refs[page] > 0 { refs[page] := refs[page] - 1; }
      if refs[page] == 0 { Release(page); }
    }

    /** pmm_reserve_page: the page is in use and reserved; a page that was free gets one reference. */
    method ReservePage(phys: nat)
      requires Valid()
      modifies this`freePages, this`byType, bitmap, kind, refs
      ensures Valid()
      ensures var p := phys / PAGE;
        if p >= MAX_PAGES then Bits() == old(Bits()) && kind[..] == old(kind[..]) && refs[..] == old(refs[..])
        else
          && Bits() == old(Bits())[p := true] && kind[..] == old(kind[..])[p := Reserved]
          && refs[..] == if old(Bits())[p] then old(refs[..]) else old(refs[..])[p := 1]
    {
      hide Count, Bits, Counted, Hints, Moved;
      var page := phys / PAGE;
      if page >= MAX_PAGES { return; }
      HintsClaimed(Bits(), zones, page);
      var used := BitmapTest(page);
      if used {
        CountedMoved(byType, kind[..], uncounted, page, Reserved);
        CountUpdate(kind[..], page, Reserved, Free);
        byType := Moved(byType, kind[page], Reserved);
        kind[page] := Reserved;
        assert Bits() == old(Bits())[page := true];
      } else {
        Claim(page, Reserved);
      }
    }

    /** pmm_unreserve_page: a reserved page becomes free, whatever it was before; any other page
        is left alone. */
    method UnreservePage(phys: nat)
      requires Valid()
      modifies this`freePages, this`byType, this`zones, bitmap, kind
      ensures Valid()
      ensures var p := phys / PAGE;
        if p >= MAX_PAGES || old(kind[..])[p] != Reserved then
          Bits() == old(Bits()) && kind[..] == old(kind[..]) && zones == old(zones)
        else Bits() == old(Bits())[p := false] && kind[..] == old(kind[..])[p := Free]
      ensures zones == old(zones).(nextLow := zones.nextLow, nextHigh := zones.nextHigh)
    {
      hide Count, Bits, Counted, Hints;
      var page := phys / PAGE;
      if page >= MAX_PAGES { return; }
      if kind[page] == Reserved {
        assert Bits()[page];
        Release(page);
      }
    }

    /** One call to the allocator after another, in any order and with any arguments but a request
        for a page of type Free. */
    method Run(calls: seq<Call>)
      requires Valid() && forall i :: 0 <= i < |calls| ==> calls[i] != AllocPage(Free)
      modifies this, bitmap, kind, refs
      ensures Valid()
      ensures freePages == byType[Index(Free)] == ClearBits(Bits())
      ensures zones == old(zones).(nextLow := zones.nextLow, nextHigh := zones.nextHigh)
    {
      hide Hints, Count, Counted, Agree, Bits;
      for i := 0 to |calls|
        invariant Valid()
        invariant zones == old(zones).(nextLow := zones.nextLow, nextHigh := zones.nextHigh)
      {
        assert calls[i] != AllocPage(Free);
        match calls[i] {
          case AllocPage(t) => { var r := Alloc(t); }
          case ReleasePage(a) => { FreePage(a); }
          case Reserve(a) => { ReservePage(a); }
          case Unreserve(a) => { UnreservePage(a); }
        }
      }
      CountedFree(byType, kind[..], uncounted);
      FreeIsClear(Bits(), kind[..]);
    }
  }

  datatype Call = AllocPage(t: PageType) | ReleasePage(a: nat) | Reserve(a: nat) | Unreserve(a: nat)

  function Less(n: nat): nat { if n > 0 then n - 1 else 0 }

  lemma ReleasedBooks(bits: seq<bool>, kind: seq<PageType>, c: seq<nat>, uncounted: nat, p: nat)
    requires Agree(bits, kind) && Counted(c, kind, uncounted) && p < |kind| && bits[p]
    ensures |c| == 7 && Counted(Moved(c, kind[p], Free), kind[p := Free], uncounted)
    ensures Agree(bits[p := false], kind[p := Free]) && Count(kind[p := Free], Free) == Count(kind, Free) + 1
  {
    CountedMoved(c, kind, uncounted, p, Free);
    CountUpdate(kind, p, Free, Free);
  }

  lemma ClaimedBooks(bits: seq<bool>, kind: seq<PageType>, c: seq<nat>, uncounted: nat, p: nat, t: PageType)
    requires Agree(bits, kind) && Counted(c, kind, uncounted) && p < |kind| && !bits[p]
    ensures |c| == 7 && Counted(Moved(c, Free, t), kind[p := t], uncounted)
    ensures Count(kind, Free) > 0 && Agree(bits[p := true], kind[p := t]) == (t != Free)
    ensures t != Free ==> Count(kind[p := t], Free) == Count(kind, Free) - 1
  {
    CountedMoved(c, kind, uncounted, p, t);
    CountUpdate(kind, p, t, Free);
    CountUpdate(kind, p, Kernel, Free);
    assert bits[p := true][p];
  }
}
