/** Which process owns which page: recording pages at allocation, freeing them at reclaim. */
module PageOwners {
  import opened PmmPages
  import opened Pmm
  import PageList

  /** Address a is a page in use for user data with one reference. */
  predicate HeldPage(bits: seq<bool>, kind: seq<PageType>, refs: seq<nat>, a: nat)
  {
    var p := a / PAGE;
    && a % PAGE == 0 && 0 < p < |bits| && p < |kind| && p < |refs|
    && bits[p] && kind[p] == UserData && refs[p] == 1
  }

  predicate HeldFrom(bits: seq<bool>, kind: seq<PageType>, refs: seq<nat>, pages: seq<nat>, i: nat)
  {
    forall k :: i <= k < |pages| ==> HeldPage(bits, kind, refs, pages[k])
  }

  predicate Held(bits: seq<bool>, kind: seq<PageType>, refs: seq<nat>, pages: seq<nat>)
  {
    HeldFrom(bits, kind, refs, pages, 0)
  }

  predicate Unique(pages: seq<nat>)
  {
    forall i, j :: 0 <= i < j < |pages| ==> pages[i] != pages[j]
  }

  predicate Apart(a: seq<nat>, b: seq<nat>)
  {
    forall x :: x in a ==> x !in b
  }

  /** All recorded pages are held, and none is recorded twice, in one list or in two. */
  predicate Owned(bits: seq<bool>, kind: seq<PageType>, refs: seq<nat>, lists: seq<seq<nat>>)
  {
    && (forall i :: 0 <= i < |lists| ==> Held(bits, kind, refs, lists[i]) && Unique(lists[i]))
    && (forall i, j :: 0 <= i < |lists| && 0 <= j < |lists| && i != j ==> Apart(lists[i], lists[j]))
  }

  /** Page p is one of those recorded. */
  predicate Among(pages: seq<nat>, p: nat) { p * PAGE in pages }

  /** process_cleanup_elf_pages: exactly the recorded pages become free. */
  method Cleanup(m: Pmm, pages: seq<nat>)
    requires m.Valid() && Unique(pages) && Held(m.Bits(), m.kind[..], m.refs[..], pages)
    modifies m`freePages, m`byType, m`zones, m.bitmap, m.kind, m.refs
    ensures m.Valid() && m.freePages == old(m.freePages) + |pages|
    ensures forall p :: 0 <= p < MAX_PAGES ==> m.Bits()[p] == (old(m.Bits())[p] && !Among(pages, p))
    ensures forall p :: 0 <= p < MAX_PAGES && !Among(pages, p) ==>
              m.kind[p] == old(m.kind[p]) && m.refs[p] == old(m.refs[p])
  {
    hide Count, Counted, Agree, Pmm.Bits, Hints, HeldPage;
    for i := 0 to |pages|
      invariant m.Valid() && m.freePages == old(m.freePages) + i
      invariant HeldFrom(m.Bits(), m.kind[..], m.refs[..], pages, i)
      invariant forall p :: 0 <= p < MAX_PAGES ==> m.Bits()[p] == (old(m.Bits())[p] && !Among(pages[..i], p))
      invariant forall p :: 0 <= p < MAX_PAGES && !Among(pages[..i], p) ==>
                  m.kind[p] == old(m.kind[p]) && m.refs[p] == old(m.refs[p])
    {
      ghost var bits, kind, refs := m.Bits(), m.kind[..], m.refs[..];
      FreeOne(bits, kind, refs, pages, i);
      var phys := pages[i];
      if phys != 0 { m.FreePage(phys); }
    }
    assert pages[..|pages|] == pages;
  }

  /** Freeing the next recorded page. */
  lemma FreeOne(bits: seq<bool>, kind: seq<PageType>, refs: seq<nat>, pages: seq<nat>, i: nat)
    requires i < |pages| && Unique(pages) && HeldFrom(bits, kind, refs, pages, i)
    ensures var p := pages[i] / PAGE;
      && pages[i] != 0 && p < |bits| && p < |kind| && p < |refs| && bits[p] && refs[p] == 1
      && HeldFrom(bits[p := false], kind[p := Free], refs[p := 0], pages, i + 1)
      && (forall q: nat :: Among(pages[..i + 1], q) <==> Among(pages[..i], q) || q == p)
      && Count(kind[p := Free], Free) == Count(kind, Free) + 1
  {
    hide Count;
    assert HeldPage(bits, kind, refs, pages[i]);
    var p := pages[i] / PAGE;
    CountUpdate(kind, p, Free, Free);
    assert p * PAGE == pages[i];
    forall q: nat ensures Among(pages[..i + 1], q) <==> Among(pages[..i], q) || q == p {
      assert pages[..i + 1] == pages[..i] + [pages[i]];
    }
    forall k | i + 1 <= k < |pages| ensures HeldPage(bits[p := false], kind[p := Free], refs[p := 0], pages[k]) {
      assert HeldPage(bits, kind, refs, pages[k]);
    }
  }

  /** Reclaiming one process: its list is freed and dropped. */
  method Reclaim(m: Pmm, list: PageList.PageList)
    requires m.Valid() && list.Valid() && list.buf != m.refs && Unique(list.Pages())
    requires Held(m.Bits(), m.kind[..], m.refs[..], list.Pages())
    modifies m`freePages, m`byType, m`zones, m.bitmap, m.kind, m.refs, list
    ensures m.Valid() && list.Valid() && list.Pages() == [] && list.buf == null
    ensures m.freePages == old(m.freePages) + |old(list.Pages())|
    ensures forall p :: 0 <= p < MAX_PAGES ==> m.Bits()[p] == (old(m.Bits())[p] && !Among(old(list.Pages()), p))
    ensures forall p :: 0 <= p < MAX_PAGES && !Among(old(list.Pages()), p) ==>
              m.kind[p] == old(m.kind[p]) && m.refs[p] == old(m.refs[p])
  {
    hide Count, Counted, Agree, Pmm.Bits, Hints, HeldPage;
    if list.buf == null { return; }
    Cleanup(m, list.buf[..list.num]);
    list.buf := null;
    list.num := 0;
  }

  /** What happens to pages: process i takes one and records it if there is memory for the record;
      process i is reclaimed; the kernel takes a page for itself, or frees one that no process
      recorded. */
  datatype Event = Take(i: nat, memory: bool) | Drop(i: nat) | KernelTakes(t: PageType) | KernelFrees(phys: nat)

  /** The lists of all processes are separate objects with separate buffers, and hold `pages`. */
  ghost predicate Lists(m: Pmm, lists: seq<PageList.PageList>, pages: seq<seq<nat>>)
    reads lists, Buffers(lists)
  {
    && |pages| == |lists|
    && (forall i :: 0 <= i < |lists| ==> Foreign(m, lists[i].buf) && Holds(lists[i], pages[i]))
    && (forall i, j :: 0 <= i < j < |lists| ==> Separate(lists[i], lists[j]))
  }

  ghost predicate Foreign(m: Pmm, buf: object?) { buf != m.bitmap && buf != m.kind && buf != m.refs }

  ghost predicate Holds(list: PageList.PageList, pages: seq<nat>)
    reads list, list.buf
  {
    list.Valid() && list.Pages() == pages
  }

  ghost predicate Separate(a: PageList.PageList, b: PageList.PageList)
    reads a, b
  {
    a != b && (a.buf != null ==> a.buf != b.buf)
  }

  ghost function Buffers(lists: seq<PageList.PageList>): set<array<nat>>
    reads lists
  {
    set i | 0 <= i < |lists| && lists[i].buf != null :: lists[i].buf
  }

  /** A list for each process. */
  method NewLists(m: Pmm, n: nat) returns (lists: seq<PageList.PageList>)
    ensures |lists| == n && Lists(m, lists, seq(n, _ => []))
    ensures forall i :: 0 <= i < n ==> fresh(lists[i]) && lists[i].buf == null
  {
    lists := [];
    while |lists| < n
      invariant |lists| <= n
      invariant forall i :: 0 <= i < |lists| ==> fresh(lists[i]) && lists[i].buf == null && lists[i].num == 0
      invariant forall i, j :: 0 <= i < j < |lists| ==> lists[i] != lists[j]
    {
      var list := new PageList.PageList();
      lists := lists + [list];
    }
  }

  /** Whether some list holds page p. */
  method Recorded(m: Pmm, lists: seq<PageList.PageList>, p: nat, ghost pages: seq<seq<nat>>) returns (b: bool)
    requires Lists(m, lists, pages)
    ensures b <==> exists i :: 0 <= i < |pages| && Among(pages[i], p)
  {
    b := false;
    for i := 0 to |lists|
      invariant b <==> exists k :: 0 <= k < i && Among(pages[k], p)
    {
      assert Holds(lists[i], pages[i]);
      if lists[i].buf != null && p * PAGE in lists[i].buf[..lists[i].num] { b := true; }
    }
  }

  method Step(m: Pmm, lists: seq<PageList.PageList>, e: Event, ghost pages: seq<seq<nat>>)
    returns (ghost pages': seq<seq<nat>>)
    requires m.Valid() && Lists(m, lists, pages) && Owned(m.Bits(), m.kind[..], m.refs[..], pages)
    requires (e.Take? || e.Drop? ==> e.i < |lists|) && e != KernelTakes(Free)
    modifies m`freePages, m`byType, m`zones, m.bitmap, m.kind, m.refs, lists, Buffers(lists)
    ensures m.Valid() && Lists(m, lists, pages') && Owned(m.Bits(), m.kind[..], m.refs[..], pages')
    ensures forall i :: 0 <= i < |lists| ==>
              lists[i].buf == null || lists[i].buf == old(lists[i].buf) || fresh(lists[i].buf)
  {
    hide Count, Counted, Agree, Pmm.Bits, Hints, Owned, Exhausted, Pmm.Books, Holds;
    pages' := pages;
    match e {
      case Take(i, memory) =>
        pages' := TakeOne(m, lists, i, memory, pages);
      case Drop(i) =>
        pages' := DropOne(m, lists, i, pages);
      case KernelTakes(t) =>
        KernelTake(m, t, pages);
      case KernelFrees(phys) =>
        var b := Recorded(m, lists, phys / PAGE, pages);
        if !b { KernelFree(m, phys, pages); }
    }
  }

  /** Every run: a user-data page is recorded at most once across all lists and stays in use while
      it is recorded, so reclaiming one process never frees a page of another. */
  method Run(m: Pmm, processes: nat, events: seq<Event>)
    returns (lists: seq<PageList.PageList>, ghost pages: seq<seq<nat>>)
    requires m.Valid()
    requires forall e :: e in events ==> (e.Take? || e.Drop? ==> e.i < processes) && e != KernelTakes(Free)
    modifies m`freePages, m`byType, m`zones, m.bitmap, m.kind, m.refs
    ensures m.Valid() && |lists| == processes && Lists(m, lists, pages)
    ensures Owned(m.Bits(), m.kind[..], m.refs[..], pages)
  {
    hide Count, Counted, Agree, Pmm.Bits, Hints, Owned, Exhausted, Pmm.Books, Lists;
    lists := NewLists(m, processes);
    pages := seq(processes, _ => []);
    SizesAgree(m);
    NothingOwned(m.Bits(), m.kind[..], m.refs[..], pages);
    for n := 0 to |events|
      invariant m.Valid() && |lists| == processes && Lists(m, lists, pages)
      invariant Owned(m.Bits(), m.kind[..], m.refs[..], pages)
      invariant forall i :: 0 <= i < |lists| ==> fresh(lists[i]) && (lists[i].buf == null || fresh(lists[i].buf))
    {
      assert events[n] in events;
      pages := Step(m, lists, events[n], pages);
    }
  }

  method KernelTake(m: Pmm, t: PageType, ghost pages: seq<seq<nat>>)
    requires m.Valid() && t != Free && Owned(m.Bits(), m.kind[..], m.refs[..], pages)
    modifies m`freePages, m`byType, m`zones, m.bitmap, m.kind, m.refs
    ensures m.Valid() && Owned(m.Bits(), m.kind[..], m.refs[..], pages)
  {
    hide Count, Counted, Agree, Pmm.Bits, Hints, Owned, Exhausted, Pmm.Books;
    SizesAgree(m);
    ghost var bits, kind, refs := m.Bits(), m.kind[..], m.refs[..];
    var r := m.Alloc(t);
    if r != 0 { TakenOwned(bits, kind, refs, pages, r / PAGE, t); }
  }

  /** Freeing a page that no list holds disturbs no list. */
  method KernelFree(m: Pmm, phys: nat, ghost pages: seq<seq<nat>>)
    requires m.Valid() && Owned(m.Bits(), m.kind[..], m.refs[..], pages)
    requires forall i :: 0 <= i < |pages| ==> !Among(pages[i], phys / PAGE)
    modifies m`freePages, m`byType, m`zones, m.bitmap, m.kind, m.refs
    ensures m.Valid() && Owned(m.Bits(), m.kind[..], m.refs[..], pages)
  {
    hide Count, Counted, Agree, Pmm.Bits, Hints, Owned, Pmm.Books, Among;
    SizesAgree(m);
    ghost var bits, kind, refs := m.Bits(), m.kind[..], m.refs[..];
    m.FreePage(phys);
    SizesAgree(m);
    ElsewhereOwned(bits, kind, refs, m.Bits(), m.kind[..], m.refs[..], pages, phys / PAGE);
  }

  lemma ElsewhereOwned(bits: seq<bool>, kind: seq<PageType>, refs: seq<nat>,
                       bits': seq<bool>, kind': seq<PageType>, refs': seq<nat>, pages: seq<seq<nat>>, p: nat)
    requires Owned(bits, kind, refs, pages) && forall i :: 0 <= i < |pages| ==> !Among(pages[i], p)
    requires |bits| == |kind| == |refs| == |bits'| == |kind'| == |refs'|
    requires forall q :: 0 <= q < |bits| && q != p ==> bits'[q] == bits[q] && kind'[q] == kind[q] && refs'[q] == refs[q]
    ensures Owned(bits', kind', refs', pages)
  {
    forall i | 0 <= i < |pages| ensures Held(bits', kind', refs', pages[i]) {
      assert Held(bits, kind, refs, pages[i]);
      forall k | 0 <= k < |pages[i]| ensures HeldPage(bits', kind', refs', pages[i][k]) {
        assert HeldPage(bits, kind, refs, pages[i][k]);
        assert pages[i][k] / PAGE * PAGE == pages[i][k];
      }
    }
  }

  /** Process i takes a page; it is recorded, or stays in use without a record. */
  method TakeOne(m: Pmm, lists: seq<PageList.PageList>, i: nat, memory: bool, ghost pages: seq<seq<nat>>)
    returns (ghost pages': seq<seq<nat>>)
    requires m.Valid() && Owned(m.Bits(), m.kind[..], m.refs[..], pages)
    requires i < |lists| == |pages| && Holds(lists[i], pages[i]) && Foreign(m, lists[i].buf)
    modifies m`freePages, m`byType, m`zones, m.bitmap, m.kind, m.refs, lists[i], lists[i].buf
    ensures m.Valid() && Owned(m.Bits(), m.kind[..], m.refs[..], pages')
    ensures |pages'| == |pages| && pages' == pages[i := pages'[i]] && Holds(lists[i], pages'[i])
    ensures lists[i].buf == old(lists[i].buf) || fresh(lists[i].buf)
    ensures pages'[i] == pages[i] || exists r :: pages'[i] == pages[i] + [r]
  {
    hide Count, Counted, Agree, Pmm.Bits, Hints, Owned, Exhausted, Pmm.Books;
    SizesAgree(m);
    ghost var bits, kind, refs := m.Bits(), m.kind[..], m.refs[..];
    pages' := pages;
    var r := m.Alloc(UserData);
    assert lists[i].Pages() == pages[i];
    if r != 0 {
      TakenOwned(bits, kind, refs, pages, r / PAGE, UserData);
      RecordedOwned(m.Bits(), m.kind[..], m.refs[..], bits, kind, refs, pages, i, r);
      var ok := lists[i].Add(r, memory);
      pages' := pages[i := lists[i].Pages()];
      assert lists[i].Pages() == pages[i] ==> pages' == pages;
    }
  }

  /** Process i is reclaimed. */
  method DropOne(m: Pmm, lists: seq<PageList.PageList>, i: nat, ghost pages: seq<seq<nat>>)
    returns (ghost pages': seq<seq<nat>>)
    requires m.Valid() && Owned(m.Bits(), m.kind[..], m.refs[..], pages)
    requires i < |lists| == |pages| && Holds(lists[i], pages[i]) && Foreign(m, lists[i].buf)
    modifies m`freePages, m`byType, m`zones, m.bitmap, m.kind, m.refs, lists[i]
    ensures m.Valid() && Owned(m.Bits(), m.kind[..], m.refs[..], pages')
    ensures Holds(lists[i], []) && pages' == pages[i := []] && lists[i].buf == null
  {
    hide Count, Counted, Agree, Pmm.Bits, Hints, Owned, Pmm.Books;
    SizesAgree(m);
    ghost var bits, kind, refs := m.Bits(), m.kind[..], m.refs[..];
    ListOwned(bits, kind, refs, pages, i);
    Reclaim(m, lists[i]);
    SizesAgree(m);
    DroppedOwned(bits, kind, refs, m.Bits(), m.kind[..], m.refs[..], pages, i);
    pages' := pages[i := []];
  }

  lemma SizesAgree(m: Pmm)
    requires m.Valid()
    ensures m.Sized() && |m.Bits()| == |m.kind[..]| == |m.refs[..]| == MAX_PAGES
  {
  }

  lemma NothingOwned(bits: seq<bool>, kind: seq<PageType>, refs: seq<nat>, lists: seq<seq<nat>>)
    requires forall i :: 0 <= i < |lists| ==> lists[i] == []
    ensures Owned(bits, kind, refs, lists)
  {
  }

  lemma ListOwned(bits: seq<bool>, kind: seq<PageType>, refs: seq<nat>, lists: seq<seq<nat>>, i: nat)
    requires Owned(bits, kind, refs, lists) && i < |lists|
    ensures Held(bits, kind, refs, lists[i]) && Unique(lists[i])
  {
  }

  /** Taking a free page disturbs no recorded one. */
  lemma TakenOwned(bits: seq<bool>, kind: seq<PageType>, refs: seq<nat>, lists: seq<seq<nat>>, p: nat, t: PageType)
    requires Owned(bits, kind, refs, lists) && p < |bits| == |kind| == |refs| && !bits[p]
    ensures Owned(bits[p := true], kind[p := t], refs[p := 1], lists)
  {
    forall i | 0 <= i < |lists| ensures Held(bits[p := true], kind[p := t], refs[p := 1], lists[i]) {
      assert Held(bits, kind, refs, lists[i]);
      forall k | 0 <= k < |lists[i]| ensures HeldPage(bits[p := true], kind[p := t], refs[p := 1], lists[i][k]) {
        assert HeldPage(bits, kind, refs, lists[i][k]);
      }
    }
  }

  lemma RecordedOwned(bits': seq<bool>, kind': seq<PageType>, refs': seq<nat>,
                      bits: seq<bool>, kind: seq<PageType>, refs: seq<nat>, lists: seq<seq<nat>>, i: nat, r: nat)
    requires Owned(bits, kind, refs, lists) && Owned(bits', kind', refs', lists) && i < |lists|
    requires HeldPage(bits', kind', refs', r) && r / PAGE < |bits| && !bits[r / PAGE]
    ensures Owned(bits', kind', refs', lists[i := lists[i] + [r]])
  {
    hide HeldPage;
    forall j | 0 <= j < |lists| ensures r !in lists[j] {
      assert Held(bits, kind, refs, lists[j]);
      forall k | 0 <= k < |lists[j]| ensures lists[j][k] != r { UsedPage(bits, kind, refs, lists[j][k]); }
    }
    var lists' := lists[i := lists[i] + [r]];
    forall j | 0 <= j < |lists'| ensures Held(bits', kind', refs', lists'[j]) && Unique(lists'[j]) {
      assert Held(bits', kind', refs', lists[j]) && Unique(lists[j]);
    }
    forall j, k | 0 <= j < |lists'| && 0 <= k < |lists'| && j != k ensures Apart(lists'[j], lists'[k]) {
      assert Apart(lists[j], lists[k]);
    }
  }

  lemma UsedPage(bits: seq<bool>, kind: seq<PageType>, refs: seq<nat>, a: nat)
    requires HeldPage(bits, kind, refs, a)
    ensures a / PAGE < |bits| && bits[a / PAGE]
  {
  }

  /** Freeing one list leaves the others held. */
  lemma DroppedOwned(bits: seq<bool>, kind: seq<PageType>, refs: seq<nat>,
                     bits': seq<bool>, kind': seq<PageType>, refs': seq<nat>, lists: seq<seq<nat>>, i: nat)
    requires Owned(bits, kind, refs, lists) && i < |lists|
    requires |bits| == |kind| == |refs| == |bits'| == |kind'| == |refs'| == MAX_PAGES
    requires forall p :: 0 <= p < MAX_PAGES ==> bits'[p] == (bits[p] && !Among(lists[i], p))
    requires forall p :: 0 <= p < MAX_PAGES && !Among(lists[i], p) ==> kind'[p] == kind[p] && refs'[p] == refs[p]
    ensures Owned(bits', kind', refs', lists[i := []])
  {
    var lists' := lists[i := []];
    forall j | 0 <= j < |lists'| && j != i ensures Held(bits', kind', refs', lists'[j]) {
      assert Held(bits, kind, refs, lists[j]) && Apart(lists[j], lists[i]);
      forall k | 0 <= k < |lists[j]| ensures HeldPage(bits', kind', refs', lists[j][k]) {
        assert HeldPage(bits, kind, refs, lists[j][k]);
        var p := lists[j][k] / PAGE;
        assert p * PAGE == lists[j][k];
        assert lists[j][k] in lists[j];
        assert !Among(lists[i], p);
      }
    }
    forall j, k | 0 <= j < |lists'| && 0 <= k < |lists'| && j != k ensures Apart(lists'[j], lists'[k]) {
      if j != i && k != i { assert Apart(lists[j], lists[k]); }
    }
  }
}
