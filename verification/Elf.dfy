/** Loading an executable into a cloned address space. */
module Elf {
  import opened VmmTables
  import opened VmmSteps
  import opened Vmm
  import opened VmmClone
  import opened VmmRuns
  import opened ElfImage
  import PageList

  /** The data pages of physical memory, reached through the kernel's direct map. */
  class Memory {
    var ram: Ram
    /** How many data pages the page allocator can still give. */
    var left: nat
  }

  /** A program header. */
  datatype Segment = Segment(load: bool, vaddr: nat, memsz: nat, filesz: nat, offset: nat)

  function FirstPage(s: Segment): nat { s.vaddr / PAGE }

  function PastPage(s: Segment): nat { (s.vaddr + s.memsz + PAGE - 1) / PAGE }

  predicate InSegment(s: Segment, n: nat) { s.load && FirstPage(s) <= n < PastPage(s) }

  /** Pages of the first k segments. */
  ghost function PagesOf(segs: seq<Segment>, k: nat): set<nat>
    requires k <= |segs|
  {
    set n | 0 <= n < LOW_PAGES && Covered(segs, k, n)
  }

  predicate Covered(segs: seq<Segment>, k: nat, n: nat)
    requires k <= |segs|
  {
    exists i :: 0 <= i < k && InSegment(segs[i], n)
  }

  /** Loadable segments lie in the low half and in the file, are no longer in the file than in
      memory, and share no page. */
  predicate WellFormed(segs: seq<Segment>, file: seq<bv8>)
  {
    && (forall i :: 0 <= i < |segs| && segs[i].load ==>
          && segs[i].filesz <= segs[i].memsz && segs[i].offset + segs[i].filesz <= |file|
          && PastPage(segs[i]) <= LOW_PAGES)
    && (forall i, j :: 0 <= i < j < |segs| && segs[i].load && segs[j].load ==>
          PastPage(segs[i]) <= FirstPage(segs[j]) || PastPage(segs[j]) <= FirstPage(segs[i]))
  }

  /** The byte a segment has at offset x: from the file, then zeros. */
  function ByteOf(file: seq<bv8>, s: Segment, x: nat): bv8
    requires s.offset + s.filesz <= |file|
  {
    if x < s.filesz then file[s.offset + x] else 0
  }

  /** Reading through root finds the segment's image. */
  ghost predicate Image(t: Tables, ram: Ram, root: nat, file: seq<bv8>, s: Segment)
    requires s.offset + s.filesz <= |file|
  {
    forall x: nat :: x < s.memsz ==> Holds(t, ram, root, s.vaddr + x, ByteOf(file, s, x))
  }

  /** User code can write every address of the segment. */
  ghost predicate Writable(t: Tables, root: nat, s: Segment)
  {
    forall a: nat :: s.vaddr <= a < s.vaddr + s.memsz ==> UserWrites(t, root, PageOf(a))
  }

  /** elf_validate. */
  predicate ValidIdent(file: seq<bv8>)
  {
    |file| >= 6 && file[..6] == [0x7F, 0x45, 0x4C, 0x46, 2, 1]
  }

  /** A load in progress: the pages `done` are in place, those in `need` can be mapped, and `base`
      are the frames in use before it. */
  ghost predicate Loading(v: Vmm, m: Memory, root: nat, need: set<nat>, done: set<nat>, base: set<nat>)
    reads v, m
  {
    && v.Valid() && RamOk(v.tables, v.frames, m.ram) && Ready(v.tables, v.own, root, need)
    && done <= need && base <= v.frames && Private(v.tables, m.ram, root, done, base)
    && Usable(v.tables, root, done, v.left)
  }

  /** User code can write every page in place that is mapped, and all of them are mapped unless the
      frames for tables ran out. */
  ghost predicate Usable(t: Tables, root: nat, done: set<nat>, left: nat)
  {
    forall n :: n in done ==>
      && (Present(Spot(t, root, n)) ==> UserWrites(t, root, At(n)))
      && (left > 0 ==> Present(Spot(t, root, n)))
  }

  /** Page n was mapped for user code to write, or could not be; no other page was closed to it. */
  ghost predicate OpenedOne(t: Tables, t': Tables, root: nat, need: set<nat>, n: nat, left: nat)
  {
    && (Present(Spot(t', root, n)) ==> UserWrites(t', root, At(n)))
    && (left > 0 ==> Present(Spot(t', root, n)))
    && forall k :: k in need && k != n && UserWrites(t, root, At(k)) ==> UserWrites(t', root, At(k))
  }

  lemma UsableGrows(t: Tables, t': Tables, root: nat, need: set<nat>, done: set<nat>, n: nat, f: nat,
                    left: nat, left': nat)
    requires Usable(t, root, done, left) && MappedOne(t, t', root, need, n, f) && done <= need && n !in done
    requires OpenedOne(t, t', root, need, n, left') && left' <= left
    ensures Usable(t', root, done + {n}, left')
  {
    hide Spot, Present, UserWrites;
  }

  /** Every walk from another root is still possible and ends in the same entry. */
  ghost predicate OthersKept(t: Tables, own: Places, t': Tables, own': Places, root: nat)
  {
    forall r: nat, q: Page :: r != root && Walkable(t, own, r, q) ==>
      Walkable(t', own', r, q) && Leaf(t', r, q) == Leaf(t, r, q)
  }

  lemma OthersKeptTrans(t0: Tables, o0: Places, t1: Tables, o1: Places, t2: Tables, o2: Places, root: nat)
    requires OthersKept(t0, o0, t1, o1, root) && OthersKept(t1, o1, t2, o2, root)
    ensures OthersKept(t0, o0, t2, o2, root)
  {
    hide Leaf, Walkable;
  }

  lemma OthersKeptSame(t: Tables, own: Places, root: nat)
    ensures OthersKept(t, own, t, own, root)
  {
  }

  /** A page for user data: any frame that is not in use, with whatever it holds, and 0 exactly if
      there is none left. */
  method AllocData(v: Vmm, m: Memory) returns (f: nat)
    requires RamOk(v.tables, v.frames, m.ram) && v.tables.Keys <= v.frames
    modifies v`frames, m
    ensures f == 0 <==> old(m.left) == 0
    ensures m.left == if f == 0 then 0 else old(m.left) - 1
    ensures f == 0 ==> v.frames == old(v.frames) && m.ram == old(m.ram)
    ensures f != 0 ==> f !in old(v.frames) && v.frames == old(v.frames) + {f}
    ensures f != 0 ==> f in m.ram && m.ram == old(m.ram)[f := m.ram[f]] && RamOk(v.tables, v.frames, m.ram)
  {
    if m.left == 0 { return 0; }
    f := FreshFrame(v.frames);
    m.left := m.left - 1;
    v.frames := v.frames + {f};
    var contents: seq<bv8> := *;
    if |contents| != PAGE { contents := seq(PAGE, _ => 0); }
    m.ram := m.ram[f := contents];
  }

  /** The pages recorded since `pre`: frames that were not in use before, each once. */
  predicate Recorded(pre: seq<nat>, now: seq<nat>, base: set<nat>, frames: set<nat>)
  {
    && pre <= now
    && (forall i :: |pre| <= i < |now| ==> now[i] % PAGE == 0 && now[i] / PAGE !in base && now[i] / PAGE in frames)
    && (forall i, j :: |pre| <= i < j < |now| ==> now[i] != now[j])
  }

  /** Every data page taken since `ram` is recorded. */
  ghost predicate AllListed(ram: Ram, ram': Ram, pages: seq<nat>)
  {
    forall f :: f in ram' && f !in ram ==> f * PAGE in pages
  }

  lemma SameKeys(ram: Ram, ram': Ram, f: nat)
    requires f in ram && f in ram' && ram' == ram[f := ram'[f]]
    ensures ram'.Keys == ram.Keys
  {
  }

  lemma StillListed(r0: Ram, r1: Ram, r2: Ram, pages: seq<nat>)
    requires AllListed(r0, r1, pages) && r2.Keys == r1.Keys
    ensures AllListed(r0, r2, pages)
  {
    assert forall f :: f in r2 ==> f in r1.Keys;
  }

  lemma AllListedTrans(r0: Ram, r1: Ram, r2: Ram, pre: seq<nat>, now: seq<nat>)
    requires AllListed(r0, r1, pre) && AllListed(r1, r2, now) && pre <= now
    ensures AllListed(r0, r2, now)
  {
  }

  /** Map frame f at page n of root. */
  method MapOne(v: Vmm, root: nat, n: nat, f: nat, ghost need: set<nat>)
    requires v.Valid() && Ready(v.tables, v.own, root, need) && n in need
    modifies v
    ensures v.Valid() && Ready(v.tables, v.own, root, need) && MappedOne(old(v.tables), v.tables, root, need, n, f)
    ensures old(v.frames) <= v.frames && OnlyFresh(old(v.tables), old(v.frames), v.tables)
    ensures OthersKept(old(v.tables), old(v.own), v.tables, v.own, root)
    ensures v.left <= old(v.left) && OpenedOne(old(v.tables), v.tables, root, need, n, v.left)
  {
    hide Tree, Leaf, LeafTable, NoHuge, SameView, Kept, Replaced, Present, Huge, LeafEntry, UserWrites, UserReads;
    ghost var t0, o0 := v.tables, v.own;
    assert Walkable(t0, o0, root, At(n));
    ghost var ok := v.MapPage(root, At(n), f * PAGE, 0x1F, false);
    EntryFlags(0, f * PAGE, 0x1F, false);
    LeafFrame(f);
    MapEffect(t0, o0, v.tables, v.own, root, n, f, ok);
    FlagsGiven();
    PresentOrNot(t0, o0, v.tables, root, n, ok);
    forall k | k in need
      ensures Walkable(v.tables, v.own, root, At(k)) && (k != n ==> Spot(v.tables, root, k) == Spot(t0, root, k))
      ensures k != n && UserWrites(t0, root, At(k)) ==> UserWrites(v.tables, root, At(k))
    {
      AtDistinct(n, k);
      assert Walkable(t0, o0, root, At(k));
      if ok {
        StillWalkable(t0, o0, v.tables, v.own, root, At(n), LeafEntry(f * PAGE, 0x1F, false), root, At(k));
        if k != n { OneOp(t0, o0, v.tables, v.own, root, At(n), LeafEntry(f * PAGE, 0x1F, false), root, At(k)); }
      } else {
        ViewAt(t0, v.tables, o0, v.own, root, At(k));
        SameLeaf(t0, v.tables, o0, root, At(k));
      }
    }
    AtDistinct(n, n);
    forall r: nat, q: Page | r != root && Walkable(t0, o0, r, q)
      ensures Walkable(v.tables, v.own, r, q) && Leaf(v.tables, r, q) == Leaf(t0, r, q)
    {
      if ok {
        OneOp(t0, o0, v.tables, v.own, root, At(n), LeafEntry(f * PAGE, 0x1F, false), r, q);
      } else {
        ViewAt(t0, v.tables, o0, v.own, r, q);
        SameLeaf(t0, v.tables, o0, r, q);
      }
    }
  }

  lemma FlagsGiven()
    ensures 0x1F as bv12 & USER == USER && 0x1F as bv12 & WRITE == WRITE
  {
  }

  lemma PresentOrNot(t: Tables, own: Places, t': Tables, root: nat, n: nat, ok: bool)
    requires Tree(t, own) && Walkable(t, own, root, At(n))
    requires ok ==> Leaf(t', root, At(n)).flags & 1 == 1
    requires !ok ==> LeafTable(t, root, At(n)) == 0 && SameView(t, t', own)
    ensures Present(Spot(t', root, n)) <==> ok
  {
    hide Tree, LeafTable, Walkable, SameView, PageOf;
    if !ok {
      SameLeaf(t, t', own, root, At(n));
      TreeBasics(t, own);
      NoTable(t, At(n).l);
    }
  }

  lemma LeafFrame(f: nat)
    ensures LeafEntry(f * PAGE, 0x1F, false).addr == f
  {
  }

  /** After a map the page is mapped to f or not at all: a map fails only where no leaf table, and
      so no entry of the address space this one was cloned from, was in the way. */
  lemma MapEffect(t: Tables, own: Places, t': Tables, own': Places, root: nat, n: nat, f: nat, ok: bool)
    requires Tree(t, own) && Walkable(t, own, root, At(n))
    requires ok ==> Replaced(t, t', own, root, At(n), LeafEntry(f * PAGE, 0x1F, false))
    requires !ok ==> LeafTable(t, root, At(n)) == 0 && SameView(t, t', own)
    ensures Present(Spot(t', root, n)) ==> Spot(t', root, n).addr == f
  {
    hide Tree, LeafTable, Walkable, SameView, PageOf;
    LeafFrame(f);
    if !ok {
      SameLeaf(t, t', own, root, At(n));
      TreeBasics(t, own);
      NoTable(t, At(n).l);
    }
  }

  /** The page loop of the loader: a fresh frame for every page of [first, past), recorded in the
      process's list. */
  method MapPages(v: Vmm, m: Memory, list: PageList.PageList, memory: bool, root: nat, first: nat, past: nat,
                  ghost need: set<nat>, ghost done: set<nat>, ghost base: set<nat>)
    returns (ok: bool)
    requires Loading(v, m, root, need, done, base) && list.Valid() && first <= past
    requires forall n :: first <= n < past ==> n in need && n !in done
    modifies v, m, list, list.buf
    ensures BaseKept(old(m.ram), m.ram, base) && list.Valid() && (list.buf == old(list.buf) || fresh(list.buf))
    ensures v.Valid() && RamOk(v.tables, v.frames, m.ram) && old(v.frames) <= v.frames
    ensures OthersKept(old(v.tables), old(v.own), v.tables, v.own, root)
    ensures Recorded(old(list.Pages()), list.Pages(), old(v.frames), v.frames)
    ensures memory ==> AllListed(old(m.ram), m.ram, list.Pages())
    ensures !ok ==> m.left == 0
    ensures ok ==> Loading(v, m, root, need, done + Range(first, past), base)
    ensures ok ==> BytesKept(old(v.tables), old(m.ram), v.tables, m.ram, root, done, 0, 0)
  {
    hide Ready, Private, BytesKept, MappedOne, OnlyFresh, Tree, Holds, Recorded, Range, BaseKept, RamOk, OthersKept,
         Usable, OpenedOne;
    var n := first;
    BytesKeptSame(v.tables, m.ram, root, done);
    OthersKeptSame(v.tables, v.own, root);
    RangeGrows(first, n);
    assert done + Range(first, n) == done;
    RecordedNone(list.Pages(), v.frames, m.ram, base);
    while n < past
      invariant first <= n <= past
      invariant Loading(v, m, root, need, done + Range(first, n), base)
      invariant BaseKept(old(m.ram), m.ram, base) && list.Valid() && (list.buf == old(list.buf) || fresh(list.buf))
      invariant old(v.frames) <= v.frames && Recorded(old(list.Pages()), list.Pages(), old(v.frames), v.frames)
      invariant BytesKept(old(v.tables), old(m.ram), v.tables, m.ram, root, done, 0, 0)
      invariant OthersKept(old(v.tables), old(v.own), v.tables, v.own, root)
      invariant memory ==> AllListed(old(m.ram), m.ram, list.Pages())
    {
      ghost var t, own, ram, frames := v.tables, v.own, m.ram, v.frames;
      ghost var left := v.left;
      var f := AllocData(v, m);
      if f == 0 { return false; }
      MapOne(v, root, n, f, need);
      OthersKeptTrans(old(v.tables), old(v.own), t, own, v.tables, v.own, root);
      StillData(t, frames + {f}, v.tables, v.frames, m.ram);
      RangeGrows(first, n);
      UsableGrows(t, v.tables, root, need, done + Range(first, n), n, f, left, v.left);
      PrivateGrows(t, ram, v.tables, m.ram, root, need, done + Range(first, n), base, frames, n, f);
      BytesKeptTrans(old(v.tables), old(m.ram), t, ram, v.tables, m.ram, root, done, done + Range(first, n), 0, 0);
      BaseKeptTrans(old(m.ram), ram, m.ram, base);
      assert done + Range(first, n + 1) == done + Range(first, n) + {n};
      ghost var pages := list.Pages();
      ghost var added := list.Add(f * PAGE, memory);
      RecordedOne(old(list.Pages()), pages, list.Pages(), old(v.frames), frames, v.frames, f);
      if memory { ListedOne(old(m.ram), ram, m.ram, pages, list.Pages(), f); }
      n := n + 1;
    }
    return true;
  }

  ghost function Range(first: nat, past: nat): set<nat> { set n | first <= n < past && Between(first, n, past) }

  predicate Between(first: nat, n: nat, past: nat) { first <= n < past }

  lemma RangeGrows(first: nat, n: nat)
    requires first <= n
    ensures Range(first, first) == {} && Range(first, n + 1) == Range(first, n) + {n} && n !in Range(first, n)
  {
  }

  lemma BytesKeptSame(t: Tables, ram: Ram, root: nat, done: set<nat>)
    ensures BytesKept(t, ram, t, ram, root, done, 0, 0)
  {
  }

  lemma BytesKeptTrans(t0: Tables, r0: Ram, t1: Tables, r1: Ram, t2: Tables, r2: Ram, root: nat, done: set<nat>,
                       more: set<nat>, lo: nat, hi: nat)
    requires BytesKept(t0, r0, t1, r1, root, done, lo, hi) && BytesKept(t1, r1, t2, r2, root, more, lo, hi)
    requires done <= more
    ensures BytesKept(t0, r0, t2, r2, root, done, lo, hi)
  {
    hide Holds;
  }

  /** New tables never take a data page. */
  lemma StillData(t: Tables, frames: set<nat>, t': Tables, frames': set<nat>, ram: Ram)
    requires RamOk(t, frames, ram) && frames <= frames' && OnlyFresh(t, frames, t')
    ensures RamOk(t', frames', ram)
  {
  }

  lemma ListedOne(r0: Ram, ram: Ram, ram': Ram, pages: seq<nat>, now: seq<nat>, f: nat)
    requires AllListed(r0, ram, pages) && f in ram' && ram' == ram[f := ram'[f]]
    requires now == if f * PAGE in pages then pages else pages + [f * PAGE]
    ensures AllListed(r0, ram', now)
  {
  }

  lemma RecordedNone(pages: seq<nat>, frames: set<nat>, ram: Ram, base: set<nat>)
    ensures Recorded(pages, pages, frames, frames) && BaseKept(ram, ram, base) && AllListed(ram, ram, pages)
  {
  }

  lemma BaseKeptTrans(r0: Ram, r1: Ram, r2: Ram, base: set<nat>)
    requires BaseKept(r0, r1, base) && BaseKept(r1, r2, base)
    ensures BaseKept(r0, r2, base)
  {
  }

  lemma RecordedOne(pre: seq<nat>, mid: seq<nat>, now: seq<nat>, base: set<nat>, frames: set<nat>, frames': set<nat>,
                    f: nat)
    requires Recorded(pre, mid, base, frames) && base <= frames <= frames' && f !in frames && f in frames'
    requires now == mid || now == mid + [f * PAGE]
    ensures Recorded(pre, now, base, frames')
  {
    assert (f * PAGE) / PAGE == f;
  }

  // ------------------------------------------------------------ copying and clearing

  /** The byte loop: src at physical address phys, inside one page. */
  method WriteBytes(m: Memory, phys: nat, src: seq<bv8>)
    requires phys / PAGE in m.ram && |m.ram[phys / PAGE]| == PAGE && phys % PAGE + |src| <= PAGE
    modifies m`ram
    ensures m.ram == old(m.ram)[phys / PAGE := Put(old(m.ram)[phys / PAGE], phys % PAGE, src)]
  {
    var f, off := phys / PAGE, phys % PAGE;
    ghost var page := m.ram[f];
    var j := 0;
    while j < |src|
      invariant 0 <= j <= |src| && f in m.ram && m.ram == old(m.ram)[f := m.ram[f]]
      invariant m.ram[f] == Put(page, off, src[..j])
    {
      m.ram := m.ram[f := m.ram[f][off + j := src[j]]];
      j := j + 1;
    }
    assert src[..j] == src;
  }

  /** The copy loop, and with zeros the clearing loop: page by page through the address space's own
      tables. It stops at the first page that is not mapped. */
  method Fill(v: Vmm, m: Memory, root: nat, vaddr: nat, src: seq<bv8>,
              ghost need: set<nat>, ghost done: set<nat>, ghost base: set<nat>)
    returns (ok: bool)
    requires Loading(v, m, root, need, done, base)
    requires Spanned(vaddr, |src|, done)
    modifies m
    ensures Loading(v, m, root, need, done, base) && BaseKept(old(m.ram), m.ram, base)
    ensures BytesKept(v.tables, old(m.ram), v.tables, m.ram, root, done, vaddr, vaddr + |src|)
    ensures ok ==> Filled(v.tables, m.ram, root, vaddr, src)
    ensures m.ram.Keys == old(m.ram.Keys) && m.left == old(m.left) && (!ok ==> v.left == 0)
  {
    hide Private, BytesKept, Tree, Holds, BaseKept, RamOk, Ready, Spot, Translate, Put, UserWrites;
    var copied := 0;
    FillNone(v.tables, m.ram, root, done, base, vaddr, |src|);
    while copied < |src|
      invariant 0 <= copied <= |src| && Loading(v, m, root, need, done, base)
      invariant BaseKept(old(m.ram), m.ram, base)
      invariant BytesKept(v.tables, old(m.ram), v.tables, m.ram, root, done, vaddr, vaddr + |src|)
      invariant m.ram.Keys == old(m.ram.Keys) && m.left == old(m.left)
      invariant forall x :: 0 <= x < copied ==> Holds(v.tables, m.ram, root, vaddr + x, src[x])
    {
      var cur := vaddr + copied;
      SpannedAt(vaddr, |src|, done, copied);
      var phys := Translate(v.tables, root, cur);
      TranslateSpot(v.tables, root, cur);
      if Present(Spot(v.tables, root, cur / PAGE)) {
        FrameNotZero(v.tables, v.frames, m.ram, root, done, base, cur / PAGE);
      }
      if phys == 0 { return false; }
      var chunk := |src| - copied;
      var rest := PAGE - cur % PAGE;
      if chunk > rest { chunk := rest; }
      ghost var ram := m.ram;
      var piece := src[copied..copied + chunk];
      OwnFrame(v.tables, v.frames, ram, root, done, base, cur, Spot(v.tables, root, cur / PAGE).addr);
      FillOne(v.tables, v.frames, old(m.ram), ram, root, done, base, vaddr, src, copied, cur, phys / PAGE, piece);
      WriteBytes(m, phys, piece);
      SameKeys(ram, m.ram, phys / PAGE);
      copied := copied + chunk;
    }
    return true;
  }

  lemma FrameNotZero(t: Tables, frames: set<nat>, ram: Ram, root: nat, done: set<nat>, base: set<nat>, n: nat)
    requires RamOk(t, frames, ram) && Private(t, ram, root, done, base) && n in done && Present(Spot(t, root, n))
    ensures Spot(t, root, n).addr > 0
  {
    hide Spot, Present;
  }

  /** Reading through root finds src from vaddr on. */
  ghost predicate Filled(t: Tables, ram: Ram, root: nat, vaddr: nat, src: seq<bv8>)
  {
    forall x :: 0 <= x < |src| ==> Holds(t, ram, root, vaddr + x, src[x])
  }

  lemma FillNone(t: Tables, ram: Ram, root: nat, done: set<nat>, base: set<nat>, vaddr: nat, len: nat)
    ensures BaseKept(ram, ram, base) && BytesKept(t, ram, t, ram, root, done, vaddr, vaddr + len)
  {
  }

  /** Every page that [vaddr, vaddr + len) touches is in place. */
  ghost predicate Spanned(vaddr: nat, len: nat, done: set<nat>)
  {
    forall n :: vaddr / PAGE <= n && n * PAGE < vaddr + len ==> n in done
  }

  lemma SpannedAt(vaddr: nat, len: nat, done: set<nat>, x: nat)
    requires Spanned(vaddr, len, done) && x < len
    ensures (vaddr + x) / PAGE in done
  {
    var n := (vaddr + x) / PAGE;
    assert vaddr / PAGE <= n && n * PAGE <= vaddr + x;
  }

  lemma OwnFrame(t: Tables, frames: set<nat>, ram: Ram, root: nat, done: set<nat>, base: set<nat>, a: nat, f: nat)
    requires RamOk(t, frames, ram) && Private(t, ram, root, done, base) && a / PAGE in done
    requires Present(Spot(t, root, a / PAGE)) && f == Spot(t, root, a / PAGE).addr
    ensures f in ram && |ram[f]| == PAGE && (f * PAGE + a % PAGE) / PAGE == f
    ensures (f * PAGE + a % PAGE) % PAGE == a % PAGE
  {
    hide Spot, Present;
    FrameDigits(f, a % PAGE);
  }

  /** One chunk: it lands at its addresses, in a frame of the load's own. */
  lemma FillOne(t: Tables, frames: set<nat>, ram0: Ram, ram: Ram, root: nat, done: set<nat>, base: set<nat>,
                vaddr: nat, src: seq<bv8>, copied: nat, a: nat, f: nat, piece: seq<bv8>)
    requires RamOk(t, frames, ram) && Private(t, ram, root, done, base) && BaseKept(ram0, ram, base)
    requires BytesKept(t, ram0, t, ram, root, done, vaddr, vaddr + |src|)
    requires copied + |piece| <= |src| && piece == src[copied..copied + |piece|] && a == vaddr + copied
    requires Spanned(vaddr, |src|, done) && a / PAGE in done && a % PAGE + |piece| <= PAGE
    requires Present(Spot(t, root, a / PAGE)) && f == Spot(t, root, a / PAGE).addr && f in ram && |ram[f]| == PAGE
    requires forall x :: 0 <= x < copied ==> Holds(t, ram, root, vaddr + x, src[x])
    ensures var ram' := ram[f := Put(ram[f], a % PAGE, piece)];
      && RamOk(t, frames, ram') && Private(t, ram', root, done, base) && BaseKept(ram0, ram', base)
      && BytesKept(t, ram0, t, ram', root, done, vaddr, vaddr + |src|)
      && forall x :: 0 <= x < copied + |piece| ==> Holds(t, ram', root, vaddr + x, src[x])
  {
    hide Private, Holds, Spot, Put, BaseKept, Present, BytesKept, Spanned, RamOk;
    WriteReaches(t, frames, ram, root, done, base, a, piece);
    var ram' := ram[f := Put(ram[f], a % PAGE, piece)];
    BaseKeptTrans(ram0, ram, ram', base);
    KeptOutside(t, ram0, ram, ram', root, done, vaddr, |src|, a, |piece|);
    HoldsSoFar(t, ram, ram', root, done, vaddr, src, copied, a, piece);
  }

  lemma KeptOutside(t: Tables, r0: Ram, r1: Ram, r2: Ram, root: nat, done: set<nat>, vaddr: nat, len: nat, a: nat,
                    chunk: nat)
    requires vaddr <= a && a + chunk <= vaddr + len
    requires BytesKept(t, r0, t, r1, root, done, vaddr, vaddr + len)
    requires BytesKept(t, r1, t, r2, root, done, a, a + chunk)
    ensures BytesKept(t, r0, t, r2, root, done, vaddr, vaddr + len)
  {
    hide Holds;
  }

  lemma HoldsSoFar(t: Tables, r1: Ram, r2: Ram, root: nat, done: set<nat>, vaddr: nat, src: seq<bv8>, copied: nat,
                   a: nat, piece: seq<bv8>)
    requires copied + |piece| <= |src| && piece == src[copied..copied + |piece|] && a == vaddr + copied
    requires Spanned(vaddr, |src|, done)
    requires BytesKept(t, r1, t, r2, root, done, a, a + |piece|)
    requires forall x :: 0 <= x < copied ==> Holds(t, r1, root, vaddr + x, src[x])
    requires forall x :: 0 <= x < |piece| ==> Holds(t, r2, root, a + x, piece[x])
    ensures forall x :: 0 <= x < copied + |piece| ==> Holds(t, r2, root, vaddr + x, src[x])
  {
    hide Holds, Spanned;
    forall x | 0 <= x < copied + |piece| ensures Holds(t, r2, root, vaddr + x, src[x]) {
      if x >= copied {
        var y := x - copied;
        assert a + y == vaddr + x && piece[y] == src[x];
        assert Holds(t, r2, root, a + y, piece[y]);
      } else {
        SpannedAt(vaddr, |src|, done, x);
        assert Holds(t, r1, root, vaddr + x, src[x]);
      }
    }
  }

  lemma FrameDigits(f: nat, off: nat)
    requires off < PAGE
    ensures (f * PAGE + off) / PAGE == f && (f * PAGE + off) % PAGE == off
  {
  }

  // ------------------------------------------------------------ segments

  predicate SegmentOk(s: Segment, file: seq<bv8>)
  {
    s.load && s.filesz <= s.memsz && s.offset + s.filesz <= |file|
  }

  /** One turn of the loader's loop over the program headers. */
  method LoadSegment(v: Vmm, m: Memory, list: PageList.PageList, memory: bool, root: nat, file: seq<bv8>, s: Segment,
                     ghost need: set<nat>, ghost done: set<nat>, ghost base: set<nat>)
    returns (ok: bool)
    requires Loading(v, m, root, need, done, base) && list.Valid() && SegmentOk(s, file)
    requires forall n :: FirstPage(s) <= n < PastPage(s) ==> n in need && n !in done
    modifies v, m, list, list.buf
    ensures BaseKept(old(m.ram), m.ram, base) && list.Valid() && (list.buf == old(list.buf) || fresh(list.buf))
    ensures v.Valid() && RamOk(v.tables, v.frames, m.ram) && old(v.frames) <= v.frames
    ensures OthersKept(old(v.tables), old(v.own), v.tables, v.own, root)
    ensures Recorded(old(list.Pages()), list.Pages(), old(v.frames), v.frames)
    ensures memory ==> AllListed(old(m.ram), m.ram, list.Pages())
    ensures !ok ==> m.left == 0 || v.left == 0
    ensures ok ==> Loading(v, m, root, need, done + Range(FirstPage(s), PastPage(s)), base)
    ensures ok ==> BytesKept(old(v.tables), old(m.ram), v.tables, m.ram, root, done, 0, 0)
    ensures ok ==> Image(v.tables, m.ram, root, file, s)
  {
    hide Private, BytesKept, Tree, Holds, BaseKept, RamOk, Ready, Recorded, Range, Spanned, FirstPage, PastPage,
         OthersKept, AllListed, Usable;
    SegmentPages(s, done);
    ok := MapPages(v, m, list, memory, root, FirstPage(s), PastPage(s), need, done, base);
    if !ok { return; }
    ghost var all, t, r1 := done + Range(FirstPage(s), PastPage(s)), v.tables, m.ram;
    var bytes, zeros := file[s.offset..s.offset + s.filesz], seq(s.memsz - s.filesz, _ => 0);
    ok := Fill(v, m, root, s.vaddr, bytes, need, all, base);
    ghost var r2 := m.ram;
    BaseKeptTrans(old(m.ram), r1, r2, base);
    if memory { StillListed(old(m.ram), r1, r2, list.Pages()); }
    if !ok { return; }
    ok := Fill(v, m, root, s.vaddr + s.filesz, zeros, need, all, base);
    BaseKeptTrans(old(m.ram), r2, m.ram, base);
    if memory { StillListed(old(m.ram), r2, m.ram, list.Pages()); }
    if !ok { return; }
    BothFilled(t, r1, r2, m.ram, root, file, s, done, all, bytes, zeros);
    BytesKeptTrans(old(v.tables), old(m.ram), t, r1, t, m.ram, root, done, done, 0, 0);
  }

  lemma SegmentPages(s: Segment, done: set<nat>)
    requires s.filesz <= s.memsz
    ensures FirstPage(s) <= PastPage(s)
    ensures Spanned(s.vaddr, s.filesz, done + Range(FirstPage(s), PastPage(s)))
    ensures Spanned(s.vaddr + s.filesz, s.memsz - s.filesz, done + Range(FirstPage(s), PastPage(s)))
  {
    forall n | s.vaddr / PAGE <= n && n * PAGE < s.vaddr + s.memsz ensures n in Range(FirstPage(s), PastPage(s)) {
      assert Between(FirstPage(s), n, PastPage(s));
    }
  }

  /** The file bytes, then the zeros: together the image, and nothing else changed. */
  lemma BothFilled(t: Tables, r1: Ram, r2: Ram, r3: Ram, root: nat, file: seq<bv8>, s: Segment, done: set<nat>,
                   all: set<nat>, bytes: seq<bv8>, zeros: seq<bv8>)
    requires SegmentOk(s, file) && bytes == file[s.offset..s.offset + s.filesz]
    requires zeros == seq(s.memsz - s.filesz, _ => 0)
    requires all == done + Range(FirstPage(s), PastPage(s))
    requires forall n :: FirstPage(s) <= n < PastPage(s) ==> n !in done
    requires BytesKept(t, r1, t, r2, root, all, s.vaddr, s.vaddr + s.filesz)
    requires BytesKept(t, r2, t, r3, root, all, s.vaddr + s.filesz, s.vaddr + s.memsz)
    requires Filled(t, r2, root, s.vaddr, bytes) && Filled(t, r3, root, s.vaddr + s.filesz, zeros)
    ensures Image(t, r3, root, file, s) && BytesKept(t, r1, t, r3, root, done, 0, 0)
  {
    hide Holds, FirstPage, PastPage, Range;
    forall x: nat | x < s.memsz ensures Holds(t, r3, root, s.vaddr + x, ByteOf(file, s, x)) {
      SegmentAddress(s, x);
      if x < s.filesz {
        assert Holds(t, r2, root, s.vaddr + x, bytes[x]);
      } else {
        var y := x - s.filesz;
        assert s.vaddr + s.filesz + y == s.vaddr + x;
        assert Holds(t, r3, root, s.vaddr + s.filesz + y, zeros[y]);
      }
    }
    forall a: nat, b: bv8 | a / PAGE in done && Holds(t, r1, root, a, b) ensures Holds(t, r3, root, a, b) {
      OutOfSegment(s, a);
      assert Holds(t, r2, root, a, b);
    }
  }

  lemma SegmentAddress(s: Segment, x: nat)
    requires x < s.memsz
    ensures FirstPage(s) <= (s.vaddr + x) / PAGE < PastPage(s)
    ensures (s.vaddr + x) / PAGE in Range(FirstPage(s), PastPage(s))
  {
    assert Between(FirstPage(s), (s.vaddr + x) / PAGE, PastPage(s));
  }

  lemma OutOfSegment(s: Segment, a: nat)
    requires !(FirstPage(s) <= a / PAGE < PastPage(s))
    ensures !(s.vaddr <= a < s.vaddr + s.memsz)
  {
  }

  /** elf_load_into_process. In every outcome no byte of a frame that was in use before the load,
      the parent's pages included, is written, and the list records only frames that were not in
      use, each once, and all of those taken if the heap has memory for the list. When it succeeds,
      reading the new address space through its own tables yields every segment's image. */
  method Load(v: Vmm, m: Memory, list: PageList.PageList, memory: bool, root: nat, file: seq<bv8>, segs: seq<Segment>,
              entry: nat)
    returns (r: nat, ghost ok: bool)
    requires v.Valid() && RamOk(v.tables, v.frames, m.ram) && list.Valid() && WellFormed(segs, file)
    requires Ready(v.tables, v.own, root, PagesOf(segs, |segs|))
    modifies v, m, list, list.buf
    ensures v.Valid() && RamOk(v.tables, v.frames, m.ram) && list.Valid()
    ensures BaseKept(old(m.ram), m.ram, old(v.frames))
    ensures OthersKept(old(v.tables), old(v.own), v.tables, v.own, root)
    ensures Recorded(old(list.Pages()), list.Pages(), old(v.frames), v.frames)
    ensures memory ==> AllListed(old(m.ram), m.ram, list.Pages())
    ensures ok ==> r == entry && ValidIdent(file)
    ensures ok ==> forall i :: 0 <= i < |segs| && segs[i].load ==> Image(v.tables, m.ram, root, file, segs[i])
    ensures !ok ==> r == 0 && (!ValidIdent(file) || m.left == 0 || v.left == 0)
    ensures ok ==> forall i :: 0 <= i < |segs| && segs[i].load ==> Writable(v.tables, root, segs[i])
  {
    hide Private, BytesKept, Tree, Holds, BaseKept, RamOk, Ready, Recorded, Range, PagesOf, FirstPage, PastPage, Image,
         OthersKept, AllListed, Usable, Writable;
    ghost var base, need := v.frames, PagesOf(segs, |segs|);
    RecordedNone(list.Pages(), v.frames, m.ram, base);
    OthersKeptSame(v.tables, v.own, root);
    if !ValidIdent(file) { return 0, false; }
    LoadStarts(v.tables, m.ram, root, segs, base);
    var i := 0;
    while i < |segs|
      invariant 0 <= i <= |segs| && Loading(v, m, root, need, PagesOf(segs, i), base)
      invariant BaseKept(old(m.ram), m.ram, base) && list.Valid() && (list.buf == old(list.buf) || fresh(list.buf))
      invariant old(v.frames) <= v.frames && Recorded(old(list.Pages()), list.Pages(), old(v.frames), v.frames)
      invariant forall k :: 0 <= k < i && segs[k].load ==> Image(v.tables, m.ram, root, file, segs[k])
      invariant OthersKept(old(v.tables), old(v.own), v.tables, v.own, root)
      invariant memory ==> AllListed(old(m.ram), m.ram, list.Pages())
    {
      NextSegment(segs, file, i);
      if segs[i].load {
        ghost var t, own, ram, frames, pages := v.tables, v.own, m.ram, v.frames, list.Pages();
        var done := LoadSegment(v, m, list, memory, root, file, segs[i], need, PagesOf(segs, i), base);
        BaseKeptTrans(old(m.ram), ram, m.ram, base);
        OthersKeptTrans(old(v.tables), old(v.own), t, own, v.tables, v.own, root);
        RecordedPrefix(pages, list.Pages(), frames, v.frames);
        if memory { AllListedTrans(old(m.ram), ram, m.ram, pages, list.Pages()); }
        RecordedTrans(old(list.Pages()), pages, list.Pages(), base, frames, v.frames);
        if !done { return 0, false; }
        ImagesKept(t, ram, v.tables, m.ram, root, file, segs, i);
      }
      i := i + 1;
    }
    forall i | 0 <= i < |segs| && segs[i].load ensures Writable(v.tables, root, segs[i]) {
      ImageWritable(v.tables, m.ram, root, file, segs, i, v.left);
    }
    return entry, true;
  }

  lemma ImageWritable(t: Tables, ram: Ram, root: nat, file: seq<bv8>, segs: seq<Segment>, i: nat, left: nat)
    requires WellFormed(segs, file) && i < |segs| && segs[i].load
    requires Image(t, ram, root, file, segs[i]) && Usable(t, root, PagesOf(segs, |segs|), left)
    ensures Writable(t, root, segs[i])
  {
    hide Spot, Present, UserWrites, PageOf;
    var s := segs[i];
    forall a: nat | s.vaddr <= a < s.vaddr + s.memsz ensures UserWrites(t, root, PageOf(a)) {
      var x := a - s.vaddr;
      assert Holds(t, ram, root, s.vaddr + x, ByteOf(file, s, x));
      SegmentAddress(s, x);
      assert InSegment(s, a / PAGE);
      assert Covered(segs, |segs|, a / PAGE);
      SamePage(a, a / PAGE * PAGE);
    }
  }

  /** What a load leaves alone: every address space but the one loaded into reads the same bytes
      as before, wherever its pages are. */
  lemma OthersReadTheSame(t: Tables, own: Places, frames: set<nat>, ram: Ram, t': Tables, own': Places, ram': Ram,
                          root: nat, r: nat, a: nat, b: bv8)
    requires RamOk(t, frames, ram) && BaseKept(ram, ram', frames) && OthersKept(t, own, t', own', root)
    requires r != root && Walkable(t, own, r, At(a / PAGE))
    ensures Holds(t, ram, r, a, b) ==> Holds(t', ram', r, a, b)
  {
    hide Leaf, Walkable, At, Present;
  }

  lemma LoadStarts(t: Tables, ram: Ram, root: nat, segs: seq<Segment>, base: set<nat>)
    ensures PagesOf(segs, 0) == {} && Private(t, ram, root, PagesOf(segs, 0), base)
    ensures forall left: nat :: Usable(t, root, PagesOf(segs, 0), left)
  {
  }

  lemma NextSegment(segs: seq<Segment>, file: seq<bv8>, i: nat)
    requires WellFormed(segs, file) && i < |segs|
    ensures PagesOf(segs, i) <= PagesOf(segs, i + 1) <= PagesOf(segs, |segs|)
    ensures segs[i].load ==> SegmentOk(segs[i], file)
    ensures PagesOf(segs, i + 1) == if segs[i].load then PagesOf(segs, i) + Range(FirstPage(segs[i]), PastPage(segs[i]))
              else PagesOf(segs, i)
    ensures segs[i].load ==> forall n :: FirstPage(segs[i]) <= n < PastPage(segs[i]) ==>
              n in PagesOf(segs, |segs|) && n !in PagesOf(segs, i)
  {
    hide FirstPage, PastPage;
    forall n: nat ensures Covered(segs, i + 1, n) <==> Covered(segs, i, n) || InSegment(segs[i], n) { }
    if segs[i].load {
      forall n | FirstPage(segs[i]) <= n < PastPage(segs[i])
        ensures n in PagesOf(segs, |segs|) && n !in PagesOf(segs, i)
      {
        assert InSegment(segs[i], n);
        assert Covered(segs, |segs|, n);
      }
      forall n: nat ensures n in Range(FirstPage(segs[i]), PastPage(segs[i])) <==> InSegment(segs[i], n) {
        assert Between(FirstPage(segs[i]), n, PastPage(segs[i])) == InSegment(segs[i], n);
      }
    }
  }

  lemma RecordedPrefix(pre: seq<nat>, now: seq<nat>, base: set<nat>, frames: set<nat>)
    requires Recorded(pre, now, base, frames)
    ensures pre <= now
  {
  }

  lemma RecordedTrans(pre: seq<nat>, mid: seq<nat>, now: seq<nat>, base: set<nat>, frames: set<nat>, frames': set<nat>)
    requires Recorded(pre, mid, base, frames) && Recorded(mid, now, frames, frames') && base <= frames <= frames'
    ensures Recorded(pre, now, base, frames')
  {
    forall i | |pre| <= i < |now| ensures now[i] % PAGE == 0 && now[i] / PAGE !in base && now[i] / PAGE in frames' {
      if i < |mid| { assert now[i] == mid[i]; }
    }
    forall i, j | |pre| <= i < j < |now| ensures now[i] != now[j] {
      if i < |mid| { assert now[i] == mid[i]; }
      if j < |mid| { assert now[j] == mid[j]; }
    }
  }

  /** Segments loaded earlier keep their image. */
  lemma ImagesKept(t: Tables, ram: Ram, t': Tables, ram': Ram, root: nat, file: seq<bv8>, segs: seq<Segment>, i: nat)
    requires i <= |segs| && WellFormed(segs, file) && BytesKept(t, ram, t', ram', root, PagesOf(segs, i), 0, 0)
    requires forall k :: 0 <= k < i && segs[k].load ==> Image(t, ram, root, file, segs[k])
    ensures forall k :: 0 <= k < i && segs[k].load ==> Image(t', ram', root, file, segs[k])
  {
    hide Holds, FirstPage, PastPage, Range;
    forall k | 0 <= k < i && segs[k].load ensures Image(t', ram', root, file, segs[k]) {
      forall x: nat | x < segs[k].memsz
        ensures Holds(t', ram', root, segs[k].vaddr + x, ByteOf(file, segs[k], x))
      {
        SegmentAddress(segs[k], x);
        var n := (segs[k].vaddr + x) / PAGE;
        assert InSegment(segs[k], n);
        assert Covered(segs, i, n);
        assert Holds(t, ram, root, segs[k].vaddr + x, ByteOf(file, segs[k], x));
      }
    }
  }
}
