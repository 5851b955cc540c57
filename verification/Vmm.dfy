/** Mapping, unmapping and cloning address spaces. */
module Vmm {
  import opened VmmTables
  import opened VmmSteps

  /** Flags of a directory entry: present, writable, user, and the caller's cache bits. */
  function DirFlags(flags: bv12): bv12 { 1 | 2 | 4 | (flags & 0x18) }

  /** The leaf entry for a physical address and flags. */
  function LeafEntry(phys: nat, flags: bv12, nx: bool): Pte
  {
    Pte(phys / PAGE + (if nx then NX else 0), 1 | (flags & 2) | (flags & 4) | (flags & 0x18))
  }

  /** Directory entry e before and e' after a walk: a new one is present, open to user code and has the
      cache bits asked for and no other bit; an old one gains the write and user bits. */
  predicate DirectoryBits(e: Pte, e': Pte, flags: bv12)
  {
    if Present(e) then e'.addr == e.addr && e'.flags & 6 == 6 && e'.flags & 0xFF9 == e.flags & 0xFF9
    else e'.flags & 7 == 7 && e'.flags & 0x18 == flags & 0x18 && e'.flags & 0xFE0 == 0
  }

  lemma NewDirectory(e: Pte, g: nat, flags: bv12)
    ensures !Present(e) ==> DirectoryBits(e, Pte(g, DirFlags(flags)), flags)
    ensures Present(e) ==> DirectoryBits(e, Permitted(e), flags)
  {
  }

  lemma EntryFlags(g: nat, phys: nat, flags: bv12, nx: bool)
    ensures Present(Pte(g, DirFlags(flags))) && !Huge(Pte(g, DirFlags(flags))) && Opens(Pte(g, DirFlags(flags)))
    ensures Present(LeafEntry(phys, flags, nx)) && !Present(EMPTY)
  {
  }

  /** Some frame outside a set: any one may be chosen. */
  method FreshFrame(frames: set<nat>) returns (f: nat)
    ensures f != 0 && f !in frames
  {
    f := *;
    if f != 0 && f !in frames { return; }
    f := 1;
    while f in frames
      invariant 1 <= f && Upto(f) <= frames
      decreases |frames| + 1 - f
    {
      Fewer(Upto(f) + {f}, frames);
      f := f + 1;
    }
  }

  /** The numbers from 1 up to but not including n. */
  function Upto(n: nat): (s: set<nat>)
    ensures |s| == (if n <= 1 then 0 else n - 1) && forall k :: k in s <==> 1 <= k < n
  {
    if n <= 1 then {} else Upto(n - 1) + {n - 1}
  }

  lemma Fewer(a: set<nat>, b: set<nat>)
    requires a <= b
    ensures |a| <= |b|
  {
    assert a + (b - a) == b;
  }

  class Vmm {
    var tables: Tables
    var frames: set<nat>
    /** How many frames for tables the page allocator can still give. */
    var left: nat
    ghost var own: Places

    /** The tables form trees and every table is an allocated frame. */
    ghost predicate Valid()
      reads this
    {
      Tree(tables, own) && tables.Keys <= frames
    }

    /** A page for a table: any frame that is not in use, and 0 exactly if there is none left. */
    method AllocTable() returns (r: nat)
      modifies this`frames, this`left
      ensures r == 0 <==> old(left) == 0
      ensures r == 0 ==> frames == old(frames) && left == 0
      ensures r != 0 ==> r !in old(frames) && frames == old(frames) + {r} && left == old(left) - 1
    {
      if left == 0 { return 0; }
      r := FreshFrame(frames);
      frames := frames + {r};
      left := left - 1;
    }

    /** One level of the walk in map: the table behind entry x of f, made if it is missing. */
    method Descend(f: nat, x: nat, flags: bv12) returns (child: nat)
      requires Valid() && f in own && x < SLOTS && !own[f].Level1? && !(own[f].Root? && x == RECURSIVE)
      requires own[f].Level2? ==> !Huge(Entry(tables, f, x))
      modifies this
      ensures Valid() && SameView(old(tables), tables, old(own)) && Kept(old(tables), old(own), tables, own)
      ensures child == 0 ==> Step(old(tables), f, x) == 0 && left == 0
      ensures left <= old(left)
      ensures child != 0 ==> Step(tables, f, x) == child && child in own && own[child] == Child(own[f], x)
      ensures child != 0 ==> Opens(Entry(tables, f, x))
      ensures child != 0 ==> DirectoryBits(Entry(old(tables), f, x), Entry(tables, f, x), flags)
      ensures old(frames) <= frames && OnlyFresh(old(tables), old(frames), tables)
    {
      hide Tree, Present, Huge, DirFlags, SameView, Kept, Link, Permit, Permitted, Opens, DirectoryBits;
      TreeBasics(tables, own);
      NothingChanged(tables, own);
      EntryFlags(0, 0, flags, false);
      NewDirectory(tables[f][x], 0, flags);
      if !Present(tables[f][x]) {
        child := AllocTable();
        if child == 0 { return; }
        EntryFlags(child, 0, flags, false);
        NewDirectory(tables[f][x], child, flags);
        LinkTree(tables, own, f, x, child, DirFlags(flags));
        LinkView(tables, own, f, x, child, DirFlags(flags));
        LinkStep(tables, own, f, x, child, DirFlags(flags), f, x);
        LinkEntry(tables, own, f, x, child, DirFlags(flags), f, x);
        own := own[child := Child(own[f], x)];
        LinkKeys(tables, f, x, child, DirFlags(flags));
        tables := Link(tables, f, x, child, DirFlags(flags));
      } else {
        StepFits(tables, own, f, x);
        PermitTree(tables, own, f, x);
        PermitView(tables, own, f, x);
        PermitStep(tables, own, f, x, f, x);
        PermitEntry(tables, own, f, x, f, x);
        child := tables[f][x].addr;
        PermitKeys(tables, f, x);
        tables := Permit(tables, f, x);
      }
    }

    /** The walk of map down to the leaf table of p. Whatever happens no translation changes; it
        can fail only if the leaf table was missing. */
    method Reach(root: nat, p: Page, flags: bv12) returns (pt: nat)
      requires Valid() && Walkable(tables, own, root, p)
      modifies this
      ensures Valid() && SameView(old(tables), tables, old(own)) && Kept(old(tables), old(own), tables, own)
      ensures pt == 0 ==> LeafTable(old(tables), root, p) == 0 && left == 0
      ensures left <= old(left)
      ensures pt != 0 ==> LeafTable(tables, root, p) == pt && pt in own && own[pt].Level1? && PathOpens(tables, root, p)
      ensures old(frames) <= frames && OnlyFresh(old(tables), old(frames), tables)
    {
      hide Tree, Present, Huge, SameView, Kept, Step, Opens, Entry;
      ghost var t0, o0 := tables, own;
      TreeBasics(t0, o0);
      NoTable(t0, p.j);
      NoTable(t0, p.k);
      NothingChanged(t0, o0);
      var pdpt := Descend(root, p.i, flags);
      if pdpt == 0 { return 0; }
      ghost var t1, o1 := tables, own;
      ViewAt(t0, t1, o0, o1, root, p);
      var pd := Descend(pdpt, p.j, flags);
      SameTrans(t0, o0, t1, o1, tables);
      KeptTrans(t0, o0, t1, o1, tables, own);
      if pd == 0 {
        MissingDir(t0, o0, t1, o1, root, p);
        return 0;
      }
      ghost var t2, o2 := tables, own;
      KeptAt(t1, o1, t2, o2, root, p.i);
      KeptPlace(t1, o1, t2, o2, pdpt);
      ViewAt(t0, t2, o0, o2, root, p);
      pt := Descend(pd, p.k, flags);
      SameTrans(t0, o0, t2, o2, tables);
      KeptTrans(t0, o0, t2, o2, tables, own);
      if pt == 0 {
        MissingLeaf(t0, o0, t2, o2, root, p);
        return 0;
      }
      KeptAt(t2, o2, tables, own, root, p.i);
      KeptPlace(t2, o2, tables, own, pd);
      KeptAt(t2, o2, tables, own, pdpt, p.j);
    }

    /** vmm_map_page_in_cr3, and vmm_map_page for the active root. If the tables can be had, p
        maps to phys, and so it does from every root that reaches the same leaf table, while every
        other translation stays; if not, none changes. It fails only if no frame is left. */
    method MapPage(root: nat, p: Page, phys: nat, flags: bv12, nx: bool) returns (ghost ok: bool)
      requires Valid() && Walkable(tables, own, root, p)
      modifies this
      ensures Valid() && Kept(old(tables), old(own), tables, own)
      ensures old(frames) <= frames && OnlyFresh(old(tables), old(frames), tables)
      ensures LeafTable(old(tables), root, p) != 0 ==> ok
      ensures !ok ==> SameView(old(tables), tables, old(own)) && left == 0
      ensures left <= old(left)
      ensures ok ==>
                && Replaced(old(tables), tables, old(own), root, p, LeafEntry(phys, flags, nx))
                && PathOpens(tables, root, p)
      ensures ok ==> MapsTo(Leaf(tables, root, p), phys, flags, nx)
      ensures ok ==> (UserReads(tables, root, p) <==> flags & USER == USER)
      ensures ok ==> (UserWrites(tables, root, p) <==> flags & USER == USER && flags & WRITE == WRITE)
      ensures forall r: nat, q: Page ::
                Walkable(old(tables), old(own), r, q) && !(ok && SameLeafSlot(tables, r, q, root, p)) ==>
                && (UserWrites(old(tables), r, q) ==> UserWrites(tables, r, q))
                && (UserWrites(tables, r, q) ==> Leaf(old(tables), r, q).flags & 7 == 7)
    {
      hide Tree, Present, Huge, SameView, Kept, Step, LeafTable, Leaf, NoHuge, LeafEntry, PathOpens;
      ghost var t0, o0 := tables, own;
      var pt := Reach(root, p, flags);
      if pt == 0 {
        forall r: nat, q: Page | Walkable(t0, o0, r, q)
          ensures && (UserWrites(t0, r, q) ==> UserWrites(tables, r, q))
                  && (UserWrites(tables, r, q) ==> Leaf(t0, r, q).flags & 7 == 7)
        {
          LeafSame(t0, tables, o0, r, q);
          OthersGrant(t0, o0, tables, own, r, q);
        }
        return false;
      }
      ghost var t1, o1 := tables, own;
      TreeBasics(t1, o1);
      ViewAt(t0, t1, o0, o1, root, p);
      var e := LeafEntry(phys, flags, nx);
      StoreKeys(t1, pt, p.l, e);
      StoreTree(t1, o1, pt, p.l, e);
      StoreReplaces(t0, t1, o0, o1, root, p, e);
      KeptTrans(t0, o0, t1, o1, Store(t1, pt, p.l, e), o1);
      StillOpens(t1, o1, Store(t1, pt, p.l, e), o1, root, p);
      tables := Store(tables, pt, p.l, e);
      ok := true;
      EntryBits(phys, flags, nx);
      LeafDecides(tables, root, p);
      forall r: nat, q: Page | Walkable(t0, o0, r, q) && !SameLeafSlot(tables, r, q, root, p)
        ensures && (UserWrites(t0, r, q) ==> UserWrites(tables, r, q))
                && (UserWrites(tables, r, q) ==> Leaf(t0, r, q).flags & 7 == 7)
      {
        OthersGrant(t0, o0, tables, own, r, q);
      }
    }

    /** vmm_unmap_page_in_cr3, and vmm_unmap_page for the active root. */
    method UnmapPage(root: nat, p: Page) returns (ghost ok: bool)
      requires Valid() && Walkable(tables, own, root, p)
      modifies this`tables
      ensures Valid() && Kept(old(tables), own, tables, own)
      ensures ok <==> LeafTable(old(tables), root, p) != 0
      ensures !ok ==> tables == old(tables)
      ensures ok ==> Replaced(old(tables), tables, own, root, p, EMPTY)
    {
      hide Tree, Present, Huge, SameView, Kept, Leaf;
      NothingChanged(tables, own);
      TreeBasics(tables, own);
      WalkPlaces(tables, own, root, p);
      ok := false;
      NoTable(tables, p.j);
      NoTable(tables, p.k);
      if !Present(tables[root][p.i]) { return; }
      StepFits(tables, own, root, p.i);
      var pdpt := tables[root][p.i].addr;
      if !Present(tables[pdpt][p.j]) { return; }
      StepFits(tables, own, pdpt, p.j);
      var pd := tables[pdpt][p.j].addr;
      if !Present(tables[pd][p.k]) { return; }
      StepFits(tables, own, pd, p.k);
      var pt := tables[pd][p.k].addr;
      StoreTree(tables, own, pt, p.l, EMPTY);
      StoreReplaces(tables, tables, own, own, root, p, EMPTY);
      tables := Store(tables, pt, p.l, EMPTY);
      ok := true;
    }
  }

  /** Page p has entry e through root, and through every root that reaches the same leaf table;
      every other walk ends where it did. */
  ghost predicate Replaced(t: Tables, t': Tables, own: Places, root: nat, p: Page, e: Pte)
  {
    && LeafTable(t', root, p) != 0 && Leaf(t', root, p) == e
    && forall r: nat, q: Page :: Walkable(t, own, r, q) ==>
         && NoHuge(t', r, q)
         && Leaf(t', r, q) == if q == p && LeafTable(t', r, q) == LeafTable(t', root, p) then e else Leaf(t, r, q)
  }

  predicate SameLeafSlot(t: Tables, r: nat, q: Page, root: nat, p: Page)
  {
    q == p && LeafTable(t, r, q) == LeafTable(t, root, p)
  }

  /** Every directory entry on the way to p lets user code read and write. */
  predicate PathOpens(t: Tables, root: nat, p: Page)
  {
    Opens(Entry(t, root, p.i)) && Opens(Entry(t, Step(t, root, p.i), p.j)) && Opens(Entry(t, Dir(t, root, p), p.k))
  }

  /** Entry e is present and maps the frame of phys: it carries the write, user and cache bits that
      were asked for and no other bit, and bit 63 exactly if execution is to be disabled. */
  predicate MapsTo(e: Pte, phys: nat, flags: bv12, nx: bool)
  {
    && e.flags & 1 == 1 && e.flags & 0x1E == flags & 0x1E && e.flags & 0xFE0 == 0
    && (phys / PAGE < NX ==> e.addr % NX == phys / PAGE && (e.addr >= NX <==> nx))
  }

  lemma EntryBits(phys: nat, flags: bv12, nx: bool)
    ensures var e := LeafEntry(phys, flags, nx);
      && MapsTo(e, phys, flags, nx)
      && (e.flags & 5 == 5 <==> flags & 4 == 4) && (e.flags & 7 == 7 <==> flags & 4 == 4 && flags & 2 == 2)
  {
  }

  /** Once the directories are open the leaf entry alone decides what user code may do. */
  lemma LeafDecides(t: Tables, root: nat, p: Page)
    requires PathOpens(t, root, p) && LeafTable(t, root, p) != 0 && 0 !in t
    ensures UserReads(t, root, p) <==> Leaf(t, root, p).flags & 5 == 5
    ensures UserWrites(t, root, p) <==> Leaf(t, root, p).flags & 7 == 7
  {
    NoTable(t, p.j);
    NoTable(t, p.k);
    OpenBits(Entry(t, root, p.i));
    OpenBits(Entry(t, Step(t, root, p.i), p.j));
    OpenBits(Entry(t, Dir(t, root, p), p.k));
  }

  lemma OpenBits(e: Pte)
    ensures Present(e) && Opens(e) ==> e.flags & 5 == 5 && e.flags & 7 == 7
    ensures e.flags & 7 == 7 <==> Present(e) && Opens(e)
  {
  }

  lemma LeafSame(t: Tables, t': Tables, own: Places, r: nat, q: Page)
    requires SameView(t, t', own) && Walkable(t, own, r, q)
    ensures Leaf(t', r, q) == Leaf(t, r, q)
  {
  }

  /** Opening directories takes no access away and gives user code no page whose own entry is closed
      to it. */
  lemma OthersGrant(t: Tables, own: Places, t': Tables, own': Places, r: nat, q: Page)
    requires Tree(t, own) && Walkable(t, own, r, q) && Kept(t, own, t', own') && Leaf(t', r, q) == Leaf(t, r, q)
    ensures UserWrites(t, r, q) ==> UserWrites(t', r, q)
    ensures UserWrites(t', r, q) ==> Leaf(t, r, q).flags & 7 == 7
  {
    hide Tree, Present, Huge, Opens, Kept;
    TreeBasics(t, own);
    WalkPlaces(t, own, r, q);
    NoTable(t, q.j);
    NoTable(t, q.k);
    NoTable(t, q.l);
    if UserWrites(t, r, q) {
      OpenBits(Entry(t, r, q.i));
      OpenBits(Entry(t, Step(t, r, q.i), q.j));
      OpenBits(Entry(t, Dir(t, r, q), q.k));
      KeptAt(t, own, t', own', r, q.i);
      KeptAt(t, own, t', own', Step(t, r, q.i), q.j);
      KeptAt(t, own, t', own', Dir(t, r, q), q.k);
      OpenBits(Entry(t', r, q.i));
      OpenBits(Entry(t', Step(t, r, q.i), q.j));
      OpenBits(Entry(t', Dir(t, r, q), q.k));
    }
  }

  lemma StillOpens(t: Tables, own: Places, t': Tables, own': Places, root: nat, p: Page)
    requires Tree(t, own) && Walkable(t, own, root, p) && LeafTable(t, root, p) != 0 && Kept(t, own, t', own')
    requires PathOpens(t, root, p)
    ensures PathOpens(t', root, p)
  {
    hide Tree, Present, Huge, Step, Opens, Entry, Kept;
    TreeBasics(t, own);
    WalkPlaces(t, own, root, p);
    NoTable(t, p.j);
    NoTable(t, p.k);
    KeptAt(t, own, t', own', root, p.i);
    KeptAt(t, own, t', own', Step(t, root, p.i), p.j);
    KeptAt(t, own, t', own', Dir(t, root, p), p.k);
  }

  lemma StoreReplaces(t0: Tables, t1: Tables, o0: Places, o1: Places, root: nat, p: Page, e: Pte)
    requires SameView(t0, t1, o0) && Kept(t0, o0, t1, o1) && Walkable(t0, o0, root, p)
    requires CanStore(t1, o1, LeafTable(t1, root, p), p.l) && LeafTable(t1, root, p) != 0
    ensures var pt := LeafTable(t1, root, p);
      pt in t1 && |t1[pt]| == SLOTS && Replaced(t0, Store(t1, pt, p.l, e), o0, root, p, e)
  {
    hide Leaf, LeafTable, NoHuge, Store, Tree;
    var pt := LeafTable(t1, root, p);
    assert Walkable(t1, o1, root, p);
    StoreLeaf(t1, o1, pt, p.l, e, root, p);
    TreeBasics(t1, o1);
    forall r: nat, q: Page | Walkable(t0, o0, r, q)
      ensures var t' := Store(t1, pt, p.l, e);
        && NoHuge(t', r, q)
        && Leaf(t', r, q) == if q == p && LeafTable(t', r, q) == LeafTable(t', root, p) then e else Leaf(t0, r, q)
    {
      assert Walkable(t1, o1, r, q);
      StoreLeaf(t1, o1, pt, p.l, e, r, q);
      if LeafTable(t1, r, q) == pt && q.l == p.l { SameSlot(t1, o1, r, q, root, p); }
    }
  }

  lemma ViewAt(t0: Tables, t1: Tables, o0: Places, o1: Places, root: nat, p: Page)
    requires SameView(t0, t1, o0) && Kept(t0, o0, t1, o1) && Walkable(t0, o0, root, p)
    ensures Walkable(t1, o1, root, p)
  {
    assert NoHuge(t1, root, p);
  }

  lemma KeptAt(t0: Tables, o0: Places, t1: Tables, o1: Places, f: nat, x: nat)
    requires Kept(t0, o0, t1, o1) && f in o0 && !o0[f].Level1? && Step(t0, f, x) != 0
    ensures Step(t1, f, x) == Step(t0, f, x) && (Opens(Entry(t0, f, x)) ==> Opens(Entry(t1, f, x)))
  {
  }

  lemma KeptPlace(t0: Tables, o0: Places, t1: Tables, o1: Places, f: nat)
    requires Kept(t0, o0, t1, o1) && f in o0
    ensures f in o1 && o1[f] == o0[f]
  {
  }

  lemma MissingDir(t0: Tables, o0: Places, t1: Tables, o1: Places, root: nat, p: Page)
    requires Tree(t0, o0) && Walkable(t0, o0, root, p) && Kept(t0, o0, t1, o1)
    requires Step(t1, Step(t1, root, p.i), p.j) == 0
    ensures LeafTable(t0, root, p) == 0
  {
    hide Tree, Present, Huge, Step;
    TreeBasics(t0, o0);
    WalkPlaces(t0, o0, root, p);
    NoTable(t0, p.j);
    NoTable(t0, p.k);
    if Step(t0, root, p.i) != 0 {
      KeptAt(t0, o0, t1, o1, root, p.i);
      if Dir(t0, root, p) != 0 { KeptAt(t0, o0, t1, o1, Step(t0, root, p.i), p.j); }
    }
  }

  lemma MissingLeaf(t0: Tables, o0: Places, t2: Tables, o2: Places, root: nat, p: Page)
    requires Tree(t0, o0) && Walkable(t0, o0, root, p) && Kept(t0, o0, t2, o2) && LeafTable(t2, root, p) == 0
    ensures LeafTable(t0, root, p) == 0
  {
    hide Tree, Present, Huge, Step;
    TreeBasics(t0, o0);
    WalkPlaces(t0, o0, root, p);
    NoTable(t0, p.j);
    NoTable(t0, p.k);
    if Step(t0, root, p.i) != 0 {
      KeptAt(t0, o0, t2, o2, root, p.i);
      if Dir(t0, root, p) != 0 {
        KeptAt(t0, o0, t2, o2, Step(t0, root, p.i), p.j);
        if LeafTable(t0, root, p) != 0 { KeptAt(t0, o0, t2, o2, Dir(t0, root, p), p.k); }
      }
    }
  }

  lemma LinkKeys(t: Tables, f: nat, x: nat, g: nat, flags: bv12)
    requires f in t && x < |t[f]|
    ensures Link(t, f, x, g, flags).Keys == t.Keys + {g}
  {
  }

  lemma StoreKeys(t: Tables, f: nat, x: nat, e: Pte)
    requires f in t && x < |t[f]|
    ensures Store(t, f, x, e).Keys == t.Keys
  {
  }

  lemma PermitKeys(t: Tables, f: nat, x: nat)
    requires f in t && x < |t[f]|
    ensures Permit(t, f, x).Keys == t.Keys
  {
  }
}
