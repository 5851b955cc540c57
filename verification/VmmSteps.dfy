/** What the single stores of map and unmap do to every walk. */
module VmmSteps {
  import opened VmmTables

  /** Every walk that was free of 2 MB pages still is and ends in the same entry. */
  ghost predicate SameView(t: Tables, t': Tables, own: Places)
  {
    forall root: nat, p: Page :: Walkable(t, own, root, p) ==>
      NoHuge(t', root, p) && Leaf(t', root, p) == Leaf(t, root, p)
  }

  predicate Walkable(t: Tables, own: Places, root: nat, p: Page)
  {
    IsRoot(own, root) && IsPage(p) && p.i != RECURSIVE && NoHuge(t, root, p)
  }

  /** The entry lets user code read and write below it. */
  predicate Opens(e: Pte) { e.flags & 6 == 6 }

  /** Tables stay where they are, no step between them changes and none loses its permissions. */
  ghost predicate Kept(t: Tables, own: Places, t': Tables, own': Places)
  {
    && (forall f :: f in own ==> f in own' && own'[f] == own[f])
    && (forall f: nat, x: nat :: f in own && !own[f].Level1? && Step(t, f, x) != 0 ==> Step(t', f, x) == Step(t, f, x))
    && (forall f: nat, x: nat :: f in own && !own[f].Level1? && Step(t, f, x) != 0 && Opens(Entry(t, f, x)) ==>
          Opens(Entry(t', f, x)))
  }

  /** Every table is an old one or lies in a frame that was not in use. */
  ghost predicate OnlyFresh(t: Tables, frames: set<nat>, t': Tables)
  {
    forall f :: f in t' && f in frames ==> f in t
  }

  lemma SameTrans(t0: Tables, own0: Places, t1: Tables, own1: Places, t2: Tables)
    requires SameView(t0, t1, own0) && SameView(t1, t2, own1) && Kept(t0, own0, t1, own1)
    ensures SameView(t0, t2, own0)
  {
    hide Leaf, NoHuge;
    forall root: nat, p: Page | Walkable(t0, own0, root, p)
      ensures NoHuge(t2, root, p) && Leaf(t2, root, p) == Leaf(t0, root, p)
    {
      assert NoHuge(t1, root, p) && Leaf(t1, root, p) == Leaf(t0, root, p);
      assert Walkable(t1, own1, root, p);
    }
  }

  lemma KeptTrans(t0: Tables, own0: Places, t1: Tables, own1: Places, t2: Tables, own2: Places)
    requires Kept(t0, own0, t1, own1) && Kept(t1, own1, t2, own2)
    ensures Kept(t0, own0, t2, own2)
  {
    hide Step, Entry, Opens;
  }

  lemma NothingChanged(t: Tables, own: Places)
    ensures SameView(t, t, own) && Kept(t, own, t, own)
  {
  }

  // ------------------------------------------------------------ a new, empty table

  function Blank(): (s: seq<Pte>)
    ensures |s| == SLOTS
  {
    seq(SLOTS, _ => EMPTY)
  }

  function Link(t: Tables, f: nat, x: nat, g: nat, flags: bv12): Tables
    requires f in t && x < |t[f]|
  {
    t[g := Blank()][f := t[f][x := Pte(g, flags)]]
  }

  predicate CanLink(t: Tables, own: Places, f: nat, x: nat, g: nat, flags: bv12)
  {
    && Tree(t, own) && f in t && x < SLOTS && !own[f].Level1? && !(own[f].Root? && x == RECURSIVE)
    && !Present(t[f][x]) && g != 0 && g !in t && Present(Pte(g, flags)) && !Huge(Pte(g, flags))
  }

  lemma LinkEntry(t: Tables, own: Places, f: nat, x: nat, g: nat, flags: bv12, h: nat, y: nat)
    requires CanLink(t, own, f, x, g, flags)
    ensures |t[f]| == SLOTS
    ensures Entry(Link(t, f, x, g, flags), h, y)
         == if h == f && y == x then Pte(g, flags) else if h == g then EMPTY else Entry(t, h, y)
    ensures Entry(t, f, x) == t[f][x]
  {
  }

  lemma LinkStep(t: Tables, own: Places, f: nat, x: nat, g: nat, flags: bv12, h: nat, y: nat)
    requires CanLink(t, own, f, x, g, flags)
    ensures |t[f]| == SLOTS
    ensures Step(Link(t, f, x, g, flags), h, y) == if h == f && y == x then g else if h == g then 0 else Step(t, h, y)
    ensures Step(t, f, x) == 0 && !Present(EMPTY)
  {
    hide Link, Entry, Tree;
    LinkEntry(t, own, f, x, g, flags, h, y);
  }

  lemma LinkTree(t: Tables, own: Places, f: nat, x: nat, g: nat, flags: bv12)
    requires CanLink(t, own, f, x, g, flags)
    ensures |t[f]| == SLOTS
    ensures Tree(Link(t, f, x, g, flags), own[g := Child(own[f], x)])
    ensures Kept(t, own, Link(t, f, x, g, flags), own[g := Child(own[f], x)])
  {
    hide Present, Huge;
    assert |t[f]| == SLOTS;
    var t', own' := Link(t, f, x, g, flags), own[g := Child(own[f], x)];
    assert !Present(EMPTY) by { NoTable(t, 0); }
    forall h, y | h in t' && 0 <= y < |t'[h]| ensures Fits(t', own', own'[h], t'[h][y], y) {
      if h in t { assert Fits(t, own, own[h], t[h][y], y); }
    }
    forall h: nat, y: nat | h in own && !own[h].Level1? && Step(t, h, y) != 0
      ensures Step(t', h, y) == Step(t, h, y) && Entry(t', h, y) == Entry(t, h, y)
    {
      LinkStep(t, own, f, x, g, flags, h, y);
      LinkEntry(t, own, f, x, g, flags, h, y);
    }
  }

  lemma LinkLeaf(t: Tables, own: Places, f: nat, x: nat, g: nat, flags: bv12, root: nat, p: Page)
    requires CanLink(t, own, f, x, g, flags) && Walkable(t, own, root, p)
    ensures |t[f]| == SLOTS
    ensures var t' := Link(t, f, x, g, flags); NoHuge(t', root, p) && Leaf(t', root, p) == Leaf(t, root, p)
  {
    hide Present, Huge, Tree, Link, Entry, Step, Blank;
    TreeBasics(t, own);
    var t' := Link(t, f, x, g, flags);
    var f3, f2, f1 := Step(t, root, p.i), Dir(t, root, p), LeafTable(t, root, p);
    var g3, g2, g1 := Step(t', root, p.i), Dir(t', root, p), LeafTable(t', root, p);
    WalkPlaces(t, own, root, p);
    LinkStep(t, own, f, x, g, flags, root, p.i);
    LinkStep(t, own, f, x, g, flags, g3, p.j);
    LinkStep(t, own, f, x, g, flags, g2, p.k);
    LinkEntry(t, own, f, x, g, flags, g2, p.k);
    LinkEntry(t, own, f, x, g, flags, g1, p.l);
    NoTable(t, p.j);
    NoTable(t, p.k);
    NoTable(t, p.l);
  }

  lemma LinkView(t: Tables, own: Places, f: nat, x: nat, g: nat, flags: bv12)
    requires CanLink(t, own, f, x, g, flags)
    ensures |t[f]| == SLOTS && SameView(t, Link(t, f, x, g, flags), own)
  {
    hide Walkable, Leaf, NoHuge, Link, Tree;
    TreeBasics(t, own);
    forall root: nat, p: Page | Walkable(t, own, root, p)
      ensures NoHuge(Link(t, f, x, g, flags), root, p) && Leaf(Link(t, f, x, g, flags), root, p) == Leaf(t, root, p)
    {
      LinkLeaf(t, own, f, x, g, flags, root, p);
    }
  }

  // ------------------------------------------------------------ more permissions on the way

  function Permit(t: Tables, f: nat, x: nat): Tables
    requires f in t && x < |t[f]|
  {
    t[f := t[f][x := Permitted(t[f][x])]]
  }

  /** The entry with the write and user bits set. */
  function Permitted(e: Pte): Pte { e.(flags := e.flags | 6) }

  lemma PermitFlags(e: Pte)
    ensures Permitted(e).addr == e.addr && Present(Permitted(e)) == Present(e) && Huge(Permitted(e)) == Huge(e)
    ensures Opens(Permitted(e))
  {
  }

  predicate CanPermit(t: Tables, own: Places, f: nat, x: nat)
  {
    Tree(t, own) && f in t && x < SLOTS && !own[f].Level1?
  }

  lemma PermitEntry(t: Tables, own: Places, f: nat, x: nat, h: nat, y: nat)
    requires CanPermit(t, own, f, x)
    ensures |t[f]| == SLOTS
    ensures var e, e' := Entry(t, h, y), Entry(Permit(t, f, x), h, y);
      && e'.addr == e.addr && Present(e') == Present(e) && Huge(e') == Huge(e)
      && (h != f || y != x ==> e' == e) && (Opens(e) || (h == f && y == x) ==> Opens(e'))
      && (h == f && y == x ==> e' == Permitted(e))
  {
    hide Present, Huge, Permitted, Opens;
    PermitFlags(t[f][x]);
  }

  lemma PermitStep(t: Tables, own: Places, f: nat, x: nat, h: nat, y: nat)
    requires CanPermit(t, own, f, x)
    ensures |t[f]| == SLOTS && Step(Permit(t, f, x), h, y) == Step(t, h, y)
  {
    hide Present, Huge, Permit, Entry, Tree;
    PermitEntry(t, own, f, x, h, y);
  }

  lemma PermitTree(t: Tables, own: Places, f: nat, x: nat)
    requires CanPermit(t, own, f, x)
    ensures |t[f]| == SLOTS && Tree(Permit(t, f, x), own) && Kept(t, own, Permit(t, f, x), own)
  {
    hide Present, Huge, Permitted, Opens;
    var t' := Permit(t, f, x);
    PermitFlags(t[f][x]);
    forall h, y | h in t' && 0 <= y < |t'[h]| ensures Fits(t', own, own[h], t'[h][y], y) {
      assert Fits(t, own, own[h], t[h][y], y);
    }
    forall h: nat, y: nat
      ensures Step(t', h, y) == Step(t, h, y) && (Opens(Entry(t, h, y)) ==> Opens(Entry(t', h, y)))
    {
      PermitStep(t, own, f, x, h, y);
      PermitEntry(t, own, f, x, h, y);
    }
  }

  lemma PermitView(t: Tables, own: Places, f: nat, x: nat)
    requires CanPermit(t, own, f, x)
    ensures |t[f]| == SLOTS && SameView(t, Permit(t, f, x), own)
  {
    hide Tree, Permit, Entry, Step, Present, Huge;
    TreeBasics(t, own);
    var t' := Permit(t, f, x);
    forall root: nat, p: Page | Walkable(t, own, root, p)
      ensures NoHuge(t', root, p) && Leaf(t', root, p) == Leaf(t, root, p)
    {
      var f3, f2, f1 := Step(t, root, p.i), Dir(t, root, p), LeafTable(t, root, p);
      PermitStep(t, own, f, x, root, p.i);
      PermitStep(t, own, f, x, f3, p.j);
      PermitStep(t, own, f, x, f2, p.k);
      PermitEntry(t, own, f, x, f2, p.k);
      PermitEntry(t, own, f, x, f1, p.l);
      WalkPlaces(t, own, root, p);
    }
  }

  // ------------------------------------------------------------ a leaf entry

  function Store(t: Tables, f: nat, x: nat, e: Pte): Tables
    requires f in t && x < |t[f]|
  {
    t[f := t[f][x := e]]
  }

  predicate CanStore(t: Tables, own: Places, f: nat, x: nat)
  {
    Tree(t, own) && f in t && x < SLOTS && own[f].Level1?
  }

  lemma StoreTree(t: Tables, own: Places, f: nat, x: nat, e: Pte)
    requires CanStore(t, own, f, x)
    ensures |t[f]| == SLOTS && Tree(Store(t, f, x, e), own) && Kept(t, own, Store(t, f, x, e), own)
  {
    hide Present, Huge;
    var t' := Store(t, f, x, e);
    forall h, y | h in t' && 0 <= y < |t'[h]| ensures Fits(t', own, own[h], t'[h][y], y) {
      assert Fits(t, own, own[h], t[h][y], y);
    }
  }

  /** Storing a leaf entry changes exactly the walks that end in its slot. */
  lemma StoreLeaf(t: Tables, own: Places, f: nat, x: nat, e: Pte, root: nat, p: Page)
    requires CanStore(t, own, f, x) && Walkable(t, own, root, p)
    ensures |t[f]| == SLOTS
    ensures var t' := Store(t, f, x, e);
      && NoHuge(t', root, p) && LeafTable(t', root, p) == LeafTable(t, root, p)
      && Leaf(t', root, p) == if LeafTable(t, root, p) == f && p.l == x then e else Leaf(t, root, p)
  {
    hide Present, Huge, Tree, Store, Entry;
    TreeBasics(t, own);
    var t' := Store(t, f, x, e);
    var f3, f2, f1 := Step(t, root, p.i), Dir(t, root, p), LeafTable(t, root, p);
    WalkPlaces(t, own, root, p);
    StoreEntry(t, own, f, x, e, root, p.i);
    StoreEntry(t, own, f, x, e, f3, p.j);
    StoreEntry(t, own, f, x, e, f2, p.k);
    StoreEntry(t, own, f, x, e, f1, p.l);
  }

  lemma StoreEntry(t: Tables, own: Places, f: nat, x: nat, e: Pte, h: nat, y: nat)
    requires CanStore(t, own, f, x)
    ensures |t[f]| == SLOTS
    ensures Entry(Store(t, f, x, e), h, y) == if h == f && y == x then e else Entry(t, h, y)
  {
  }
}
