/** Four-level page tables as values: entries, walks and the tree they form. */
module VmmTables {
  const SLOTS: nat := 512
  const RECURSIVE: nat := 510
  const FIRST_SHARED: nat := 256
  const PAGE: nat := 4096
  /** Bit 63 of an entry, seen in its address part. */
  const NX: nat := 0x8_0000_0000_0000

  /** A 64-bit entry: everything above the low 12 bits, and those bits. */
  datatype Pte = Pte(addr: nat, flags: bv12)

  const EMPTY := Pte(0, 0)

  predicate Present(e: Pte) { e.flags & 1 == 1 }

  predicate Huge(e: Pte) { e.flags & 0x80 != 0 }

  /** The tables in memory, by frame number. */
  type Tables = map<nat, seq<Pte>>

  function Entry(t: Tables, f: nat, x: nat): Pte
  {
    if f in t && x < |t[f]| then t[f][x] else EMPTY
  }

  /** The frame an entry leads to, 0 if it is not present. */
  function Step(t: Tables, f: nat, x: nat): nat
  {
    var e := Entry(t, f, x);
    if Present(e) then e.addr else 0
  }

  /** A page: its index at each of the four levels. */
  datatype Page = Page(i: nat, j: nat, k: nat, l: nat)

  predicate IsPage(p: Page) { p.i < SLOTS && p.j < SLOTS && p.k < SLOTS && p.l < SLOTS }

  function PageOf(virt: nat): (p: Page)
    ensures IsPage(p)
  {
    Page(virt / 0x80_0000_0000 % SLOTS, virt / 0x4000_0000 % SLOTS, virt / 0x20_0000 % SLOTS, virt / PAGE % SLOTS)
  }

  /** The directory that holds the entry for the leaf table of p. */
  function Dir(t: Tables, root: nat, p: Page): nat { Step(t, Step(t, root, p.i), p.j) }

  function LeafTable(t: Tables, root: nat, p: Page): nat { Step(t, Dir(t, root, p), p.k) }

  /** The entry that maps page p, EMPTY if a table on the way is missing. */
  function Leaf(t: Tables, root: nat, p: Page): Pte { Entry(t, LeafTable(t, root, p), p.l) }

  /** The physical address behind a virtual one, 0 if it is not mapped. */
  function Translate(t: Tables, root: nat, virt: nat): nat
  {
    var e := Leaf(t, root, PageOf(virt));
    if Present(e) then e.addr * PAGE + virt % PAGE else 0
  }

  /** The bits present, writable and user of an entry. */
  const PRESENT: bv12 := 1
  const WRITE: bv12 := 2
  const USER: bv12 := 4

  /** The processor grants an access that needs the bits `need` only if every entry on the way to p
      has them all: PRESENT | USER for user code to read, and WRITE for it to write. */
  predicate Grants(t: Tables, root: nat, p: Page, need: bv12)
  {
    && Has(Entry(t, root, p.i), need) && Has(Entry(t, Step(t, root, p.i), p.j), need)
    && Has(Entry(t, Dir(t, root, p), p.k), need) && Has(Leaf(t, root, p), need)
  }

  predicate Has(e: Pte, need: bv12) { e.flags & need == need }

  predicate UserReads(t: Tables, root: nat, p: Page) { Grants(t, root, p, PRESENT | USER) }

  predicate UserWrites(t: Tables, root: nat, p: Page) { Grants(t, root, p, PRESENT | WRITE | USER) }

  /** No 2 MB page stands where the walk of p expects a leaf table. */
  predicate NoHuge(t: Tables, root: nat, p: Page) { !Huge(Entry(t, Dir(t, root, p), p.k)) }

  // ------------------------------------------------------------ the tree

  /** The place of a table: below which root and under which indices. Tables below shared slots
      belong to space 0. */
  datatype Node =
    | Root(root: nat)
    | Level3(space: nat, i: nat)
    | Level2(space: nat, i: nat, j: nat)
    | Level1(space: nat, i: nat, j: nat, k: nat)

  function Child(n: Node, x: nat): Node
    requires !n.Level1?
  {
    match n
    case Root(r) => Level3(if x < FIRST_SHARED then r else 0, x)
    case Level3(s, i) => Level2(s, i, x)
    case Level2(s, i, j) => Level1(s, i, j, x)
  }

  /** Entry e at index x of a table with place n leads to another table. */
  predicate Leads(n: Node, e: Pte, x: nat)
  {
    !n.Level1? && Present(e) && !(n.Root? && x == RECURSIVE) && !(n.Level2? && Huge(e))
  }

  type Places = map<nat, Node>

  predicate Fits(t: Tables, own: Places, n: Node, e: Pte, x: nat)
  {
    Leads(n, e, x) ==> e.addr in t && e.addr in own && own[e.addr] == Child(n, x)
  }

  /** Every table has one place, and every entry leads to a table whose place is the one below. */
  predicate Tree(t: Tables, own: Places)
  {
    && 0 !in t && t.Keys == own.Keys
    && (forall f :: f in t ==> |t[f]| == SLOTS && (own[f].Root? ==> own[f].root == f))
    && (forall f, x :: f in t && 0 <= x < |t[f]| ==> Fits(t, own, own[f], t[f][x], x))
  }

  predicate IsRoot(own: Places, root: nat) { root in own && own[root] == Root(root) }

  function Space(root: nat, i: nat): nat { if i < FIRST_SHARED then root else 0 }

  lemma StepFits(t: Tables, own: Places, f: nat, x: nat)
    requires Tree(t, own) && f in t && x < SLOTS && Leads(own[f], Entry(t, f, x), x)
    ensures Step(t, f, x) in t && own[Step(t, f, x)] == Child(own[f], x)
  {
    assert Fits(t, own, own[f], t[f][x], x);
  }

  lemma NoTable(t: Tables, x: nat)
    requires 0 !in t
    ensures Entry(t, 0, x) == EMPTY && Step(t, 0, x) == 0 && !Huge(EMPTY) && !Present(EMPTY)
  {
  }

  /** The places of the tables a walk visits. */
  lemma WalkPlaces(t: Tables, own: Places, root: nat, p: Page)
    requires Tree(t, own) && IsRoot(own, root) && IsPage(p) && p.i != RECURSIVE
    ensures var s, f3, f2 := Space(root, p.i), Step(t, root, p.i), Dir(t, root, p);
      && (f3 == 0 || (f3 in t && own[f3] == Level3(s, p.i)))
      && (f2 == 0 || (f2 in t && own[f2] == Level2(s, p.i, p.j)))
      && (NoHuge(t, root, p) ==>
            var f1 := LeafTable(t, root, p); f1 == 0 || (f1 in t && own[f1] == Level1(s, p.i, p.j, p.k)))
  {
    hide Present, Huge, Tree;
    TreeBasics(t, own);
    var f3, f2 := Step(t, root, p.i), Dir(t, root, p);
    if f3 != 0 { StepFits(t, own, root, p.i); } else { NoTable(t, p.j); }
    if f2 != 0 { StepFits(t, own, f3, p.j); } else { NoTable(t, p.k); }
    if NoHuge(t, root, p) && LeafTable(t, root, p) != 0 { StepFits(t, own, f2, p.k); }
  }

  lemma TreeBasics(t: Tables, own: Places)
    requires Tree(t, own)
    ensures 0 !in t && t.Keys == own.Keys && forall f :: f in t ==> |t[f]| == SLOTS
  {
  }

  /** Two walks end in the same slot only for the same page, and below the shared slots only from
      the same root. */
  lemma SameSlot(t: Tables, own: Places, r1: nat, p1: Page, r2: nat, p2: Page)
    requires Tree(t, own) && IsRoot(own, r1) && IsRoot(own, r2) && IsPage(p1) && IsPage(p2)
    requires p1.i != RECURSIVE && p2.i != RECURSIVE && NoHuge(t, r1, p1) && NoHuge(t, r2, p2)
    requires LeafTable(t, r1, p1) == LeafTable(t, r2, p2) != 0 && p1.l == p2.l
    ensures p1 == p2 && (p1.i < FIRST_SHARED ==> r1 == r2)
  {
    hide Tree, NoHuge, LeafTable, Dir, Step;
    TreeBasics(t, own);
    WalkPlaces(t, own, r1, p1);
    WalkPlaces(t, own, r2, p2);
  }
}
