/** Isolation and sharing of address spaces over whole runs. */
module VmmRuns {
  import opened VmmTables
  import opened VmmSteps
  import opened Vmm
  import opened VmmClone

  /** A map or unmap of one page through one root. */
  datatype Op = Op(root: nat, page: Page, change: Change)

  datatype Change = ToFrame(phys: nat, flags: bv12, nx: bool) | ToNothing

  /** No op of the first n can reach the entry for page q of root r: it is another page, or a page
      of the low half through another root. */
  predicate Untouched(ops: seq<Op>, n: nat, r: nat, q: Page)
    requires n <= |ops|
  {
    forall i :: 0 <= i < n ==> ops[i].page != q || (ops[i].root != r && q.i < FIRST_SHARED)
  }

  /** One map or unmap leaves every untouched page alone. */
  lemma OneOp(t: Tables, own: Places, t': Tables, own': Places, root: nat, p: Page, e: Pte, r: nat, q: Page)
    requires Tree(t', own') && Kept(t, own, t', own') && Replaced(t, t', own, root, p, e)
    requires Walkable(t, own, root, p) && Walkable(t, own, r, q) && (q != p || (r != root && q.i < FIRST_SHARED))
    ensures Walkable(t', own', r, q) && Leaf(t', r, q) == Leaf(t, r, q)
  {
    hide Tree, Leaf, LeafTable, NoHuge, Present, Huge, Step;
    assert NoHuge(t', r, q) && NoHuge(t', root, p);
    if q == p && LeafTable(t', r, q) == LeafTable(t', root, p) {
      SameSlot(t', own', r, q, root, p);
      assert false;
    }
  }

  method Perform(v: Vmm, op: Op)
    requires v.Valid() && Walkable(v.tables, v.own, op.root, op.page)
    modifies v
    ensures v.Valid() && Kept(old(v.tables), old(v.own), v.tables, v.own)
    ensures forall r: nat, q: Page :: Walkable(old(v.tables), old(v.own), r, q) ==>
              && Walkable(v.tables, v.own, r, q)
              && (q != op.page || (r != op.root && q.i < FIRST_SHARED) ==>
                    Leaf(v.tables, r, q) == Leaf(old(v.tables), r, q))
  {
    hide Tree, Leaf, LeafTable, NoHuge, SameView, Kept, Replaced;
    ghost var t0, o0 := v.tables, v.own;
    NothingChanged(t0, o0);
    ghost var ok; ghost var e: Pte;
    match op.change {
      case ToFrame(phys, flags, nx) =>
        ok := v.MapPage(op.root, op.page, phys, flags, nx);
        e := LeafEntry(phys, flags, nx);
      case ToNothing =>
        ok := v.UnmapPage(op.root, op.page);
        e := EMPTY;
    }
    forall r: nat, q: Page | Walkable(t0, o0, r, q)
      ensures && Walkable(v.tables, v.own, r, q)
              && (q != op.page || (r != op.root && q.i < FIRST_SHARED) ==> Leaf(v.tables, r, q) == Leaf(t0, r, q))
    {
      if ok {
        StillWalkable(t0, o0, v.tables, v.own, op.root, op.page, e, r, q);
        if q != op.page || (r != op.root && q.i < FIRST_SHARED) {
          OneOp(t0, o0, v.tables, v.own, op.root, op.page, e, r, q);
        }
      } else {
        ViewAt(t0, v.tables, o0, v.own, r, q);
        SameLeaf(t0, v.tables, o0, r, q);
      }
    }
  }

  lemma StillWalkable(t: Tables, own: Places, t': Tables, own': Places, root: nat, p: Page, e: Pte, r: nat, q: Page)
    requires Kept(t, own, t', own') && Replaced(t, t', own, root, p, e) && Walkable(t, own, r, q)
    ensures Walkable(t', own', r, q)
  {
    assert NoHuge(t', r, q);
  }

  /** Every run of maps and unmaps: untouched pages keep their translation, walkable pages stay
      walkable, and slots shared between two roots stay shared. */
  method Run(v: Vmm, ops: seq<Op>)
    requires v.Valid() && forall i :: 0 <= i < |ops| ==> Walkable(v.tables, v.own, ops[i].root, ops[i].page)
    modifies v
    ensures v.Valid() && Kept(old(v.tables), old(v.own), v.tables, v.own)
    ensures forall r: nat, q: Page :: Walkable(old(v.tables), old(v.own), r, q) ==>
              && Walkable(v.tables, v.own, r, q)
              && (Untouched(ops, |ops|, r, q) ==> Leaf(v.tables, r, q) == Leaf(old(v.tables), r, q))
  {
    hide Tree, Leaf, LeafTable, NoHuge, Kept, Walkable;
    ghost var t0, o0 := v.tables, v.own;
    NothingChanged(t0, o0);
    for n := 0 to |ops|
      invariant v.Valid() && Kept(t0, o0, v.tables, v.own)
      invariant forall r: nat, q: Page :: Walkable(t0, o0, r, q) ==>
                  && Walkable(v.tables, v.own, r, q)
                  && (Untouched(ops, n, r, q) ==> Leaf(v.tables, r, q) == Leaf(t0, r, q))
    {
      ghost var t, o := v.tables, v.own;
      assert Walkable(t0, o0, ops[n].root, ops[n].page);
      Perform(v, ops[n]);
      KeptTrans(t0, o0, t, o, v.tables, v.own);
      forall r: nat, q: Page | Walkable(t0, o0, r, q)
        ensures && Walkable(v.tables, v.own, r, q)
                && (Untouched(ops, n + 1, r, q) ==> Leaf(v.tables, r, q) == Leaf(t0, r, q))
      {
        assert Walkable(t, o, r, q);
        if Untouched(ops, n + 1, r, q) {
          assert Untouched(ops, n, r, q);
          assert ops[n].page != q || (ops[n].root != r && q.i < FIRST_SHARED);
        }
      }
    }
  }

  lemma SharedStays(t: Tables, own: Places, t': Tables, own': Places, r1: nat, r2: nat, i: nat)
    requires Kept(t, own, t', own') && IsRoot(own, r1) && IsRoot(own, r2) && SharedSlot(t, r1, r2, i)
    ensures SharedSlot(t', r1, r2, i)
  {
    KeptAt(t, own, t', own', r1, i);
    KeptAt(t, own, t', own', r2, i);
  }

  /** One step of a run on a clone and its source: through which of the two, and what. */
  datatype Turn = Turn(onClone: bool, page: Page, change: Change)

  function Ops(turns: seq<Turn>, clone: nat, src: nat): (ops: seq<Op>)
    ensures |ops| == |turns|
    ensures forall i :: 0 <= i < |turns| ==>
              ops[i] == Op(if turns[i].onClone then clone else src, turns[i].page, turns[i].change)
  {
    seq(|turns|, i requires 0 <= i < |turns| =>
      Op(if turns[i].onClone then clone else src, turns[i].page, turns[i].change))
  }

  /** No turn on the clone (or on the source) is about page q. */
  predicate Avoided(turns: seq<Turn>, onClone: bool, q: Page)
  {
    forall i :: 0 <= i < |turns| && turns[i].onClone == onClone ==> turns[i].page != q
  }

  /** Clone an address space, then map and unmap at will through the clone and its source. A low
      page reads through either as it did in the source before the clone unless it was changed
      through that very root, and a page under an upper slot present at the clone reads the same
      through both, whatever was mapped there since. */
  method CloneThenRun(v: Vmm, src: nat, turns: seq<Turn>) returns (clone: nat)
    requires v.Valid() && IsRoot(v.own, src)
    requires forall i :: 0 <= i < |turns| ==> Walkable(v.tables, v.own, src, turns[i].page)
    modifies v
    ensures v.Valid() && (clone == 0 ==> v.left == 0)
    ensures clone != 0 ==> forall q: Page :: Walkable(old(v.tables), old(v.own), src, q) && q.i < FIRST_SHARED ==>
              && (Avoided(turns, false, q) ==> Leaf(v.tables, src, q) == Leaf(old(v.tables), src, q))
              && (Avoided(turns, true, q) ==> Leaf(v.tables, clone, q) == Leaf(old(v.tables), src, q))
    ensures clone != 0 ==> forall q: Page ::
              Walkable(old(v.tables), old(v.own), src, q) && q.i >= FIRST_SHARED &&
              Step(old(v.tables), src, q.i) != 0 ==>
                Leaf(v.tables, clone, q) == Leaf(v.tables, src, q)
  {
    hide Tree, Leaf, LeafTable, NoHuge, Kept, SameView, Ops;
    ghost var t0, o0 := v.tables, v.own;
    clone := CloneSound(v, src);
    if clone == 0 { return; }
    ghost var t1, o1 := v.tables, v.own;
    KeptPlace(t0, o0, t1, o1, src);
    forall q: Page | Walkable(t0, o0, src, q) ensures Walkable(t1, o1, src, q) && Walkable(t1, o1, clone, q) {
      ViewAt(t0, t1, o0, o1, src, q);
    }
    Run(v, Ops(turns, clone, src));
    forall q: Page | Walkable(t0, o0, src, q) && q.i < FIRST_SHARED
      ensures && (Avoided(turns, false, q) ==> Leaf(v.tables, src, q) == Leaf(t0, src, q))
              && (Avoided(turns, true, q) ==> Leaf(v.tables, clone, q) == Leaf(t0, src, q))
    {
      SameLeaf(t0, t1, o0, src, q);
      AvoidedUntouched(turns, clone, src, q);
      assert Walkable(t1, o1, src, q) && Walkable(t1, o1, clone, q);
    }
    forall q: Page | Walkable(t0, o0, src, q) && q.i >= FIRST_SHARED && Step(t0, src, q.i) != 0
      ensures Leaf(v.tables, clone, q) == Leaf(v.tables, src, q)
    {
      SharedStays(t1, o1, v.tables, v.own, clone, src, q.i);
      SharedSees(v.tables, clone, src, q);
    }
  }

  lemma AvoidedUntouched(turns: seq<Turn>, clone: nat, src: nat, q: Page)
    requires clone != src && q.i < FIRST_SHARED
    ensures Avoided(turns, false, q) ==> Untouched(Ops(turns, clone, src), |turns|, src, q)
    ensures Avoided(turns, true, q) ==> Untouched(Ops(turns, clone, src), |turns|, clone, q)
  {
  }

  // ------------------------------------------------------------ addresses

  /** Reading back a mapping: the frame and the offset, and bit 63 if execution is disabled, since
      the translation masks only the low 12 bits. */
  lemma MapThenTranslate(t: Tables, root: nat, virt: nat, phys: nat, flags: bv12, nx: bool)
    requires Leaf(t, root, PageOf(virt)) == LeafEntry(phys, flags, nx)
    ensures Translate(t, root, virt) == phys / PAGE * PAGE + virt % PAGE + (if nx then 0x8000_0000_0000_0000 else 0)
  {
    hide Leaf, Present, PageOf;
    EntryFlags(0, phys, flags, nx);
  }

  /** Addresses share a page exactly if they agree in bits 12 to 47. */
  lemma SamePage(a: nat, b: nat)
    ensures PageOf(a) == PageOf(b) <==> a / PAGE % 0x10_0000_0000 == b / PAGE % 0x10_0000_0000
  {
    hide PageOf;
    Digits(a);
    Digits(b);
    var p, q := PageOf(a), PageOf(b);
    LastDigit((p.i * 512 + p.j) * 512 + p.k, p.l, (q.i * 512 + q.j) * 512 + q.k, q.l);
    LastDigit(p.i * 512 + p.j, p.k, q.i * 512 + q.j, q.k);
    LastDigit(p.i, p.j, q.i, q.j);
  }

  lemma LastDigit(x: nat, l: nat, y: nat, m: nat)
    requires l < 512 && m < 512
    ensures x * 512 + l == y * 512 + m <==> x == y && l == m
  {
  }

  lemma Digits(a: nat)
    ensures var p := PageOf(a); a / PAGE % 0x10_0000_0000 == ((p.i * 512 + p.j) * 512 + p.k) * 512 + p.l
  {
    var n := a / PAGE;
    var m := n / 512;
    var o := m / 512;
    var q := o / 512;
    Nested(a, PAGE, 512);
    Nested(a, 0x20_0000, 512);
    Nested(a, 0x4000_0000, 512);
    Regrouped(n, m, o, q);
  }

  lemma Nested(a: nat, b: nat, c: nat)
    requires b > 0 && c > 0
    ensures a / b / c == a / (b * c)
  {
    var q, r := a / b, a % b;
    var s, t := q / c, q % c;
    assert a == b * (c * s + t) + r;
    assert a == (b * c) * s + (b * t + r);
    Below(b, c, t, r);
    Quotient(a, b * c, s, b * t + r);
  }

  lemma Below(b: nat, c: nat, t: nat, r: nat)
    requires t < c && r < b
    ensures b * t + r < b * c
  {
    assert b * t + b <= b * c by {
      assert b * (t + 1) <= b * c;
    }
  }

  lemma Quotient(a: nat, d: nat, q: nat, r: nat)
    requires d > 0 && a == d * q + r && r < d
    ensures a / d == q
  {
    var k := a / d;
    assert d * q <= a < d * (k + 1) && d * k <= a < d * (q + 1);
    LessFactor(d, q, k + 1);
    LessFactor(d, k, q + 1);
  }

  lemma LessFactor(d: nat, x: nat, y: nat)
    requires d * x < d * y
    ensures x < y
  {
  }

  lemma Regrouped(n: nat, m: nat, o: nat, q: nat)
    requires m == n / 512 && o == m / 512 && q == o / 512
    ensures n % 0x10_0000_0000 == ((q % 512 * 512 + o % 512) * 512 + m % 512) * 512 + n % 512
  {
    var r := ((q % 512 * 512 + o % 512) * 512 + m % 512) * 512 + n % 512;
    assert n == 0x10_0000_0000 * (q / 512) + r;
    assert r < 0x10_0000_0000;
  }
}
