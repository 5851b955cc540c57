/** The deep copy of an address space. */
module VmmClone {
  import opened VmmTables
  import opened VmmSteps
  import opened Vmm

  /** Every table is still there with the same contents and place. */
  ghost predicate Extends(t: Tables, own: Places, t': Tables, own': Places)
  {
    && (forall f :: f in t ==> f in t' && t'[f] == t[f])
    && (forall f :: f in own ==> f in own' && own'[f] == own[f])
  }

  /** A new table whose entries fit its place. */
  lemma AddTable(t: Tables, own: Places, g: nat, s: seq<Pte>, n: Node)
    requires Tree(t, own) && g != 0 && g !in t && |s| == SLOTS && (n.Root? ==> n.root == g)
    requires forall x :: 0 <= x < SLOTS ==> Fits(t, own, n, s[x], x)
    ensures Tree(t[g := s], own[g := n]) && Extends(t, own, t[g := s], own[g := n])
  {
    hide Present, Huge, Leads;
    var t', own' := t[g := s], own[g := n];
    forall f, x | f in t' && 0 <= x < |t'[f]| ensures Fits(t', own', own'[f], t'[f][x], x) {
      if f != g { assert Fits(t, own, own[f], t[f][x], x); } else { assert Fits(t, own, n, s[x], x); }
    }
  }

  lemma FitsOn(t: Tables, own: Places, t': Tables, own': Places, n: Node, e: Pte, x: nat)
    requires Extends(t, own, t', own') && Fits(t, own, n, e, x)
    ensures Fits(t', own', n, e, x)
  {
  }

  lemma ExtendsTrans(t0: Tables, o0: Places, t1: Tables, o1: Places, t2: Tables, o2: Places)
    requires Extends(t0, o0, t1, o1) && Extends(t1, o1, t2, o2)
    ensures Extends(t0, o0, t2, o2)
  {
  }

  lemma ExtendsSame(t: Tables, own: Places)
    ensures Extends(t, own, t, own)
  {
  }

  // ------------------------------------------------------------ what a copy is

  /** Entry e' of a copied page directory for entry e of its source. */
  predicate Copied2(t: Tables, e: Pte, e': Pte)
  {
    if !Present(e) then e' == EMPTY
    else if Huge(e) then e' == e
    else e'.flags == e.flags && e.addr in t && e'.addr in t && t[e'.addr] == t[e.addr]
  }

  predicate Copy2(t: Tables, src: nat, dst: nat)
  {
    && src in t && dst in t && |t[src]| == |t[dst]| == SLOTS
    && forall k :: 0 <= k < SLOTS ==> Copied2(t, t[src][k], t[dst][k])
  }

  predicate Copied3(t: Tables, e: Pte, e': Pte)
  {
    if !Present(e) then e' == EMPTY else e'.flags == e.flags && Copy2(t, e.addr, e'.addr)
  }

  predicate Copy3(t: Tables, src: nat, dst: nat)
  {
    && src in t && dst in t && |t[src]| == |t[dst]| == SLOTS
    && forall j :: 0 <= j < SLOTS ==> Copied3(t, t[src][j], t[dst][j])
  }

  predicate Copied4(t: Tables, e: Pte, e': Pte, i: nat)
  {
    if !Present(e) then e' == EMPTY
    else if i >= FIRST_SHARED then e' == e
    else e'.flags == e.flags && Copy3(t, e.addr, e'.addr)
  }

  predicate Copy4(t: Tables, src: nat, dst: nat)
  {
    && src in t && dst in t && |t[src]| == |t[dst]| == SLOTS
    && forall i :: 0 <= i < SLOTS && i != RECURSIVE ==> Copied4(t, t[src][i], t[dst][i], i)
  }

  lemma Copied2On(t: Tables, o: Places, t': Tables, o': Places, e: Pte, e': Pte)
    requires Extends(t, o, t', o') && Copied2(t, e, e')
    ensures Copied2(t', e, e')
  {
  }

  lemma Copy2On(t: Tables, o: Places, t': Tables, o': Places, src: nat, dst: nat)
    requires Extends(t, o, t', o') && Copy2(t, src, dst)
    ensures Copy2(t', src, dst)
  {
    hide Copied2;
    forall k | 0 <= k < SLOTS ensures Copied2(t', t'[src][k], t'[dst][k]) {
      Copied2On(t, o, t', o', t[src][k], t[dst][k]);
    }
  }

  lemma Copied3On(t: Tables, o: Places, t': Tables, o': Places, e: Pte, e': Pte)
    requires Extends(t, o, t', o') && Copied3(t, e, e')
    ensures Copied3(t', e, e')
  {
    hide Copy2;
    if Present(e) { Copy2On(t, o, t', o', e.addr, e'.addr); }
  }

  lemma Copy3On(t: Tables, o: Places, t': Tables, o': Places, src: nat, dst: nat)
    requires Extends(t, o, t', o') && Copy3(t, src, dst)
    ensures Copy3(t', src, dst)
  {
    hide Copied3;
    forall k | 0 <= k < SLOTS ensures Copied3(t', t'[src][k], t'[dst][k]) {
      Copied3On(t, o, t', o', t[src][k], t[dst][k]);
    }
  }

  lemma Copied4On(t: Tables, o: Places, t': Tables, o': Places, e: Pte, e': Pte, i: nat)
    requires Extends(t, o, t', o') && Copied4(t, e, e', i)
    ensures Copied4(t', e, e', i)
  {
    hide Copy3;
    if Present(e) && i < FIRST_SHARED { Copy3On(t, o, t', o', e.addr, e'.addr); }
  }

  /** A copy translates as its source does, outside the recursive slot and 2 MB pages. */
  lemma CopyTranslates(t: Tables, own: Places, src: nat, dst: nat, p: Page)
    requires Tree(t, own) && Copy4(t, src, dst) && Walkable(t, own, src, p)
    ensures NoHuge(t, dst, p) && Leaf(t, dst, p) == Leaf(t, src, p)
    ensures UserReads(t, dst, p) == UserReads(t, src, p) && UserWrites(t, dst, p) == UserWrites(t, src, p)
  {
    hide Present, Huge, Tree;
    TreeBasics(t, own);
    WalkPlaces(t, own, src, p);
    NothingGranted(t[src][p.i]);
    NoTable(t, p.j);
    NoTable(t, p.k);
    NoTable(t, p.l);
    assert Copied4(t, t[src][p.i], t[dst][p.i], p.i);
    SameFlags(t[src][p.i], t[dst][p.i]);
    if Step(t, src, p.i) != 0 && p.i < FIRST_SHARED {
      var f3, g3 := Step(t, src, p.i), Step(t, dst, p.i);
      assert Copied3(t, t[f3][p.j], t[g3][p.j]);
      SameFlags(t[f3][p.j], t[g3][p.j]);
      if Step(t, f3, p.j) != 0 {
        var f2, g2 := Step(t, f3, p.j), Step(t, g3, p.j);
        assert Copied2(t, t[f2][p.k], t[g2][p.k]);
        SameFlags(t[f2][p.k], t[g2][p.k]);
      }
    }
  }

  /** An entry that is not present grants nothing. */
  lemma NothingGranted(e: Pte)
    ensures !Present(e) ==> e.flags & 5 != 5 && e.flags & 7 != 7
    ensures !Present(EMPTY) && EMPTY.flags & 5 != 5 && EMPTY.flags & 7 != 7
  {
  }

  lemma SameFlags(e: Pte, e': Pte)
    ensures e'.flags == e.flags ==> Present(e') == Present(e) && Huge(e') == Huge(e)
  {
  }

  // ------------------------------------------------------------ copying

  /** A copy of the leaf table src. */
  method CopyPt(v: Vmm, src: nat, ghost n: Node) returns (pt: nat)
    requires v.Valid() && src in v.tables && n.Level1?
    modifies v
    ensures v.Valid() && Extends(old(v.tables), old(v.own), v.tables, v.own) && old(v.frames) <= v.frames
    ensures OnlyFresh(old(v.tables), old(v.frames), v.tables)
    ensures v.left <= old(v.left) && (pt == 0 ==> v.left == 0)
    ensures pt != 0 ==> pt in v.tables && v.tables[pt] == v.tables[src] && v.own[pt] == n
  {
    hide Present, Huge, Tree;
    TreeBasics(v.tables, v.own);
    pt := v.AllocTable();
    if pt == 0 { return; }
    var s, m := [], 0;
    while m < SLOTS
      invariant 0 <= m <= SLOTS && s == v.tables[src][..m]
      invariant v.tables == old(v.tables) && v.own == old(v.own)
    {
      s := s + [v.tables[src][m]];
      m := m + 1;
    }
    AddTable(v.tables, v.own, pt, s, n);
    v.tables := v.tables[pt := s];
    v.own := v.own[pt := n];
  }

  /** A copy of the page directory src and of the leaf tables below it. */
  method CopyPd(v: Vmm, src: nat, ghost n: Node) returns (pd: nat)
    requires v.Valid() && src in v.tables && v.own[src].Level2? && n.Level2?
    modifies v
    ensures v.Valid() && Extends(old(v.tables), old(v.own), v.tables, v.own) && old(v.frames) <= v.frames
    ensures OnlyFresh(old(v.tables), old(v.frames), v.tables)
    ensures v.left <= old(v.left) && (pd == 0 ==> v.left == 0)
    ensures pd != 0 ==> Copy2(v.tables, src, pd) && pd in v.own && v.own[pd] == n
  {
    hide Present, Huge, Tree, Extends, Copied2, Fits, Leads;
    ghost var t0, o0 := v.tables, v.own;
    TreeBasics(t0, o0);
    ExtendsSame(t0, o0);
    NothingFits(t0, o0, n);
    pd := v.AllocTable();
    if pd == 0 { return; }
    var s, k := Blank(), 0;
    while k < SLOTS
      invariant 0 <= k <= SLOTS && |s| == SLOTS && v.Valid() && pd in v.frames && pd !in v.tables
      invariant old(v.frames) <= v.frames && v.left <= old(v.left)
      invariant Extends(t0, o0, v.tables, v.own) && OnlyFresh(t0, old(v.frames), v.tables)
      invariant forall x :: 0 <= x < k ==> Copied2(v.tables, t0[src][x], s[x])
      invariant forall x :: k <= x < SLOTS ==> s[x] == EMPTY
      invariant forall x :: 0 <= x < SLOTS ==> Fits(v.tables, v.own, n, s[x], x)
    {
      ghost var t, o := v.tables, v.own;
      StillThere(t0, o0, t, o, src);
      var e := v.tables[src][k];
      EntryKinds(t, o, src, n, k);
      if Present(e) {
        if Huge(e) {
          s := s[k := e];
        } else {
          var pt := CopyPt(v, e.addr, Child(n, k));
          ExtendsTrans(t0, o0, t, o, v.tables, v.own);
          if pt == 0 { return 0; }
          TreeBasics(v.tables, v.own);
          CarryOver2(t, o, v.tables, v.own, n, t0[src], s, k);
          NewEntry2(t, o, v.tables, v.own, n, e, pt, k);
          s := s[k := Pte(pt, e.flags)];
        }
      }
      k := k + 1;
    }
    Finish2(t0, o0, v.tables, v.own, src, pd, s, n);
    v.tables := v.tables[pd := s];
    v.own := v.own[pd := n];
  }

  lemma NothingFits(t: Tables, own: Places, n: Node)
    ensures forall x: nat :: Fits(t, own, n, EMPTY, x)
  {
    assert !Present(EMPTY);
  }

  lemma StillThere(t0: Tables, o0: Places, t: Tables, o: Places, f: nat)
    requires Extends(t0, o0, t, o)
    ensures f in t0 ==> f in t && t[f] == t0[f]
    ensures f in o0 ==> f in o && o[f] == o0[f]
  {
  }

  /** What the three kinds of directory entry need. */
  lemma EntryKinds(t: Tables, o: Places, src: nat, n: Node, k: nat)
    requires Tree(t, o) && src in t && o[src].Level2? && n.Level2? && k < SLOTS
    ensures |t[src]| == SLOTS
    ensures var e := t[src][k];
      && (!Present(e) ==> Copied2(t, e, EMPTY))
      && (Present(e) && Huge(e) ==> Copied2(t, e, e) && Fits(t, o, n, e, k))
      && (Present(e) && !Huge(e) ==> e.addr in t && o[e.addr].Level1?)
  {
    assert Fits(t, o, o[src], t[src][k], k);
  }

  lemma CarryOver2(t: Tables, o: Places, t': Tables, o': Places, n: Node, src: seq<Pte>, s: seq<Pte>, k: nat)
    requires Extends(t, o, t', o') && k <= |src| && |s| == SLOTS && k <= SLOTS
    requires forall x :: 0 <= x < k ==> Copied2(t, src[x], s[x])
    requires forall x :: 0 <= x < SLOTS ==> Fits(t, o, n, s[x], x)
    ensures forall x :: 0 <= x < k ==> Copied2(t', src[x], s[x])
    ensures forall x :: 0 <= x < SLOTS ==> Fits(t', o', n, s[x], x)
  {
    hide Copied2, Fits;
    forall x | 0 <= x < k ensures Copied2(t', src[x], s[x]) { Copied2On(t, o, t', o', src[x], s[x]); }
    forall x | 0 <= x < SLOTS ensures Fits(t', o', n, s[x], x) { FitsOn(t, o, t', o', n, s[x], x); }
  }

  lemma NewEntry2(t: Tables, o: Places, t': Tables, o': Places, n: Node, e: Pte, pt: nat, k: nat)
    requires Extends(t, o, t', o') && n.Level2? && Present(e) && !Huge(e) && e.addr in t
    requires pt in t' && pt in o' && t'[pt] == t'[e.addr] && o'[pt] == Child(n, k)
    ensures Copied2(t', e, Pte(pt, e.flags)) && Fits(t', o', n, Pte(pt, e.flags), k)
  {
  }

  lemma Finish2(t0: Tables, o0: Places, t: Tables, o: Places, src: nat, pd: nat, s: seq<Pte>, n: Node)
    requires Tree(t0, o0) && Tree(t, o) && Extends(t0, o0, t, o) && src in t0 && pd != 0 && pd !in t && n.Level2?
    requires |s| == SLOTS
    requires |t0[src]| == SLOTS && forall x :: 0 <= x < SLOTS ==> Copied2(t, t0[src][x], s[x])
    requires forall x :: 0 <= x < SLOTS ==> Fits(t, o, n, s[x], x)
    ensures Tree(t[pd := s], o[pd := n]) && Extends(t0, o0, t[pd := s], o[pd := n]) && Copy2(t[pd := s], src, pd)
  {
    hide Tree, Copied2, Fits;
    AddTable(t, o, pd, s, n);
    forall x | 0 <= x < SLOTS ensures Copied2(t[pd := s], t0[src][x], s[x]) {
      Copied2On(t, o, t[pd := s], o[pd := n], t0[src][x], s[x]);
    }
  }

  /** A copy of the third-level table src and of everything below it. */
  method CopyPdpt(v: Vmm, src: nat, ghost n: Node) returns (pdpt: nat)
    requires v.Valid() && src in v.tables && v.own[src].Level3? && n.Level3?
    modifies v
    ensures v.Valid() && Extends(old(v.tables), old(v.own), v.tables, v.own) && old(v.frames) <= v.frames
    ensures OnlyFresh(old(v.tables), old(v.frames), v.tables)
    ensures v.left <= old(v.left) && (pdpt == 0 ==> v.left == 0)
    ensures pdpt != 0 ==> Copy3(v.tables, src, pdpt) && pdpt in v.own && v.own[pdpt] == n
  {
    hide Present, Huge, Tree, Extends, Copied3, Fits, Leads, Copy2;
    ghost var t0, o0 := v.tables, v.own;
    TreeBasics(t0, o0);
    ExtendsSame(t0, o0);
    NothingFits(t0, o0, n);
    pdpt := v.AllocTable();
    if pdpt == 0 { return; }
    var s, j := Blank(), 0;
    while j < SLOTS
      invariant 0 <= j <= SLOTS && |s| == SLOTS && v.Valid() && pdpt in v.frames && pdpt !in v.tables
      invariant old(v.frames) <= v.frames && v.left <= old(v.left)
      invariant Extends(t0, o0, v.tables, v.own) && OnlyFresh(t0, old(v.frames), v.tables)
      invariant forall x :: 0 <= x < j ==> Copied3(v.tables, t0[src][x], s[x])
      invariant forall x :: j <= x < SLOTS ==> s[x] == EMPTY
      invariant forall x :: 0 <= x < SLOTS ==> Fits(v.tables, v.own, n, s[x], x)
    {
      ghost var t, o := v.tables, v.own;
      StillThere(t0, o0, t, o, src);
      var e := v.tables[src][j];
      EntryKinds3(t, o, src, j);
      if Present(e) {
        var pd := CopyPd(v, e.addr, Child(n, j));
        ExtendsTrans(t0, o0, t, o, v.tables, v.own);
        if pd == 0 { return 0; }
        TreeBasics(v.tables, v.own);
        CarryOver3(t, o, v.tables, v.own, n, t0[src], s, j);
        NewEntry3(v.tables, v.own, n, e, pd, j);
        s := s[j := Pte(pd, e.flags)];
      }
      j := j + 1;
    }
    Finish3(t0, o0, v.tables, v.own, src, pdpt, s, n);
    v.tables := v.tables[pdpt := s];
    v.own := v.own[pdpt := n];
  }

  lemma EntryKinds3(t: Tables, o: Places, src: nat, j: nat)
    requires Tree(t, o) && src in t && o[src].Level3? && j < SLOTS
    ensures |t[src]| == SLOTS
    ensures var e := t[src][j];
      && (!Present(e) ==> Copied3(t, e, EMPTY))
      && (Present(e) ==> e.addr in t && o[e.addr].Level2?)
  {
    assert Fits(t, o, o[src], t[src][j], j);
  }

  lemma CarryOver3(t: Tables, o: Places, t': Tables, o': Places, n: Node, src: seq<Pte>, s: seq<Pte>, k: nat)
    requires Extends(t, o, t', o') && k <= |src| && |s| == SLOTS && k <= SLOTS
    requires forall x :: 0 <= x < k ==> Copied3(t, src[x], s[x])
    requires forall x :: 0 <= x < SLOTS ==> Fits(t, o, n, s[x], x)
    ensures forall x :: 0 <= x < k ==> Copied3(t', src[x], s[x])
    ensures forall x :: 0 <= x < SLOTS ==> Fits(t', o', n, s[x], x)
  {
    hide Copied3, Fits;
    forall x | 0 <= x < k ensures Copied3(t', src[x], s[x]) { Copied3On(t, o, t', o', src[x], s[x]); }
    forall x | 0 <= x < SLOTS ensures Fits(t', o', n, s[x], x) { FitsOn(t, o, t', o', n, s[x], x); }
  }

  lemma NewEntry3(t: Tables, o: Places, n: Node, e: Pte, pd: nat, j: nat)
    requires n.Level3? && Present(e) && Copy2(t, e.addr, pd) && pd in o && o[pd] == Child(n, j)
    ensures Copied3(t, e, Pte(pd, e.flags)) && Fits(t, o, n, Pte(pd, e.flags), j)
  {
  }

  lemma Finish3(t0: Tables, o0: Places, t: Tables, o: Places, src: nat, g: nat, s: seq<Pte>, n: Node)
    requires Tree(t, o) && Extends(t0, o0, t, o) && src in t0 && g != 0 && g !in t && n.Level3? && |s| == SLOTS
    requires |t0[src]| == SLOTS && forall x :: 0 <= x < SLOTS ==> Copied3(t, t0[src][x], s[x])
    requires forall x :: 0 <= x < SLOTS ==> Fits(t, o, n, s[x], x)
    ensures Tree(t[g := s], o[g := n]) && Extends(t0, o0, t[g := s], o[g := n]) && Copy3(t[g := s], src, g)
  {
    hide Tree, Copied3, Fits;
    AddTable(t, o, g, s, n);
    forall x | 0 <= x < SLOTS ensures Copied3(t[g := s], t0[src][x], s[x]) {
      Copied3On(t, o, t[g := s], o[g := n], t0[src][x], s[x]);
    }
  }

  /** vmm_clone_page_table. Whatever happens no existing table changes; on success the clone is a
      new root, its low half a copy in tables of its own, its high half shared. A copy is stored
      when it is complete: until then nothing in memory refers to it. */
  method Clone(v: Vmm, src: nat) returns (root: nat)
    requires v.Valid() && IsRoot(v.own, src)
    modifies v
    ensures v.Valid() && Extends(old(v.tables), old(v.own), v.tables, v.own) && old(v.frames) <= v.frames
    ensures OnlyFresh(old(v.tables), old(v.frames), v.tables)
    ensures v.left <= old(v.left) && (root == 0 ==> v.left == 0)
    ensures root != 0 ==> root !in old(v.frames) && IsRoot(v.own, root) && Copy4(v.tables, src, root)
    ensures root != 0 ==> Step(v.tables, root, RECURSIVE) == root && Entry(v.tables, root, RECURSIVE).flags & USER == 0
  {
    hide Present, Huge, Tree, Extends, Copied4, Fits, Leads, Copy3;
    ghost var t0, o0 := v.tables, v.own;
    TreeBasics(t0, o0);
    ExtendsSame(t0, o0);
    root := v.AllocTable();
    if root == 0 { return; }
    ghost var n := Root(root);
    NothingFits(t0, o0, n);
    var s, i := Blank(), 0;
    while i < SLOTS
      invariant 0 <= i <= SLOTS && |s| == SLOTS && v.Valid() && root in v.frames && root !in v.tables
      invariant old(v.frames) <= v.frames && v.left <= old(v.left)
      invariant Extends(t0, o0, v.tables, v.own) && OnlyFresh(t0, old(v.frames), v.tables)
      invariant forall x :: 0 <= x < i && x != RECURSIVE ==> Copied4(v.tables, t0[src][x], s[x], x)
      invariant forall x :: i <= x < SLOTS ==> s[x] == EMPTY
      invariant forall x :: 0 <= x < SLOTS ==> Fits(v.tables, v.own, n, s[x], x)
    {
      ghost var t, o := v.tables, v.own;
      StillThere(t0, o0, t, o, src);
      var e := v.tables[src][i];
      EntryKinds4(t, o, src, root, i);
      if i != RECURSIVE && Present(e) {
        if i >= FIRST_SHARED {
          s := s[i := e];
        } else {
          var pdpt := CopyPdpt(v, e.addr, Child(n, i));
          ExtendsTrans(t0, o0, t, o, v.tables, v.own);
          if pdpt == 0 { return 0; }
          TreeBasics(v.tables, v.own);
          CarryOver4(t, o, v.tables, v.own, n, t0[src], s, i);
          NewEntry4(v.tables, v.own, n, e, pdpt, i);
          s := s[i := Pte(pdpt, e.flags)];
        }
      }
      i := i + 1;
    }
    s := s[RECURSIVE := Pte(root, 3)];
    RecursiveFits(v.tables, v.own, n, s[RECURSIVE]);
    Finish4(t0, o0, v.tables, v.own, src, root, s);
    v.tables := v.tables[root := s];
    v.own := v.own[root := n];
  }

  lemma EntryKinds4(t: Tables, o: Places, src: nat, root: nat, i: nat)
    requires Tree(t, o) && src in t && o[src] == Root(src) && i < SLOTS
    ensures |t[src]| == SLOTS
    ensures var e := t[src][i];
      && (!Present(e) ==> Copied4(t, e, EMPTY, i))
      && (Present(e) && i != RECURSIVE && i >= FIRST_SHARED ==> Copied4(t, e, e, i) && Fits(t, o, Root(root), e, i))
      && (Present(e) && i < FIRST_SHARED ==> e.addr in t && o[e.addr].Level3?)
  {
    assert Fits(t, o, o[src], t[src][i], i);
  }

  lemma RecursiveFits(t: Tables, o: Places, n: Node, e: Pte)
    requires n.Root?
    ensures Fits(t, o, n, e, RECURSIVE)
    ensures Present(Pte(n.root, 3)) && Pte(n.root, 3).flags & USER == 0
  {
  }

  lemma CarryOver4(t: Tables, o: Places, t': Tables, o': Places, n: Node, src: seq<Pte>, s: seq<Pte>, k: nat)
    requires Extends(t, o, t', o') && k <= |src| && |s| == SLOTS && k <= SLOTS
    requires forall x :: 0 <= x < k && x != RECURSIVE ==> Copied4(t, src[x], s[x], x)
    requires forall x :: 0 <= x < SLOTS ==> Fits(t, o, n, s[x], x)
    ensures forall x :: 0 <= x < k && x != RECURSIVE ==> Copied4(t', src[x], s[x], x)
    ensures forall x :: 0 <= x < SLOTS ==> Fits(t', o', n, s[x], x)
  {
    hide Copied4, Fits;
    forall x | 0 <= x < k && x != RECURSIVE
      ensures Copied4(t', src[x], s[x], x)
    {
      Copied4On(t, o, t', o', src[x], s[x], x);
    }
    forall x | 0 <= x < SLOTS ensures Fits(t', o', n, s[x], x) { FitsOn(t, o, t', o', n, s[x], x); }
  }

  lemma NewEntry4(t: Tables, o: Places, n: Node, e: Pte, pdpt: nat, i: nat)
    requires n.Root? && Present(e) && i < FIRST_SHARED && Copy3(t, e.addr, pdpt) && pdpt in o && o[pdpt] == Child(n, i)
    ensures Copied4(t, e, Pte(pdpt, e.flags), i) && Fits(t, o, n, Pte(pdpt, e.flags), i)
  {
  }

  lemma Finish4(t0: Tables, o0: Places, t: Tables, o: Places, src: nat, g: nat, s: seq<Pte>)
    requires Tree(t, o) && Extends(t0, o0, t, o) && src in t0 && g != 0 && g !in t && |s| == SLOTS
    requires |t0[src]| == SLOTS && forall x :: 0 <= x < SLOTS && x != RECURSIVE ==> Copied4(t, t0[src][x], s[x], x)
    requires forall x :: 0 <= x < SLOTS ==> Fits(t, o, Root(g), s[x], x)
    ensures Tree(t[g := s], o[g := Root(g)]) && Extends(t0, o0, t[g := s], o[g := Root(g)]) && Copy4(t[g := s], src, g)
  {
    hide Tree, Copied4, Fits;
    AddTable(t, o, g, s, Root(g));
    forall x | 0 <= x < SLOTS && x != RECURSIVE ensures Copied4(t[g := s], t0[src][x], s[x], x) {
      Copied4On(t, o, t[g := s], o[g := Root(g)], t0[src][x], s[x], x);
    }
  }

  // ------------------------------------------------------------ isolation and sharing

  /** Both roots lead to the same table under slot i. */
  predicate SharedSlot(t: Tables, r1: nat, r2: nat, i: nat) { Step(t, r1, i) == Step(t, r2, i) != 0 }

  /** Existing walks are not touched by a clone. */
  lemma ExtendsView(t: Tables, own: Places, t': Tables, own': Places)
    requires Tree(t, own) && 0 !in t' && Extends(t, own, t', own')
    ensures SameView(t, t', own) && Kept(t, own, t', own')
  {
    hide Present, Huge, Tree;
    TreeBasics(t, own);
    forall f: nat, x: nat | f in t || f == 0 ensures Entry(t', f, x) == Entry(t, f, x) { }
    forall root: nat, p: Page | Walkable(t, own, root, p)
      ensures NoHuge(t', root, p) && Leaf(t', root, p) == Leaf(t, root, p)
    {
      WalkPlaces(t, own, root, p);
    }
  }

  lemma ExtendsGrants(t: Tables, own: Places, t': Tables, own': Places, root: nat, p: Page, need: bv12)
    requires Tree(t, own) && 0 !in t' && Extends(t, own, t', own') && Walkable(t, own, root, p)
    ensures Grants(t', root, p, need) == Grants(t, root, p, need)
  {
    hide Present, Huge, Tree, Step, Entry, Extends, Has;
    TreeBasics(t, own);
    WalkPlaces(t, own, root, p);
    ExtendsEntry(t, own, t', own', root, p.i);
    ExtendsEntry(t, own, t', own', Step(t, root, p.i), p.j);
    ExtendsEntry(t, own, t', own', Dir(t, root, p), p.k);
    ExtendsEntry(t, own, t', own', LeafTable(t, root, p), p.l);
  }

  lemma ExtendsEntry(t: Tables, own: Places, t': Tables, own': Places, f: nat, x: nat)
    requires Extends(t, own, t', own') && 0 !in t' && 0 !in t && (f in t || f == 0)
    ensures Entry(t', f, x) == Entry(t, f, x) && Step(t', f, x) == Step(t, f, x)
  {
  }

  /** Below a shared slot both roots see the same pages. */
  lemma SharedSees(t: Tables, r1: nat, r2: nat, p: Page)
    requires SharedSlot(t, r1, r2, p.i)
    ensures Leaf(t, r1, p) == Leaf(t, r2, p) && LeafTable(t, r1, p) == LeafTable(t, r2, p)
  {
  }

  /** A successful clone translates every address as its source does, its source and all others
      translate as before, and it shares every upper slot present in its source. */
  method CloneSound(v: Vmm, src: nat) returns (root: nat)
    requires v.Valid() && IsRoot(v.own, src)
    modifies v
    ensures v.Valid() && SameView(old(v.tables), v.tables, old(v.own))
    ensures Kept(old(v.tables), old(v.own), v.tables, v.own)
    ensures v.left <= old(v.left) && (root == 0 ==> v.left == 0)
    ensures root != 0 ==> IsRoot(v.own, root) && root !in old(v.own)
    ensures root != 0 ==> forall p: Page :: Walkable(old(v.tables), old(v.own), src, p) ==>
              && NoHuge(v.tables, root, p) && Leaf(v.tables, root, p) == Leaf(old(v.tables), src, p)
              && UserReads(v.tables, root, p) == UserReads(old(v.tables), src, p)
              && UserWrites(v.tables, root, p) == UserWrites(old(v.tables), src, p)
    ensures root != 0 ==> Step(v.tables, root, RECURSIVE) == root && Entry(v.tables, root, RECURSIVE).flags & USER == 0
    ensures root != 0 ==>
              forall i :: FIRST_SHARED <= i < SLOTS && i != RECURSIVE && Step(old(v.tables), src, i) != 0 ==>
              SharedSlot(v.tables, root, src, i)
  {
    hide Present, Huge, Tree, Leaf, NoHuge, Extends, SameView, Kept, Copy4;
    ghost var t0, o0 := v.tables, v.own;
    TreeBasics(t0, o0);
    root := Clone(v, src);
    TreeBasics(v.tables, v.own);
    ExtendsView(t0, o0, v.tables, v.own);
    if root != 0 {
      forall p: Page | Walkable(t0, o0, src, p)
        ensures && NoHuge(v.tables, root, p) && Leaf(v.tables, root, p) == Leaf(t0, src, p)
                && UserReads(v.tables, root, p) == UserReads(t0, src, p)
                && UserWrites(v.tables, root, p) == UserWrites(t0, src, p)
      {
        ViewAt(t0, v.tables, o0, v.own, src, p);
        SameLeaf(t0, v.tables, o0, src, p);
        ExtendsGrants(t0, o0, v.tables, v.own, src, p, PRESENT | USER);
        ExtendsGrants(t0, o0, v.tables, v.own, src, p, PRESENT | WRITE | USER);
        CopyTranslates(v.tables, v.own, src, root, p);
      }
      forall i | FIRST_SHARED <= i < SLOTS && i != RECURSIVE && Step(t0, src, i) != 0
        ensures SharedSlot(v.tables, root, src, i)
      {
        KeptAt(t0, o0, v.tables, v.own, src, i);
        CopiedSlot(v.tables, src, root, i);
      }
    }
  }

  lemma SameLeaf(t: Tables, t': Tables, own: Places, root: nat, p: Page)
    requires SameView(t, t', own) && Walkable(t, own, root, p)
    ensures Leaf(t', root, p) == Leaf(t, root, p)
  {
  }

  lemma CopiedSlot(t: Tables, src: nat, dst: nat, i: nat)
    requires Copy4(t, src, dst) && FIRST_SHARED <= i < SLOTS && i != RECURSIVE
    ensures Step(t, dst, i) == Step(t, src, i)
  {
    assert Copied4(t, t[src][i], t[dst][i], i);
    assert !Present(EMPTY);
  }
}
