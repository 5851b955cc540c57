/** An address space being filled: which frames a load may write, and what its bytes are. */
module ElfImage {
  import opened VmmTables
  import opened VmmSteps
  import opened Vmm
  import opened VmmRuns

  /** The data pages in memory, by frame number. */
  type Ram = map<nat, seq<bv8>>

  /** Pages of the low half. */
  const LOW_PAGES: nat := 0x8_0000_0000

  function At(n: nat): Page { PageOf(n * PAGE) }

  /** The entry that maps virtual page n. */
  function Spot(t: Tables, root: nat, n: nat): Pte { Leaf(t, root, At(n)) }

  lemma AtDistinct(n: nat, m: nat)
    requires n < LOW_PAGES && m < LOW_PAGES
    ensures IsPage(At(n)) && At(n).i < FIRST_SHARED && (At(n) == At(m) <==> n == m)
  {
    hide PageOf;
    SamePage(n * PAGE, m * PAGE);
    LowHalf(n);
  }

  lemma LowHalf(n: nat)
    requires n < LOW_PAGES
    ensures IsPage(At(n)) && At(n).i < FIRST_SHARED
  {
  }

  /** Reading address a through root finds byte b. */
  predicate Holds(t: Tables, ram: Ram, root: nat, a: nat, b: bv8)
  {
    var e := Spot(t, root, a / PAGE);
    Present(e) && e.addr in ram && a % PAGE < |ram[e.addr]| && ram[e.addr][a % PAGE] == b
  }

  /** Translation of an address, in terms of its page. */
  lemma TranslateSpot(t: Tables, root: nat, a: nat)
    ensures var e := Spot(t, root, a / PAGE);
      Translate(t, root, a) == if Present(e) then e.addr * PAGE + a % PAGE else 0
  {
    hide PageOf, Leaf, Present;
    SamePage(a, a / PAGE * PAGE);
  }

  /** Data pages are allocated frames of 4096 bytes that hold no table. */
  predicate RamOk(t: Tables, frames: set<nat>, ram: Ram)
  {
    0 !in ram && ram.Keys <= frames && ram.Keys !! t.Keys && forall f :: f in ram ==> |ram[f]| == PAGE
  }

  /** The pages loaded so far that are mapped lie in frames that were not in use before the load,
      each in its own. */
  ghost predicate Private(t: Tables, ram: Ram, root: nat, done: set<nat>, base: set<nat>)
  {
    && (forall n :: n in done && Present(Spot(t, root, n)) ==>
          Spot(t, root, n).addr in ram && Spot(t, root, n).addr !in base)
    && (forall n, m :: n in done && m in done && n != m && Present(Spot(t, root, n)) && Present(Spot(t, root, m)) ==>
          Spot(t, root, n).addr != Spot(t, root, m).addr)
  }

  /** Every page the load needs is in the low half and can be walked to. */
  ghost predicate Ready(t: Tables, own: Places, root: nat, need: set<nat>)
  {
    forall n :: n in need ==> n < LOW_PAGES && Walkable(t, own, root, At(n))
  }

  /** The frames in use before the load are as they were. */
  ghost predicate BaseKept(ram: Ram, ram': Ram, base: set<nat>)
  {
    forall f :: f in ram && f in base ==> f in ram' && ram'[f] == ram[f]
  }

  /** Bytes of loaded pages outside [lo, hi) are as they were. */
  ghost predicate BytesKept(t: Tables, ram: Ram, t': Tables, ram': Ram, root: nat, done: set<nat>, lo: nat, hi: nat)
  {
    forall a: nat, b: bv8 :: a / PAGE in done && !(lo <= a < hi) && Holds(t, ram, root, a, b) ==>
      Holds(t', ram', root, a, b)
  }

  // ------------------------------------------------------------ mapping one more page

  /** A fresh frame f at page n, or no entry there; every other needed page as before. */
  ghost predicate MappedOne(t: Tables, t': Tables, root: nat, need: set<nat>, n: nat, f: nat)
  {
    && (Present(Spot(t', root, n)) ==> Spot(t', root, n).addr == f)
    && (forall m :: m in need && m != n ==> Spot(t', root, m) == Spot(t, root, m))
  }

  lemma PrivateGrows(t: Tables, ram: Ram, t': Tables, ram': Ram, root: nat, need: set<nat>, done: set<nat>,
                     base: set<nat>, frames: set<nat>, n: nat, f: nat)
    requires Private(t, ram, root, done, base) && MappedOne(t, t', root, need, n, f) && done <= need && n !in done
    requires RamOk(t, frames, ram) && base <= frames && f !in frames && f in ram' && ram' == ram[f := ram'[f]]
    ensures Private(t', ram', root, done + {n}, base) && BytesKept(t, ram, t', ram', root, done, 0, 0)
    ensures BaseKept(ram, ram', base)
  {
    hide Spot, Present;
    forall a: nat, b: bv8 | a / PAGE in done && Holds(t, ram, root, a, b) ensures Holds(t', ram', root, a, b) {
      assert Spot(t', root, a / PAGE) == Spot(t, root, a / PAGE);
    }
  }

  // ------------------------------------------------------------ writing bytes

  function Put(s: seq<bv8>, off: nat, src: seq<bv8>): (r: seq<bv8>)
    requires off + |src| <= |s|
    ensures |r| == |s|
    ensures forall i :: 0 <= i < |s| ==> r[i] == if off <= i < off + |src| then src[i - off] else s[i]
  {
    s[..off] + src + s[off + |src|..]
  }

  /** Writing a run of bytes inside page n reaches exactly those addresses of the loaded pages. */
  lemma WriteReaches(t: Tables, frames: set<nat>, ram: Ram, root: nat, done: set<nat>, base: set<nat>, a: nat,
                     src: seq<bv8>)
    requires Private(t, ram, root, done, base) && a / PAGE in done && Present(Spot(t, root, a / PAGE))
    requires RamOk(t, frames, ram) && a % PAGE + |src| <= PAGE
    ensures var f := Spot(t, root, a / PAGE).addr;
      && f in ram && f !in base && |ram[f]| == PAGE
      && var ram' := ram[f := Put(ram[f], a % PAGE, src)];
         && RamOk(t, frames, ram') && Private(t, ram', root, done, base) && BaseKept(ram, ram', base)
         && (forall x :: 0 <= x < |src| ==> Holds(t, ram', root, a + x, src[x]))
         && BytesKept(t, ram, t, ram', root, done, a, a + |src|)
  {
    hide Spot, Present, Put;
    var n, f := a / PAGE, Spot(t, root, a / PAGE).addr;
    var ram' := ram[f := Put(ram[f], a % PAGE, src)];
    forall x | 0 <= x < |src| ensures Holds(t, ram', root, a + x, src[x]) {
      SamePageRun(a, x);
    }
    forall c: nat, b: bv8 | c / PAGE in done && !(a <= c < a + |src|) && Holds(t, ram, root, c, b)
      ensures Holds(t, ram', root, c, b)
    {
      if c / PAGE == n { OutsideRun(a, c, |src|); }
    }
  }

  lemma SamePageRun(a: nat, x: nat)
    requires a % PAGE + x < PAGE
    ensures (a + x) / PAGE == a / PAGE && (a + x) % PAGE == a % PAGE + x
  {
  }

  lemma OutsideRun(a: nat, c: nat, len: nat)
    requires a / PAGE == c / PAGE && !(a <= c < a + len)
    ensures !(a % PAGE <= c % PAGE < a % PAGE + len)
  {
  }
}
