/** What writing to one file means for the others: their chains and their bytes stay. */
module FatOthers {
  import opened FatEntries
  import opened FatGeometry
  import opened FatAlloc
  import opened FatData
  import opened FatFil

  /** The list of a file's clusters is the walk over the table. */
  lemma {:induction false} ChainIsWalk(fat: seq<nat>, start: nat, chain: seq<nat>, i: nat)
    requires IsChain(fat, start, chain) && i < |chain|
    ensures WalkAt(fat, start, i) == chain[i]
  {
    if i > 0 {
      ChainIsWalk(fat, start, chain, i - 1);
      assert fat[chain[i - 1]] == chain[i];
    }
  }

  /** The start of a file: no entry links to it. */
  predicate IsHead(fat: seq<nat>, start: nat) { start != 0 ==> NoLinkTo(fat, start) }

  lemma FilesApart(fat: seq<nat>, start: nat, chain: seq<nat>, o: nat, other: seq<nat>, i: nat, j: nat)
    requires NoSharing(fat) && IsChain(fat, start, chain) && IsChain(fat, o, other) && start != o
    requires IsHead(fat, start) && IsHead(fat, o) && i < |other| && j < |chain|
    ensures other[i] != chain[j]
  {
    hide NoSharing, NoLinkTo;
    ChainIsWalk(fat, o, other, i);
    ChainIsWalk(fat, start, chain, j);
    if other[i] == chain[j] { ChainsDisjoint(fat, o, i, start, j); }
  }

  lemma InUse(fat: seq<nat>, o: nat, other: seq<nat>, i: nat)
    requires IsChain(fat, o, other) && i < |other|
    ensures InRange(fat, other[i]) && fat[other[i]] != 0
  {
    if i < |other| - 1 { assert fat[other[i]] == other[i + 1]; }
  }

  /** No cluster of another file joined the chain. */
  lemma StillApart(fat0: seq<nat>, fat: seq<nat>, start: nat, chain0: seq<nat>, chain: seq<nat>,
                   o: nat, other: seq<nat>, i: nat)
    requires NoSharing(fat0) && IsChain(fat0, start, chain0) && IsChain(fat0, o, other) && start != o
    requires IsHead(fat0, start) && IsHead(fat0, o) && GrewByFree(fat0, fat, chain0, chain) && i < |other|
    ensures other[i] !in chain
  {
    hide NoSharing, IsHead, IsChain;
    InUse(fat0, o, other, i);
    forall j | 0 <= j < |chain| ensures chain[j] != other[i] {
      if j < |chain0| {
        FilesApart(fat0, start, chain0, o, other, i, j);
        assert chain0[j] == chain[..|chain0|][j];
      }
    }
  }

  lemma OtherSector(g: Geometry, chain: seq<nat>, other: seq<nat>, k: nat)
    requires PowerOfTwo(g.csize) && AllClusters(chain) && AllClusters(other) && k < |SectorsOf(g, other)|
    requires forall i :: 0 <= i < |other| ==> other[i] !in chain
    ensures SectorsOf(g, other)[k] !in SectorsOf(g, chain)
  {
    hide SectorsOf, FirstSector, PowerOfTwo;
    SectorAt(g, other, k);
    var c, r := other[k / g.csize], k % g.csize;
    forall j: nat | j < |SectorsOf(g, chain)| ensures SectorsOf(g, chain)[j] != SectorsOf(g, other)[k] {
      SectorAt(g, chain, j);
      var d, q := chain[j / g.csize], j % g.csize;
      if c < d { SectorsApart(g, c, r, d, q); } else { SectorsApart(g, d, q, c, r); }
    }
  }

  lemma SameBytes(d0: seq<Sector>, d: seq<Sector>, s: seq<nat>, n: nat)
    requires |d0| == |d| && OnDisk(d, s) && n <= |s| * SS && forall k :: 0 <= k < |s| ==> d[s[k]] == d0[s[k]]
    ensures OnDisk(d0, s) && BytesOf(d0, s, n) == BytesOf(d, s, n)
  {
  }

  /** A write or a seek to one file leaves every other file of a sound volume its chain and its bytes. */
  lemma OtherFileKept(g: Geometry, d0: seq<Sector>, fat0: seq<nat>, start: nat, chain0: seq<nat>,
                      d: seq<Sector>, fat: seq<nat>, chain: seq<nat>, o: nat, other: seq<nat>, n: nat)
    requires ValidGeometry(g, |d|) && DataFits(g, |d|) && |fat0| == g.nFatent && NoSharing(fat0)
    requires IsChain(fat0, start, chain0) && IsHead(fat0, start)
    requires Kept(g, d0, fat0, chain0, d, fat, chain)
    requires IsChain(fat0, o, other) && IsHead(fat0, o) && o != start && n <= |other| * g.csize * SS
    ensures IsChain(fat, o, other) && AllClusters(other)
    ensures OnDisk(d0, SectorsOf(g, other)) && OnDisk(d, SectorsOf(g, other))
    ensures BytesOf(d, SectorsOf(g, other), n) == BytesOf(d0, SectorsOf(g, other), n)
  {
    hide NoSharing, IsHead, SectorsOf, PowerOfTwo, DataFits, BytesOf;
    forall i | 0 <= i < |other| ensures other[i] !in chain && fat[other[i]] == fat0[other[i]] {
      StillApart(fat0, fat, start, chain0, chain, o, other, i);
    }
    ChainNoDup(fat0, o, other);
    SectorsDistinct(g, |d|, other);
    var s := SectorsOf(g, other);
    forall k | 0 <= k < |s| ensures d[s[k]] == d0[s[k]] { OtherSector(g, chain, other, k); }
    SameBytes(d0, d, s, n);
  }
}
