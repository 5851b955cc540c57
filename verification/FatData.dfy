/** Where the bytes of a file live: clusters, their sectors, and the byte sequence they hold. */
module FatData {
  import opened FatEntries
  import opened FatGeometry
  import opened FatAlloc

  // ------------------------------------------------------------ chains

  /** `chain` lists the clusters of a file from `start` (0 for none) to an end-of-chain entry. */
  predicate IsChain(fat: seq<nat>, start: nat, chain: seq<nat>)
  {
    && (chain == [] <==> start == 0)
    && (chain != [] ==> chain[0] == start)
    && (forall i :: 0 <= i < |chain| ==> InRange(fat, chain[i]))
    && (forall i :: 0 <= i < |chain| - 1 ==> fat[chain[i]] == chain[i + 1])
    && (chain != [] ==> fat[chain[|chain| - 1]] >= |fat|)
  }

  predicate NoDup(s: seq<nat>)
  {
    forall i, j :: 0 <= i < j < |s| ==> s[i] != s[j]
  }

  /** A list of clusters that ends cannot meet a cluster twice. */
  lemma {:induction false} ChainDistinct(fat: seq<nat>, start: nat, chain: seq<nat>, i: nat, j: nat)
    requires IsChain(fat, start, chain) && i < j < |chain|
    ensures chain[i] != chain[j]
    decreases |chain| - j
  {
    assert fat[chain[i]] == chain[i + 1] < |fat|;
    if j + 1 < |chain| {
      assert fat[chain[j]] == chain[j + 1];
      ChainDistinct(fat, start, chain, i + 1, j + 1);
    } else {
      assert fat[chain[j]] >= |fat|;
    }
  }

  lemma ChainNoDup(fat: seq<nat>, start: nat, chain: seq<nat>)
    requires IsChain(fat, start, chain)
    ensures NoDup(chain)
  {
    forall i, j | 0 <= i < j < |chain| ensures chain[i] != chain[j] {
      ChainDistinct(fat, start, chain, i, j);
    }
  }

  /** Linking a free cluster to the end of a chain, or starting one with it, extends it. */
  lemma ChainGrows(t: FatType, fat: seq<nat>, start: nat, chain: seq<nat>, r: nat)
    requires IsChain(fat, start, chain) && Sized(t, fat) && InRange(fat, r) && fat[r] == 0
    ensures var last := if chain == [] then 0 else chain[|chain| - 1];
            IsChain(Linked(t, fat, last, r), if chain == [] then r else start, chain + [r])
  {
    ChainNoDup(fat, start, chain);
    forall i | 0 <= i < |chain| ensures fat[chain[i]] != 0 {
      if i < |chain| - 1 { assert fat[chain[i]] == chain[i + 1]; }
    }
    var last := if chain == [] then 0 else chain[|chain| - 1];
    var f := Linked(t, fat, last, r);
    forall i | 0 <= i < |chain| - 1 ensures f[chain[i]] == chain[i + 1] {
      assert chain[i] != last;
    }
  }

  // ------------------------------------------------------------ sectors

  /** clst2sect for a valid cluster: its first sector. */
  function FirstSector(g: Geometry, c: nat): nat
    requires c >= 2
  {
    g.database + g.csize * (c - 2)
  }

  /** Cluster 2 is at the start of the data area and the others follow it in order. */
  lemma ClustersInOrder(g: Geometry, c: nat)
    requires c >= 2
    ensures FirstSector(g, 2) == g.database && FirstSector(g, c + 1) == FirstSector(g, c) + g.csize
  {
  }

  predicate AllClusters(chain: seq<nat>) { forall i :: 0 <= i < |chain| ==> chain[i] >= 2 }

  /** Sector number k of the file. */
  function FileSector(g: Geometry, chain: seq<nat>, k: nat): nat
    requires g.csize > 0 && k / g.csize < |chain| && AllClusters(chain)
  {
    FirstSector(g, chain[k / g.csize]) + k % g.csize
  }

  /** All sectors of the file, in order. */
  function SectorsOf(g: Geometry, chain: seq<nat>): (s: seq<nat>)
    requires g.csize > 0 && AllClusters(chain)
    ensures |s| == |chain| * g.csize
  {
    seq(|chain| * g.csize, k requires 0 <= k < |chain| * g.csize =>
      DivBound(k, g.csize, |chain|);
      FileSector(g, chain, k))
  }

  lemma MulLess(m: nat, a: nat, b: nat)
    requires m * a < m * b
    ensures a < b
  {
  }

  lemma DivBound(k: nat, m: nat, n: nat)
    requires m > 0 && k < n * m
    ensures k / m < n
  {
    assert k == m * (k / m) + k % m;
    MulLess(m, k / m, n);
  }

  lemma MulMono(m: nat, a: nat, b: nat)
    requires a <= b
    ensures m * a <= m * b
  {
  }

  /** The sectors of a cluster lie inside the data area. */
  lemma SectorInCluster(g: Geometry, sectors: nat, c: nat, r: nat)
    requires 2 <= c < g.nFatent && DataFits(g, sectors) && r < g.csize
    ensures g.database <= FirstSector(g, c) + r < sectors
  {
    MulMono(g.csize, c - 1, g.nFatent - 2);
    assert g.csize * (c - 1) == g.csize * (c - 2) + g.csize;
  }

  /** Distinct clusters have disjoint runs of sectors. */
  lemma SectorsApart(g: Geometry, c: nat, r: nat, d: nat, q: nat)
    requires 2 <= c < d && r < g.csize
    ensures FirstSector(g, c) + r < FirstSector(g, d) + q
  {
    MulMono(g.csize, c - 1, d - 2);
    assert g.csize * (c - 1) == g.csize * (c - 2) + g.csize;
  }

  lemma SectorAt(g: Geometry, chain: seq<nat>, k: nat)
    requires g.csize > 0 && AllClusters(chain) && k < |chain| * g.csize
    ensures k / g.csize < |chain|
    ensures SectorsOf(g, chain)[k] == FirstSector(g, chain[k / g.csize]) + k % g.csize
  {
    DivBound(k, g.csize, |chain|);
  }

  lemma SectorsDiffer(g: Geometry, chain: seq<nat>, j: nat, k: nat)
    requires PowerOfTwo(g.csize) && AllClusters(chain) && NoDup(chain) && j < k < |chain| * g.csize
    ensures SectorsOf(g, chain)[j] != SectorsOf(g, chain)[k]
  {
    hide SectorsOf, FirstSector;
    SectorAt(g, chain, j);
    SectorAt(g, chain, k);
    var c, d := chain[j / g.csize], chain[k / g.csize];
    if j / g.csize == k / g.csize {
      SameQuotient(g.csize, j, k);
    } else if c < d {
      SectorsApart(g, c, j % g.csize, d, k % g.csize);
    } else if d < c {
      SectorsApart(g, d, k % g.csize, c, j % g.csize);
    }
  }

  lemma SectorsDistinct(g: Geometry, sectors: nat, chain: seq<nat>)
    requires PowerOfTwo(g.csize) && g.nFatent >= 2 && DataFits(g, sectors) && NoDup(chain)
    requires forall i :: 0 <= i < |chain| ==> 2 <= chain[i] < g.nFatent
    ensures NoDup(SectorsOf(g, chain))
    ensures forall k :: 0 <= k < |SectorsOf(g, chain)| ==> g.database <= SectorsOf(g, chain)[k] < sectors
  {
    hide SectorsOf, FirstSector, DataFits, PowerOfTwo;
    forall k | 0 <= k < |chain| * g.csize
      ensures g.database <= SectorsOf(g, chain)[k] < sectors
    {
      SectorAt(g, chain, k);
      SectorInCluster(g, sectors, chain[k / g.csize], k % g.csize);
    }
    forall j, k | 0 <= j < k < |chain| * g.csize ensures SectorsOf(g, chain)[j] != SectorsOf(g, chain)[k] {
      SectorsDiffer(g, chain, j, k);
    }
  }

  lemma SectorsGrow(g: Geometry, chain: seq<nat>, c: nat)
    requires g.csize > 0 && c >= 2 && AllClusters(chain)
    ensures AllClusters(chain + [c])
    ensures |SectorsOf(g, chain)| <= |SectorsOf(g, chain + [c])|
    ensures SectorsOf(g, chain) == SectorsOf(g, chain + [c])[..|chain| * g.csize]
  {
    hide SectorsOf, FirstSector;
    MulMono(g.csize, |chain|, |chain| + 1);
    var s, s' := SectorsOf(g, chain), SectorsOf(g, chain + [c]);
    forall k | 0 <= k < |s| ensures s[k] == s'[k] {
      SectorAt(g, chain, k);
      SectorAt(g, chain + [c], k);
    }
  }

  /** Inside a cluster the sectors of a file are consecutive. */
  lemma SectorsConsecutive(g: Geometry, chain: seq<nat>, k: nat, j: nat)
    requires PowerOfTwo(g.csize) && AllClusters(chain)
    requires k < |chain| * g.csize && k % g.csize + j < g.csize
    ensures k + j < |chain| * g.csize
    ensures SectorsOf(g, chain)[k + j] == SectorsOf(g, chain)[k] + j
  {
    hide SectorsOf, FirstSector;
    SectorAt(g, chain, k);
    SameCluster(g.csize, k, j);
    DivBelow(k + j, g.csize, |chain|);
    SectorAt(g, chain, k + j);
  }

  lemma DivBelow(k: nat, m: nat, n: nat)
    requires m > 0 && k / m < n
    ensures k < n * m
  {
    MulMono(m, k / m + 1, n);
    assert m * (k / m + 1) == m * (k / m) + m;
  }

  // csize is a power of two up to 128, so facts about dividing by it are checked one by one.

  lemma SameCluster(m: nat, k: nat, j: nat)
    requires PowerOfTwo(m) && k % m + j < m
    ensures (k + j) / m == k / m && (k + j) % m == k % m + j
  {
  }

  lemma SameQuotient(m: nat, j: nat, k: nat)
    requires PowerOfTwo(m) && j < k && j / m == k / m
    ensures j % m != k % m
  {
  }

  /** The cluster of the byte before a sector boundary. */
  lemma PreviousCluster(m: nat, k: nat)
    requires PowerOfTwo(m) && k > 0
    ensures (k - 1) / m == if k % m == 0 then k / m - 1 else k / m
  {
  }

  // ------------------------------------------------------------ bytes

  function ByteOf(disk: seq<Sector>, s: seq<nat>, i: nat): byte
    requires i / SS < |s| && s[i / SS] < |disk|
  {
    disk[s[i / SS]][i % SS]
  }

  predicate OnDisk(disk: seq<Sector>, s: seq<nat>) { forall k :: 0 <= k < |s| ==> s[k] < |disk| }

  /** The first n bytes held by a list of sectors. */
  function BytesOf(disk: seq<Sector>, s: seq<nat>, n: nat): (b: seq<byte>)
    requires OnDisk(disk, s) && n <= |s| * SS
    ensures |b| == n
  {
    seq(n, i requires 0 <= i < n => ByteOf(disk, s, i))
  }

  /** `data` laid over `was` from position p on. */
  function Splice(was: seq<byte>, p: nat, data: seq<byte>): (b: seq<byte>)
    requires p <= |was|
  {
    if p + |data| < |was| then was[..p] + data + was[p + |data|..] else was[..p] + data
  }

  lemma SpliceLength(was: seq<byte>, p: nat, data: seq<byte>)
    requires p <= |was|
    ensures |Splice(was, p, data)| == if p + |data| < |was| then |was| else p + |data|
  {
  }

  lemma SpliceNothing(was: seq<byte>, p: nat)
    requires p <= |was|
    ensures Splice(was, p, []) == was
  {
  }

  lemma SpliceAt(was: seq<byte>, p: nat, data: seq<byte>, i: nat)
    requires p <= |was| && i < |Splice(was, p, data)|
    ensures 0 <= i - p < |data| || i < |was|
    ensures Splice(was, p, data)[i] == if 0 <= i - p < |data| then data[i - p] else was[i]
  {
  }

  lemma SpliceSplice(was: seq<byte>, p: nat, a: seq<byte>, b: seq<byte>)
    requires p <= |was|
    ensures p + |a| <= |Splice(was, p, a)|
    ensures Splice(Splice(was, p, a), p + |a|, b) == Splice(was, p, a + b)
  {
    hide Splice;
    var w := Splice(was, p, a);
    SpliceLength(was, p, a);
    SpliceLength(w, p + |a|, b);
    SpliceLength(was, p, a + b);
    var l, r := Splice(w, p + |a|, b), Splice(was, p, a + b);
    forall i | 0 <= i < |l| ensures l[i] == r[i] {
      SpliceAt(w, p + |a|, b, i);
      SpliceAt(was, p, a + b, i);
      if i < |w| { SpliceAt(was, p, a, i); }
    }
  }

  /** Bytes written at p, the rest as before: the file reads as the splice. */
  lemma WrittenBytes(disk: seq<Sector>, disk': seq<Sector>, s: seq<nat>, n: nat, p: nat, data: seq<byte>)
    requires OnDisk(disk, s) && OnDisk(disk', s) && p <= n <= |s| * SS && p + |data| <= |s| * SS
    requires forall i :: p <= i < p + |data| ==> ByteOf(disk', s, i) == data[i - p]
    requires forall i :: 0 <= i < n && !(p <= i < p + |data|) ==> ByteOf(disk', s, i) == ByteOf(disk, s, i)
    ensures BytesOf(disk', s, if n < p + |data| then p + |data| else n) == Splice(BytesOf(disk, s, n), p, data)
  {
    hide Splice, ByteOf;
    var m := if n < p + |data| then p + |data| else n;
    var was, now := BytesOf(disk, s, n), BytesOf(disk', s, m);
    SpliceLength(was, p, data);
    forall i | 0 <= i < m ensures now[i] == Splice(was, p, data)[i] {
      SpliceAt(was, p, data, i);
    }
  }
}
