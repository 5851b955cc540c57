/** The fields of an open file (FIL) as values: what ties them to the device, and what reading,
    writing and moving the cursor do to them and to the bytes of the file. */
module FatFil {
  import opened FatEntries
  import opened FatGeometry
  import opened FatWindow
  import opened FatAlloc
  import opened FatData
  import opened FatDataIo

  /** Which cluster of the file holds byte i. */
  function ClusterOf(g: Geometry, i: nat): nat
    requires g.csize > 0
  {
    i / SS / g.csize
  }

  /** The fields of a FIL that describe the open file and its buffer. */
  datatype Fil = Fil(objsize: nat, fptr: nat, clust: nat, sect: nat, dirty: bool, buf: seq<byte>)

  /** The device as the file sees it: a dirty buffer stands for its sector. */
  function Media(disk: seq<Sector>, f: Fil): (m: seq<Sector>)
    ensures |m| == |disk|
  {
    if f.dirty && f.sect < |disk| && |f.buf| == SS then disk[f.sect := f.buf] else disk
  }

  /** What ties an open file to the device, `s` listing its sectors. */
  predicate FilOk(g: Geometry, disk: seq<Sector>, s: seq<nat>, f: Fil)
  {
    && |f.buf| == SS
    && f.fptr <= f.objsize <= |s| * SS
    && f.objsize < U32
    && NoDup(s)
    && (forall k :: 0 <= k < |s| ==> g.database <= s[k] < |disk|)
    && (f.fptr % SS != 0 ==> f.fptr / SS < |s| && f.sect == s[f.fptr / SS])
    && (f.dirty ==> f.sect in s)
    && (!f.dirty && g.database <= f.sect < |disk| ==> f.buf == disk[f.sect])
  }

  /** The current cluster is the one of byte q, if q is not negative. */
  predicate AtCluster(g: Geometry, chain: seq<nat>, clust: nat, q: int)
    requires g.csize > 0
  {
    q >= 0 ==> ClusterOf(g, q) < |chain| && clust == chain[ClusterOf(g, q)]
  }

  /** All of this depends on the data area of the device alone. */
  lemma FilOkFrame(g: Geometry, d: seq<Sector>, d': seq<Sector>, s: seq<nat>, f: Fil)
    requires FilOk(g, d, s, f)
    requires |d'| == |d| && g.database <= |d| && d[g.database..] == d'[g.database..]
    ensures FilOk(g, d', s, f)
    ensures Media(d', f)[g.database..] == Media(d, f)[g.database..]
  {
    forall k | g.database <= k < |d| ensures d[k] == d'[k] {
      assert d[k] == d[g.database..][k - g.database];
      assert d'[k] == d'[g.database..][k - g.database];
    }
  }

  /** At a sector boundary inside the file: which cluster comes next, and its sector. */
  lemma AtBoundary(g: Geometry, fat: seq<nat>, start: nat, d: seq<Sector>, chain: seq<nat>, s: seq<nat>, f: Fil)
    requires PowerOfTwo(g.csize) && AllClusters(chain) && s == SectorsOf(g, chain)
    requires IsChain(fat, start, chain) && FilOk(g, d, s, f) && AtCluster(g, chain, f.clust, f.fptr - 1)
    requires f.fptr % SS == 0 && f.fptr < f.objsize
    ensures var k := f.fptr / SS;
      && k < |s| && k / g.csize < |chain| && InRange(fat, chain[k / g.csize])
      && s[k] == FirstSector(g, chain[k / g.csize]) + k % g.csize
      && (k % g.csize != 0 ==> f.clust == chain[k / g.csize])
      && (f.fptr == 0 ==> start == chain[0] && k % g.csize == 0 && k / g.csize == 0)
      && (f.fptr > 0 && k % g.csize == 0 ==> InRange(fat, f.clust) && fat[f.clust] == chain[k / g.csize])
      && AtCluster(g, chain, chain[k / g.csize], f.fptr)
      && FilOk(g, d, s, f.(clust := chain[k / g.csize]))
      && Media(d, f.(clust := chain[k / g.csize])) == Media(d, f)
  {
    hide SectorsOf, PowerOfTwo, FirstSector, Media;
    var k := f.fptr / SS;
    SectorAt(g, chain, k);
    if k > 0 { BeforeBoundary(g, f.fptr); } else { ZeroDiv(g.csize); }
    Retarget(g, d, s, f, chain[k / g.csize]);
    if k > 0 && k % g.csize == 0 {
      assert f.clust == chain[k / g.csize - 1];
    }
  }

  lemma ZeroDiv(m: nat)
    requires m > 0
    ensures 0 / m == 0 && 0 % m == 0
  {
  }

  /** At a sector boundary anywhere up to the end of the file: the position q in the chain of the
      cluster under the cursor, which a write may have to add. */
  lemma AtWriteBoundary(g: Geometry, d: seq<Sector>, chain: seq<nat>, f: Fil)
    requires g.csize > 0 && PowerOfTwo(g.csize) && AllClusters(chain) && FilOk(g, d, SectorsOf(g, chain), f)
    requires AtCluster(g, chain, f.clust, f.fptr - 1) && f.fptr % SS == 0
    ensures var k := f.fptr / SS;
      && k / g.csize <= |chain|
      && (k % g.csize != 0 ==> k / g.csize < |chain| && f.clust == chain[k / g.csize])
      && (f.fptr == 0 ==> k % g.csize == 0 && k / g.csize == 0)
      && (f.fptr > 0 && k % g.csize == 0 ==> k / g.csize > 0 && f.clust == chain[k / g.csize - 1])
  {
    hide SectorsOf, PowerOfTwo;
    if f.fptr == 0 { ZeroDiv(g.csize); } else { BeforeBoundary(g, f.fptr); }
  }

  /** The cursor at a sector boundary of a chain that reaches it. */
  lemma OnChain(g: Geometry, d: seq<Sector>, chain: seq<nat>, f: Fil)
    requires g.csize > 0 && AllClusters(chain) && FilOk(g, d, SectorsOf(g, chain), f)
    requires f.fptr / SS / g.csize < |chain|
    ensures var k, s := f.fptr / SS, SectorsOf(g, chain); var c := chain[k / g.csize];
      && k < |s| && s[k] == FirstSector(g, c) + k % g.csize
      && AtCluster(g, chain, c, f.fptr)
      && FilOk(g, d, s, f.(clust := c)) && Media(d, f.(clust := c)) == Media(d, f)
  {
    hide SectorsOf;
    var k := f.fptr / SS;
    DivBelow(k, g.csize, |chain|);
    SectorAt(g, chain, k);
    Retarget(g, d, SectorsOf(g, chain), f, chain[k / g.csize]);
  }

  lemma BeforeBoundary(g: Geometry, p: nat)
    requires PowerOfTwo(g.csize) && g.csize > 0 && p % SS == 0 && p > 0
    ensures var k := p / SS;
            k > 0 && ClusterOf(g, p - 1) == if k % g.csize == 0 then k / g.csize - 1 else k / g.csize
  {
    hide PowerOfTwo;
    assert (p - 1) / SS == p / SS - 1;
    PreviousCluster(g.csize, p / SS);
  }

  lemma Retarget(g: Geometry, d: seq<Sector>, s: seq<nat>, f: Fil, c: nat)
    requires FilOk(g, d, s, f)
    ensures FilOk(g, d, s, f.(clust := c))
    ensures Media(d, f.(clust := c)) == Media(d, f)
  {
  }

  // ------------------------------------------------------------ moving the cursor

  /** The cursor may move by n bytes without leaving the cluster of the byte under it, ending
      on a sector boundary or inside the buffered sector. */
  predicate StaysInCluster(g: Geometry, p: nat, n: nat)
    requires g.csize > 0
  {
    n > 0 && ClusterOf(g, p + n - 1) == ClusterOf(g, p) && ((p + n) % SS != 0 ==> (p + n) / SS == p / SS)
  }

  lemma WithinSector(g: Geometry, p: nat, n: nat)
    requires g.csize > 0 && 0 < n <= SS - p % SS
    ensures StaysInCluster(g, p, n)
  {
    assert (p + n - 1) / SS == p / SS;
  }

  lemma WholeSectors(g: Geometry, p: nat, cc: nat)
    requires g.csize > 0 && PowerOfTwo(g.csize) && p % SS == 0 && 0 < cc && p / SS % g.csize + cc <= g.csize
    ensures StaysInCluster(g, p, cc * SS)
  {
    hide PowerOfTwo;
    assert (p + cc * SS - 1) / SS == p / SS + (cc - 1);
    SameCluster(g.csize, p / SS, cc - 1);
  }

  lemma Advanced(g: Geometry, d: seq<Sector>, chain: seq<nat>, s: seq<nat>, f: Fil, n: nat, size: nat)
    requires g.csize > 0 && FilOk(g, d, s, f) && AtCluster(g, chain, f.clust, f.fptr)
    requires StaysInCluster(g, f.fptr, n)
    requires f.fptr + n <= size && (size == f.objsize || (size <= |s| * SS && size < U32))
    requires (f.fptr + n) % SS != 0 ==> f.fptr / SS < |s| && f.sect == s[f.fptr / SS]
    ensures FilOk(g, d, s, f.(fptr := f.fptr + n, objsize := size))
    ensures AtCluster(g, chain, f.clust, f.fptr + n - 1)
    ensures Media(d, f.(fptr := f.fptr + n, objsize := size)) == Media(d, f)
  {
  }

  /** Inside a sector the byte before the cursor is in the cluster of the byte under it. */
  lemma InsideSector(g: Geometry, chain: seq<nat>, clust: nat, p: nat)
    requires g.csize > 0 && p % SS != 0 && AtCluster(g, chain, clust, p - 1)
    ensures AtCluster(g, chain, clust, p)
  {
    assert (p - 1) / SS == p / SS;
  }

  // ------------------------------------------------------------ bytes under the cursor

  /** A buffer over the sector at the cursor shows the bytes of the file. */
  lemma BufferShows(g: Geometry, d: seq<Sector>, s: seq<nat>, f: Fil, n: nat)
    requires FilOk(g, d, s, f)
    requires f.fptr / SS < |s| && f.sect == s[f.fptr / SS]
    requires n <= SS - f.fptr % SS && f.fptr + n <= f.objsize
    ensures OnDisk(Media(d, f), s)
    ensures f.buf[f.fptr % SS..f.fptr % SS + n] == BytesOf(Media(d, f), s, f.objsize)[f.fptr..f.fptr + n]
  {
    assert Media(d, f)[f.sect] == f.buf;
  }

  predicate Consecutive(s: seq<nat>, k: nat, cc: nat)
    requires k + cc <= |s|
  {
    forall x :: k <= x < k + cc ==> s[x] == s[k] + (x - k)
  }

  lemma ClusterRun(g: Geometry, chain: seq<nat>, k: nat, cc: nat)
    requires PowerOfTwo(g.csize) && AllClusters(chain)
    requires k < |SectorsOf(g, chain)| && 0 < cc && k % g.csize + cc <= g.csize
    ensures k + cc <= |SectorsOf(g, chain)| && Consecutive(SectorsOf(g, chain), k, cc)
  {
    hide PowerOfTwo, SectorsOf;
    SectorsConsecutive(g, chain, k, cc - 1);
    forall x | k <= x < k + cc ensures SectorsOf(g, chain)[x] == SectorsOf(g, chain)[k] + (x - k) {
      SectorsConsecutive(g, chain, k, x - k);
    }
  }

  /** A run of consecutive sectors shows the bytes of the file. */
  lemma RunShows(m: seq<Sector>, s: seq<nat>, p: nat, cc: nat, size: nat)
    requires OnDisk(m, s) && p % SS == 0 && p / SS + cc <= |s| && p + cc * SS <= size <= |s| * SS
    requires Consecutive(s, p / SS, cc)
    ensures cc > 0 ==> s[p / SS] + cc <= |m|
    ensures cc > 0 ==> RunBytes(m, s[p / SS], cc) == BytesOf(m, s, size)[p..p + cc * SS]
  {
    if cc > 0 {
      assert s[p / SS + (cc - 1)] == s[p / SS] + (cc - 1);
      forall i | 0 <= i < cc * SS
        ensures RunBytes(m, s[p / SS], cc)[i] == BytesOf(m, s, size)[p..p + cc * SS][i]
      {
        assert (p + i) / SS == p / SS + i / SS && (p + i) % SS == i % SS;
        assert s[(p + i) / SS] == s[p / SS] + i / SS;
      }
    }
  }

  /** A run of whole sectors at the cursor, inside its cluster, holds bytes of the file. */
  lemma DirectRead(g: Geometry, d: seq<Sector>, chain: seq<nat>, f: Fil, cc: nat)
    requires g.csize > 0 && PowerOfTwo(g.csize) && AllClusters(chain) && FilOk(g, d, SectorsOf(g, chain), f)
    requires f.fptr % SS == 0 && 0 < cc && f.fptr + cc * SS <= f.objsize && f.fptr / SS % g.csize + cc <= g.csize
    ensures var s, k := SectorsOf(g, chain), f.fptr / SS;
      && k < |s| && s[k] + cc <= |d| && OnDisk(Media(d, f), s)
      && RunBytes(Media(d, f), s[k], cc) == BytesOf(Media(d, f), s, f.objsize)[f.fptr..f.fptr + cc * SS]
  {
    hide SectorsOf, PowerOfTwo, RunBytes, BytesOf, Consecutive;
    ClusterRun(g, chain, f.fptr / SS, cc);
    RunShows(Media(d, f), SectorsOf(g, chain), f.fptr, cc, f.objsize);
  }

  /** Replacing one sector of a run read from the device by a dirty buffer. */
  lemma RunWithBuffer(d: seq<Sector>, f: Fil, sect: nat, cc: nat)
    requires |f.buf| == SS && sect + cc <= |d|
    ensures RunBytes(Media(d, f), sect, cc)
         == if f.dirty && sect <= f.sect < sect + cc then
              var j := f.sect - sect;
              RunBytes(d, sect, cc)[..j * SS] + f.buf + RunBytes(d, sect, cc)[(j + 1) * SS..]
            else RunBytes(d, sect, cc)
  {
    if f.dirty && sect <= f.sect < sect + cc {
      var j := f.sect - sect;
      var b := RunBytes(d, sect, cc)[..j * SS] + f.buf + RunBytes(d, sect, cc)[(j + 1) * SS..];
      forall i | 0 <= i < cc * SS ensures RunBytes(Media(d, f), sect, cc)[i] == b[i] {
      }
    }
  }

  lemma BytesFrame(g: Geometry, m: seq<Sector>, m': seq<Sector>, s: seq<nat>, n: nat)
    requires |m| == |m'| && g.database <= |m| && m[g.database..] == m'[g.database..]
    requires (forall k :: 0 <= k < |s| ==> g.database <= s[k] < |m|) && n <= |s| * SS
    ensures OnDisk(m, s) && OnDisk(m', s)
    ensures BytesOf(m, s, n) == BytesOf(m', s, n)
  {
    forall k | g.database <= k < |m| ensures m[k] == m'[k] {
      assert m[k] == m[g.database..][k - g.database];
      assert m'[k] == m'[g.database..][k - g.database];
    }
  }

  lemma Loaded(g: Geometry, d: seq<Sector>, s: seq<nat>, f: Fil, t: nat)
    requires FilOk(g, d, s, f) && f.fptr % SS == 0 && t in s && t < |d|
    requires !f.dirty
    ensures FilOk(g, d, s, f.(sect := t, buf := d[t]))
    ensures Media(d, f.(sect := t, buf := d[t])) == Media(d, f)
  {
  }

  /** The unsigned 32-bit test a - s < cc is membership in the run of cc sectors from s. */
  lemma InRun(a: nat, s: nat, cc: nat, sectors: nat)
    requires a < U32 && s + cc <= sectors < U32
    ensures (a + U32 - s) % U32 < cc <==> s <= a < s + cc
    ensures s <= a ==> (a + U32 - s) % U32 == a - s
  {
  }

  // ------------------------------------------------------------ writing

  function Larger(a: nat, b: nat): nat { if a < b then b else a }

  /** More sectors at the end do not disturb what the file holds. */
  lemma FilOkGrow(g: Geometry, d: seq<Sector>, s: seq<nat>, s': seq<nat>, f: Fil)
    requires FilOk(g, d, s, f) && |s| <= |s'| && s == s'[..|s|] && NoDup(s')
    requires forall k :: 0 <= k < |s'| ==> g.database <= s'[k] < |d|
    ensures FilOk(g, d, s', f)
    ensures OnDisk(Media(d, f), s) && OnDisk(Media(d, f), s')
    ensures BytesOf(Media(d, f), s, f.objsize) == BytesOf(Media(d, f), s', f.objsize)
  {
    forall k | 0 <= k < |s| ensures s[k] == s'[k] {
      assert s[k] == s'[..|s|][k];
    }
  }

  /** The buffer after a copy into it. */
  function Poke(b: seq<byte>, off: nat, chunk: seq<byte>): (r: seq<byte>)
    requires off + |chunk| <= |b|
    ensures |r| == |b|
  {
    b[..off] + chunk + b[off + |chunk|..]
  }

  /** Bytes copied into the buffer over the sector at the cursor, whose contents `b0` are the
      sector's, or anything if the cursor is at the end of the file. */
  lemma Poked(g: Geometry, d: seq<Sector>, s: seq<nat>, f: Fil, b0: seq<byte>, chunk: seq<byte>)
    requires FilOk(g, d, s, f) && f.fptr / SS < |s| && |b0| == SS
    requires 0 < |chunk| <= SS - f.fptr % SS && f.fptr + |chunk| <= |s| * SS
    requires if f.fptr % SS != 0 then b0 == f.buf
             else !f.dirty && (b0 == d[s[f.fptr / SS]] || f.fptr == f.objsize)
    ensures var f' := f.(sect := s[f.fptr / SS], buf := Poke(b0, f.fptr % SS, chunk), dirty := true);
      && FilOk(g, d, s, f') && OnDisk(Media(d, f'), s) && OnDisk(Media(d, f), s)
      && BytesOf(Media(d, f'), s, Larger(f.objsize, f.fptr + |chunk|))
         == Splice(BytesOf(Media(d, f), s, f.objsize), f.fptr, chunk)
      && Larger(f.objsize, f.fptr + |chunk|) <= |s| * SS
  {
    hide Splice, BytesOf;
    var p, k, n := f.fptr, f.fptr / SS, |chunk|;
    var f' := f.(sect := s[k], buf := Poke(b0, p % SS, chunk), dirty := true);
    var m, m' := Media(d, f), Media(d, f');
    assert m' == m[s[k] := f'.buf];
    forall i | p <= i < p + n ensures ByteOf(m', s, i) == chunk[i - p] {
      assert i / SS == k && i % SS == p % SS + (i - p);
    }
    forall i | 0 <= i < f.objsize && !(p <= i < p + n) ensures ByteOf(m', s, i) == ByteOf(m, s, i) {
      if i / SS == k {
        PokeOutside(b0, p, chunk, i);
        assert m[s[k]] == b0;
      } else {
        assert s[i / SS] != s[k];
      }
    }
    WrittenBytes(m, m', s, f.objsize, p, chunk);
  }

  lemma PokeOutside(b: seq<byte>, p: nat, chunk: seq<byte>, i: nat)
    requires |b| == SS && p % SS + |chunk| <= SS && i / SS == p / SS && !(p <= i < p + |chunk|)
    ensures Poke(b, p % SS, chunk)[i % SS] == b[i % SS]
  {
    assert i % SS < p % SS || i % SS >= p % SS + |chunk|;
  }

  lemma Flushed(g: Geometry, d: seq<Sector>, s: seq<nat>, f: Fil)
    requires FilOk(g, d, s, f) && f.dirty
    ensures g.database <= f.sect < |d| && Media(d, f) == d[f.sect := f.buf]
    ensures FilOk(g, Media(d, f), s, f.(dirty := false))
    ensures Media(Media(d, f), f.(dirty := false)) == Media(d, f)
    ensures Untouched(g, d, Media(d, f), s)
  {
  }

  /** Data sectors outside `s` hold what they held. */
  predicate Untouched(g: Geometry, d0: seq<Sector>, d: seq<Sector>, s: seq<nat>)
  {
    |d0| == |d| && forall t :: g.database <= t < |d| && t !in s ==> d[t] == d0[t]
  }

  /** Whole sectors written to the device at the cursor; a clean buffer over one of them is
      refreshed. */
  lemma RunWritten(g: Geometry, d: seq<Sector>, s: seq<nat>, f: Fil, data: seq<byte>, cc: nat)
    requires FilOk(g, d, s, f) && !f.dirty && f.fptr % SS == 0
    requires 0 < cc && f.fptr / SS + cc <= |s| && Consecutive(s, f.fptr / SS, cc) && |data| == cc * SS
    ensures s[f.fptr / SS] + cc <= |d|
    ensures var t := s[f.fptr / SS];
      var d' := WithRun(d, t, data, cc);
      var f' := f.(buf := if t <= f.sect < t + cc then SectorOfRun(data, f.sect - t) else f.buf);
      && FilOk(g, d', s, f') && OnDisk(Media(d', f'), s) && OnDisk(Media(d, f), s)
      && BytesOf(Media(d', f'), s, Larger(f.objsize, f.fptr + |data|))
         == Splice(BytesOf(Media(d, f), s, f.objsize), f.fptr, data)
      && Untouched(g, d, d', s) && g.database <= t && Larger(f.objsize, f.fptr + |data|) <= |s| * SS
  {
    hide Splice, BytesOf, WithRun, Consecutive, SectorOfRun;
    RunFits(g, d, s, f, f.fptr / SS, cc);
    RunSplices(d, s, f.objsize, f.fptr, data, cc);
    RunKeeps(g, d, s, f, f.fptr / SS, data, cc);
  }

  lemma RunFits(g: Geometry, d: seq<Sector>, s: seq<nat>, f: Fil, k: nat, cc: nat)
    requires FilOk(g, d, s, f) && 0 < cc && k + cc <= |s| && Consecutive(s, k, cc)
    ensures g.database <= s[k] && s[k] + cc <= |d|
  {
    assert s[k + cc - 1] == s[k] + (cc - 1);
  }

  lemma RunSplices(d: seq<Sector>, s: seq<nat>, n: nat, p: nat, data: seq<byte>, cc: nat)
    requires OnDisk(d, s) && NoDup(s) && p % SS == 0 && p <= n <= |s| * SS && 0 < cc && p / SS + cc <= |s|
    requires Consecutive(s, p / SS, cc) && |data| == cc * SS && s[p / SS] + cc <= |d|
    ensures var d' := WithRun(d, s[p / SS], data, cc);
      OnDisk(d', s) && BytesOf(d', s, Larger(n, p + |data|)) == Splice(BytesOf(d, s, n), p, data)
  {
    hide Splice, BytesOf;
    var k := p / SS;
    var d' := WithRun(d, s[k], data, cc);
    forall i | p <= i < p + cc * SS ensures ByteOf(d', s, i) == data[i - p] {
      assert s[i / SS] == s[k] + (i / SS - k);
    }
    forall i | 0 <= i < n && !(p <= i < p + cc * SS) ensures ByteOf(d', s, i) == ByteOf(d, s, i) {
      OutsideRun(s, k, cc, i / SS);
    }
    WrittenBytes(d, d', s, n, p, data);
  }

  lemma RunKeeps(g: Geometry, d: seq<Sector>, s: seq<nat>, f: Fil, k: nat, data: seq<byte>, cc: nat)
    requires FilOk(g, d, s, f) && !f.dirty && 0 < cc && k + cc <= |s| && Consecutive(s, k, cc)
    requires |data| == cc * SS && s[k] + cc <= |d|
    ensures var t := s[k]; var d' := WithRun(d, t, data, cc);
      && FilOk(g, d', s, f.(buf := if t <= f.sect < t + cc then SectorOfRun(data, f.sect - t) else f.buf))
      && Untouched(g, d, d', s)
  {
    forall v | s[k] <= v < s[k] + cc ensures v in s {
      assert s[k + (v - s[k])] == v;
    }
  }

  lemma OutsideRun(s: seq<nat>, k: nat, cc: nat, x: nat)
    requires NoDup(s) && 0 < cc && k + cc <= |s| && Consecutive(s, k, cc) && x < |s| && !(k <= x < k + cc)
    ensures !(s[k] <= s[x] < s[k] + cc)
  {
    if s[k] <= s[x] < s[k] + cc {
      var y := MemberOfRun(s, k, cc, s[x]);
    }
  }

  lemma MemberOfRun(s: seq<nat>, k: nat, cc: nat, v: nat) returns (y: nat)
    requires 0 < cc && k + cc <= |s| && Consecutive(s, k, cc) && s[k] <= v < s[k] + cc
    ensures k <= y < k + cc && s[y] == v
  {
    y := k + (v - s[k]);
  }

  /** The fields after whole sectors were written at the cursor. */
  function AfterRun(s: seq<nat>, f: Fil, data: seq<byte>, cc: nat): Fil
    requires f.fptr / SS < |s| && |data| == cc * SS
  {
    var t := s[f.fptr / SS];
    f.(buf := if t <= f.sect < t + cc then SectorOfRun(data, f.sect - t) else f.buf,
       fptr := f.fptr + |data|,
       objsize := Larger(f.objsize, f.fptr + |data|))
  }

  lemma DirectWrite(g: Geometry, d: seq<Sector>, chain: seq<nat>, f: Fil, data: seq<byte>, cc: nat)
    requires g.csize > 0 && PowerOfTwo(g.csize) && AllClusters(chain) && FilOk(g, d, SectorsOf(g, chain), f)
    requires AtCluster(g, chain, f.clust, f.fptr) && !f.dirty && f.fptr % SS == 0 && f.fptr / SS < |SectorsOf(g, chain)|
    requires 0 < cc && f.fptr / SS % g.csize + cc <= g.csize && |data| == cc * SS && f.fptr + |data| < U32
    ensures var s := SectorsOf(g, chain); var t := s[f.fptr / SS]; var f' := AfterRun(s, f, data, cc);
      && g.database <= t && t + cc <= |d|
      && var d' := WithRun(d, t, data, cc);
      && FilOk(g, d', s, f') && AtCluster(g, chain, f.clust, f'.fptr - 1)
      && OnDisk(Media(d', f'), s) && OnDisk(Media(d, f), s)
      && BytesOf(Media(d', f'), s, f'.objsize) == Splice(BytesOf(Media(d, f), s, f.objsize), f.fptr, data)
      && Untouched(g, d, d', s)
  {
    hide SectorsOf, PowerOfTwo, BytesOf, Consecutive, AtCluster, StaysInCluster, Splice, WithRun, FilOk, Untouched,
         Media;
    hide SectorOfRun, AllClusters;
    var s := SectorsOf(g, chain);
    var t := s[f.fptr / SS];
    ClusterRun(g, chain, f.fptr / SS, cc);
    RunWritten(g, d, s, f, data, cc);
    WholeSectors(g, f.fptr, cc);
    var d' := WithRun(d, t, data, cc);
    var f1 := f.(buf := if t <= f.sect < t + cc then SectorOfRun(data, f.sect - t) else f.buf);
    Advanced(g, d', chain, s, f1, |data|, Larger(f.objsize, f.fptr + |data|));
  }

  /** The fields after bytes were copied into the buffer at the cursor. */
  function AfterPoke(s: seq<nat>, f: Fil, b0: seq<byte>, chunk: seq<byte>): Fil
    requires f.fptr / SS < |s| && f.fptr % SS + |chunk| <= |b0|
  {
    f.(sect := s[f.fptr / SS], buf := Poke(b0, f.fptr % SS, chunk), dirty := true,
       fptr := f.fptr + |chunk|,
       objsize := Larger(f.objsize, f.fptr + |chunk|))
  }

  lemma BufferWrite(g: Geometry, d: seq<Sector>, chain: seq<nat>, s: seq<nat>, f: Fil, b0: seq<byte>, chunk: seq<byte>)
    requires g.csize > 0 && FilOk(g, d, s, f) && AtCluster(g, chain, f.clust, f.fptr)
    requires f.fptr / SS < |s| && |b0| == SS && 0 < |chunk| <= SS - f.fptr % SS && f.fptr + |chunk| < U32
    requires if f.fptr % SS != 0 then b0 == f.buf
             else !f.dirty && (b0 == d[s[f.fptr / SS]] || f.fptr == f.objsize)
    ensures var f' := AfterPoke(s, f, b0, chunk);
      && FilOk(g, d, s, f') && AtCluster(g, chain, f.clust, f'.fptr - 1)
      && OnDisk(Media(d, f'), s) && OnDisk(Media(d, f), s)
      && BytesOf(Media(d, f'), s, f'.objsize) == Splice(BytesOf(Media(d, f), s, f.objsize), f.fptr, chunk)
  {
    hide BytesOf, AtCluster, StaysInCluster, Splice, Poke, FilOk, Media;
    Poked(g, d, s, f, b0, chunk);
    WithinSector(g, f.fptr, |chunk|);
    var f1 := f.(sect := s[f.fptr / SS], buf := Poke(b0, f.fptr % SS, chunk), dirty := true);
    Advanced(g, d, chain, s, f1, |chunk|, Larger(f.objsize, f.fptr + |chunk|));
  }

  // ------------------------------------------------------------ what a write leaves alone

  /** The chain only grew, by clusters that were free, and no other entry changed. */
  predicate GrewByFree(fat0: seq<nat>, fat: seq<nat>, chain0: seq<nat>, chain: seq<nat>)
  {
    && |fat0| == |fat| && |chain0| <= |chain| && chain0 == chain[..|chain0|]
    && (forall c :: 2 <= c < |fat| && c !in chain ==> fat[c] == fat0[c])
    && (forall i :: |chain0| <= i < |chain| ==> InRange(fat0, chain[i]) && fat0[chain[i]] == 0)
  }

  /** Both at once, for an open file before and after. */
  predicate Kept(g: Geometry, d0: seq<Sector>, fat0: seq<nat>, chain0: seq<nat>, d: seq<Sector>, fat: seq<nat>,
                 chain: seq<nat>)
  {
    && g.csize > 0 && AllClusters(chain0) && AllClusters(chain)
    && Untouched(g, d0, d, SectorsOf(g, chain)) && GrewByFree(fat0, fat, chain0, chain)
  }

  lemma NothingWritten(g: Geometry, d: seq<Sector>, s: seq<nat>)
    ensures Untouched(g, d, d, s)
  {
  }

  lemma KeptSame(g: Geometry, d0: seq<Sector>, d: seq<Sector>, fat: seq<nat>, chain: seq<nat>)
    requires g.csize > 0 && AllClusters(chain) && Untouched(g, d0, d, SectorsOf(g, chain))
    ensures Kept(g, d0, fat, chain, d, fat, chain)
  {
  }

  lemma {:induction false} SectorsPrefix(g: Geometry, chain0: seq<nat>, chain: seq<nat>)
    requires g.csize > 0 && AllClusters(chain) && |chain0| <= |chain| && chain0 == chain[..|chain0|]
    ensures AllClusters(chain0)
    ensures |SectorsOf(g, chain0)| <= |SectorsOf(g, chain)|
    ensures SectorsOf(g, chain0) == SectorsOf(g, chain)[..|SectorsOf(g, chain0)|]
    decreases |chain|
  {
    hide SectorsOf;
    if |chain0| == |chain| {
      assert chain0 == chain;
    } else {
      var c := chain[..|chain| - 1];
      assert chain == c + [chain[|chain| - 1]];
      SectorsPrefix(g, chain0, c);
      SectorsGrow(g, c, chain[|chain| - 1]);
    }
  }

  lemma KeptTransitive(g: Geometry, d0: seq<Sector>, fat0: seq<nat>, chain0: seq<nat>,
                       d1: seq<Sector>, fat1: seq<nat>, chain1: seq<nat>,
                       d2: seq<Sector>, fat2: seq<nat>, chain2: seq<nat>)
    requires Kept(g, d0, fat0, chain0, d1, fat1, chain1) && Kept(g, d1, fat1, chain1, d2, fat2, chain2)
    requires NoDup(chain2)
    ensures Kept(g, d0, fat0, chain0, d2, fat2, chain2)
  {
    SectorsPrefix(g, chain1, chain2);
    UntouchedTransitive(g, d0, d1, d2, SectorsOf(g, chain1), SectorsOf(g, chain2));
    GrewTransitive(fat0, fat1, fat2, chain0, chain1, chain2);
  }

  lemma UntouchedTransitive(g: Geometry, d0: seq<Sector>, d1: seq<Sector>, d2: seq<Sector>, s1: seq<nat>, s2: seq<nat>)
    requires Untouched(g, d0, d1, s1) && Untouched(g, d1, d2, s2) && |s1| <= |s2| && s1 == s2[..|s1|]
    ensures Untouched(g, d0, d2, s2)
  {
    assert forall t :: t in s1 ==> t in s2;
  }

  lemma GrewTransitive(fat0: seq<nat>, fat1: seq<nat>, fat2: seq<nat>, chain0: seq<nat>, chain1: seq<nat>,
                       chain2: seq<nat>)
    requires GrewByFree(fat0, fat1, chain0, chain1) && GrewByFree(fat1, fat2, chain1, chain2)
    requires NoDup(chain2)
    ensures GrewByFree(fat0, fat2, chain0, chain2)
  {
    forall i | 0 <= i < |chain1| ensures chain1[i] == chain2[i] {
      assert chain1[i] == chain2[..|chain1|][i];
    }
    assert forall c :: c in chain1 ==> c in chain2;
    forall i | |chain1| <= i < |chain2| ensures InRange(fat0, chain2[i]) && fat0[chain2[i]] == 0 {
      assert chain2[i] !in chain1;
    }
    assert chain0 == chain2[..|chain0|] by {
      assert chain0 == chain1[..|chain0|];
    }
  }

  predicate Full(fat: seq<nat>) { forall c :: 2 <= c < |fat| ==> fat[c] != 0 }

  /** The chain after create_chain was asked for the cluster at position q of it. */
  function GrownChain(chain: seq<nat>, q: nat, r: nat): seq<nat>
  {
    if r == 0 || q < |chain| then chain else chain + [r]
  }

  /** create_chain, called with the last cluster before position q of a file's chain, gives the
      cluster at that position: the one there, a new one, or none if the volume is full. */
  lemma ChainStep(t: FatType, s: Alloc, start: nat, chain: seq<nat>, q: nat, last: nat, r: nat, s': Alloc)
    requires Good(t, s) && IsChain(s.fat, start, chain) && CreateStep(t, s, last, r, s')
    requires q <= |chain| && if q == 0 then chain == [] && last == 0 else last == chain[q - 1]
    ensures var chain' := GrownChain(chain, q, r);
      && r != 1 && (r == 0 ==> q == |chain| && s' == s && Full(s.fat))
      && (r != 0 ==> q < |chain'| && chain'[q] == r && InRange(s.fat, r))
      && IsChain(s'.fat, if start == 0 then r else start, chain')
      && Good(t, s')
      && GrewByFree(s.fat, s'.fat, chain, chain')
  {
    hide Good, Chains;
    CreateKeeps(t, s, last, r, s');
    var chain' := GrownChain(chain, q, r);
    if q < |chain| {
      assert s.fat[last] == chain[q];
    } else {
      NoFreeClusterIffFull(t, s, last, r, s');
      SizedOf(t, s);
      if r != 0 {
        ChainGrows(t, s.fat, start, chain, r);
        NewClusterOnly(t, s.fat, chain, last, r);
      }
    }
  }

  lemma SizedOf(t: FatType, s: Alloc)
    requires Good(t, s)
    ensures Sized(t, s.fat)
  {
  }

  lemma NewClusterOnly(t: FatType, fat: seq<nat>, chain: seq<nat>, last: nat, r: nat)
    requires InRange(fat, r) && fat[r] == 0 && (if chain == [] then last == 0 else last == chain[|chain| - 1])
    requires last == 0 || InRange(fat, last)
    ensures GrewByFree(fat, Linked(t, fat, last, r), chain, chain + [r])
  {
    assert r in chain + [r];
    assert chain != [] ==> last in chain + [r];
  }

  /** The open file over a chain that grew. */
  lemma GrownFil(g: Geometry, fat: seq<nat>, start: nat, d: seq<Sector>, chain: seq<nat>, chain': seq<nat>, f: Fil)
    requires ValidGeometry(g, |d|) && DataFits(g, |d|) && |fat| == g.nFatent
    requires IsChain(fat, start, chain') && |chain| <= |chain'| && chain == chain'[..|chain|]
    requires AllClusters(chain) && FilOk(g, d, SectorsOf(g, chain), f)
    ensures AllClusters(chain') && FilOk(g, d, SectorsOf(g, chain'), f)
    ensures OnDisk(Media(d, f), SectorsOf(g, chain)) && OnDisk(Media(d, f), SectorsOf(g, chain'))
    ensures BytesOf(Media(d, f), SectorsOf(g, chain), f.objsize) ==
              BytesOf(Media(d, f), SectorsOf(g, chain'), f.objsize)
  {
    hide SectorsOf, FilOk, DataFits, PowerOfTwo, Media, BytesOf;
    ChainNoDup(fat, start, chain');
    SectorsDistinct(g, |d|, chain');
    SectorsPrefix(g, chain, chain');
    FilOkGrow(g, d, SectorsOf(g, chain), SectorsOf(g, chain'), f);
  }

  lemma UntouchedByFrame(g: Geometry, d0: seq<Sector>, d: seq<Sector>, s: seq<nat>)
    requires |d0| == |d| && g.database <= |d| && d0[g.database..] == d[g.database..]
    ensures Untouched(g, d0, d, s)
  {
    forall k | g.database <= k < |d| ensures d[k] == d0[k] {
      assert d[k] == d[g.database..][k - g.database];
      assert d0[k] == d0[g.database..][k - g.database];
    }
  }

  // ------------------------------------------------------------ where the window may be

  /** Sector w is in no cluster of the chain and in no free cluster. It may well be in the data area:
      a directory keeps its entries there. */
  ghost predicate Clear(g: Geometry, fat: seq<nat>, chain: seq<nat>, w: nat)
  {
    forall c: nat :: 2 <= c < |fat| && (fat[c] == 0 || c in chain) ==> !InCluster(g, c, w)
  }

  predicate InCluster(g: Geometry, c: nat, w: nat)
    requires c >= 2
  {
    FirstSector(g, c) <= w < FirstSector(g, c) + g.csize
  }

  lemma SectorOfCluster(g: Geometry, chain: seq<nat>, k: nat)
    requires g.csize > 0 && AllClusters(chain) && k < |SectorsOf(g, chain)|
    ensures k / g.csize < |chain| && InCluster(g, chain[k / g.csize], SectorsOf(g, chain)[k])
  {
    hide SectorsOf, FirstSector;
    SectorAt(g, chain, k);
  }

  lemma ClearSectors(g: Geometry, fat: seq<nat>, start: nat, chain: seq<nat>, w: nat)
    requires g.csize > 0 && IsChain(fat, start, chain) && AllClusters(chain) && Clear(g, fat, chain, w)
    ensures w !in SectorsOf(g, chain)
  {
    hide SectorsOf, InCluster;
    forall k: nat | k < |SectorsOf(g, chain)| ensures SectorsOf(g, chain)[k] != w {
      SectorOfCluster(g, chain, k);
      ClusterClear(g, fat, start, chain, w, k / g.csize);
    }
  }

  lemma ClusterClear(g: Geometry, fat: seq<nat>, start: nat, chain: seq<nat>, w: nat, i: nat)
    requires IsChain(fat, start, chain) && Clear(g, fat, chain, w) && i < |chain|
    ensures !InCluster(g, chain[i], w)
  {
    assert chain[i] in chain;
  }

  lemma ClearGrown(g: Geometry, fat0: seq<nat>, fat: seq<nat>, start: nat, chain0: seq<nat>, chain: seq<nat>, w: nat)
    requires Clear(g, fat0, chain0, w) && GrewByFree(fat0, fat, chain0, chain) && IsChain(fat, start, chain)
    ensures Clear(g, fat, chain, w)
  {
    forall c: nat | 2 <= c < |fat| && (fat[c] == 0 || c in chain) ensures !InCluster(g, c, w) {
      if c in chain {
        var i :| 0 <= i < |chain| && chain[i] == c;
        if i < |chain0| { assert chain0[i] == chain[..|chain0|][i] == c; }
      }
    }
  }

  lemma ClearMoved(g: Geometry, fat: seq<nat>, chain: seq<nat>, sectors: nat, w0: nat, w: nat)
    requires g.nFatent >= 2 && |fat| == g.nFatent && DataFits(g, sectors) && Clear(g, fat, chain, w0)
    requires w == w0 || OffData(g, sectors, w)
    ensures Clear(g, fat, chain, w)
  {
    hide FirstSector, DataFits;
    if w != w0 {
      forall c: nat | 2 <= c < |fat| ensures !InCluster(g, c, w) {
        if InCluster(g, c, w) { SectorInCluster(g, sectors, c, w - FirstSector(g, c)); }
      }
    }
  }

  lemma WindowStaysClear(g: Geometry, fat0: seq<nat>, fat: seq<nat>, start: nat, chain0: seq<nat>, chain: seq<nat>,
                         sectors: nat, w0: nat, w: nat)
    requires g.nFatent >= 2 && |fat| == g.nFatent && DataFits(g, sectors) && (w == w0 || OffData(g, sectors, w))
    requires Clear(g, fat0, chain0, w0) && GrewByFree(fat0, fat, chain0, chain) && IsChain(fat, start, chain)
    ensures Clear(g, fat, chain, w)
  {
    hide Clear, GrewByFree, IsChain, DataFits;
    ClearGrown(g, fat0, fat, start, chain0, chain, w0);
    ClearMoved(g, fat, chain, sectors, w0, w);
  }

  /** The open file over a chain that grew, on a volume whose data area is the same. */
  lemma Stretched(g: Geometry, fat0: seq<nat>, fat: seq<nat>, start: nat, d0: seq<Sector>, d: seq<Sector>,
                  chain0: seq<nat>, chain: seq<nat>, f: Fil)
    requires ValidGeometry(g, |d|) && DataFits(g, |d|) && |fat| == g.nFatent && |d0| == |d|
    requires d0[g.database..] == d[g.database..] && IsChain(fat, start, chain) && GrewByFree(fat0, fat, chain0, chain)
    requires AllClusters(chain0) && FilOk(g, d0, SectorsOf(g, chain0), f)
    ensures AllClusters(chain) && FilOk(g, d, SectorsOf(g, chain), f) && Kept(g, d0, fat0, chain0, d, fat, chain)
    ensures Media(d0, f)[g.database..] == Media(d, f)[g.database..]
    ensures OnDisk(Media(d0, f), SectorsOf(g, chain0)) && OnDisk(Media(d, f), SectorsOf(g, chain))
    ensures BytesOf(Media(d0, f), SectorsOf(g, chain0), f.objsize) ==
              BytesOf(Media(d, f), SectorsOf(g, chain), f.objsize)
  {
    hide SectorsOf, FilOk, DataFits, PowerOfTwo, Media, BytesOf, IsChain, Untouched;
    FilOkFrame(g, d0, d, SectorsOf(g, chain0), f);
    GrownFil(g, fat, start, d, chain0, chain, f);
    UntouchedByFrame(g, d0, d, SectorsOf(g, chain));
    OnDiskToo(g, d0, SectorsOf(g, chain0), f);
    BytesFrame(g, Media(d0, f), Media(d, f), SectorsOf(g, chain0), f.objsize);
  }

  lemma OnDiskToo(g: Geometry, d: seq<Sector>, s: seq<nat>, f: Fil)
    requires FilOk(g, d, s, f)
    ensures OnDisk(Media(d, f), s)
  {
  }

  // ------------------------------------------------------------ seeking

  lemma QuotientOf(m: nat, i: nat, z: nat)
    requires PowerOfTwo(m) && z < m
    ensures (i * m + z) / m == i && (i * m + z) % m == z
  {
  }

  lemma SectorQuotient(x: nat, y: nat)
    ensures (x * SS + y) / SS == x + y / SS && (x * SS + y) % SS == y % SS
  {
  }

  /** Byte e of cluster i, counted from 1: which cluster and sector it ends in. */
  lemma Landing(m: nat, i: nat, e: nat)
    requires PowerOfTwo(m) && 0 < e <= m * SS
    ensures (i * (m * SS) + e - 1) / SS / m == i
    ensures (i * (m * SS) + e) % SS == e % SS
    ensures e % SS != 0 ==> var k := (i * (m * SS) + e) / SS; k / m == i && k % m == e / SS
  {
    hide PowerOfTwo;
    Regroup(i, m);
    var x := i * m;
    SectorQuotient(x, e - 1);
    SectorQuotient(x, e);
    BelowCluster(m, e);
    QuotientOf(m, i, (e - 1) / SS);
    if e % SS != 0 { QuotientOf(m, i, e / SS); }
  }

  lemma Regroup(i: nat, m: nat)
    ensures i * (m * SS) == (i * m) * SS
  {
  }

  lemma BelowCluster(m: nat, e: nat)
    requires 0 < e <= m * SS
    ensures (e - 1) / SS < m
    ensures e % SS != 0 ==> e / SS < m
  {
  }

  lemma DivideTwice(m: nat, x: nat)
    requires PowerOfTwo(m)
    ensures x / (m * SS) == x / SS / m
  {
  }

  lemma FloorOf(b: nat, x: nat, y: nat)
    requires b > 0 && y / b >= x / b
    ensures 0 <= x / b && 0 <= x / b * b <= y
  {
    assert y == b * (y / b) + y % b;
    MulMono(b, 0, x / b);
    MulMono(b, x / b, y / b);
  }

  /** A position past cluster i but inside the file leaves another cluster in the chain. */
  lemma MoreClusters(m: nat, n: nat, i: nat, t: nat)
    requires m > 0 && t <= n * m * SS && i * (m * SS) + m * SS < t
    ensures i + 1 < n
  {
    assert i * (m * SS) + m * SS == (m * SS) * (i + 1);
    assert n * m * SS == (m * SS) * n;
    MulLess(m * SS, i + 1, n);
  }

  lemma NextBase(b: nat, i: nat)
    ensures (i + 1) * b == i * b + b
  {
  }

  /** The fields after a seek to byte e (from 1) of cluster i. */
  function AfterSeek(g: Geometry, f: Fil, i: nat, e: nat): Fil
  {
    var p := i * (g.csize * SS) + e;
    f.(fptr := p, objsize := Larger(f.objsize, p))
  }

  lemma Landed(g: Geometry, d: seq<Sector>, chain: seq<nat>, f: Fil, i: nat, e: nat)
    requires g.csize > 0 && PowerOfTwo(g.csize) && AllClusters(chain) && FilOk(g, d, SectorsOf(g, chain), f)
    requires i < |chain| && f.clust == chain[i] && 0 < e <= g.csize * SS && i * (g.csize * SS) + e < U32
    requires e % SS != 0 ==> f.sect == FirstSector(g, chain[i]) + e / SS
    ensures var s, f' := SectorsOf(g, chain), AfterSeek(g, f, i, e);
      && FilOk(g, d, s, f') && AtCluster(g, chain, f.clust, f'.fptr - 1)
      && Media(d, f') == Media(d, f) && OnDisk(Media(d, f), s)
      && BytesOf(Media(d, f), s, f.objsize) == BytesOf(Media(d, f'), s, f'.objsize)[..f.objsize]
  {
    hide SectorsOf, PowerOfTwo, FirstSector, FilOk, BytesOf;
    var p, s := i * (g.csize * SS) + e, SectorsOf(g, chain);
    Landing(g.csize, i, e);
    SeekInside(g, chain, i, e);
    if p % SS != 0 { SectorAt(g, chain, p / SS); }
    Relocated(g, d, s, f, p);
  }

  /** The fields with the cursor moved to p, the file grown to it if need be. */
  lemma Relocated(g: Geometry, d: seq<Sector>, s: seq<nat>, f: Fil, p: nat)
    requires FilOk(g, d, s, f) && p <= |s| * SS && p < U32
    requires p % SS != 0 ==> p / SS < |s| && f.sect == s[p / SS]
    ensures var f' := f.(fptr := p, objsize := Larger(f.objsize, p));
      && FilOk(g, d, s, f') && Media(d, f') == Media(d, f) && OnDisk(Media(d, f), s)
      && BytesOf(Media(d, f), s, f.objsize) == BytesOf(Media(d, f'), s, f'.objsize)[..f.objsize]
  {
  }

  lemma SeekInside(g: Geometry, chain: seq<nat>, i: nat, e: nat)
    requires g.csize > 0 && AllClusters(chain) && i < |chain| && 0 < e <= g.csize * SS
    ensures i * (g.csize * SS) + e <= |SectorsOf(g, chain)| * SS
    ensures (i * (g.csize * SS) + e) % SS != 0 ==> (i * (g.csize * SS) + e) / SS < |SectorsOf(g, chain)|
  {
    hide SectorsOf;
    MulMono(g.csize, i + 1, |chain|);
    assert g.csize * (i + 1) == g.csize * i + g.csize;
    assert i * (g.csize * SS) == (g.csize * i) * SS;
  }

  /** If the data area reads the same through the buffer, no other file's sector changed. */
  lemma UntouchedByMedia(g: Geometry, d0: seq<Sector>, f0: Fil, d: seq<Sector>, f: Fil, s: seq<nat>)
    requires FilOk(g, d0, s, f0) && FilOk(g, d, s, f) && |d0| == |d| && g.database <= |d|
    requires Media(d0, f0)[g.database..] == Media(d, f)[g.database..]
    ensures Untouched(g, d0, d, s)
  {
    forall t | g.database <= t < |d| && t !in s ensures d[t] == d0[t] {
      assert Media(d, f)[t] == Media(d, f)[g.database..][t - g.database];
      assert Media(d0, f0)[t] == Media(d0, f0)[g.database..][t - g.database];
    }
  }

  lemma JustOpened(g: Geometry, fat: seq<nat>, start: nat, d: seq<Sector>, chain: seq<nat>, f: Fil)
    requires ValidGeometry(g, |d|) && DataFits(g, |d|) && IsChain(fat, start, chain) && |fat| == g.nFatent
    requires |f.buf| == SS && f.fptr == 0 && f.sect == 0 && !f.dirty && f.objsize < U32
    requires f.objsize <= |chain| * g.csize * SS
    ensures AllClusters(chain) && FilOk(g, d, SectorsOf(g, chain), f)
  {
    hide SectorsOf, PowerOfTwo, DataFits;
    ChainNoDup(fat, start, chain);
    SectorsDistinct(g, |d|, chain);
  }

  /** Another round of f_write's loop in terms of the whole of the data. */
  lemma WroteMore(was: seq<byte>, p: nat, data: seq<byte>, bw: nat, btw: nat, wcnt: nat)
    requires p <= |was| && bw <= btw <= |data| && wcnt <= btw - bw
    ensures p + bw <= |Splice(was, p, data[..bw])|
    ensures Splice(Splice(was, p, data[..bw]), p + bw, data[bw..btw][..wcnt]) == Splice(was, p, data[..bw + wcnt])
  {
    hide Splice;
    SpliceSplice(was, p, data[..bw], data[bw..btw][..wcnt]);
    assert data[..bw] + data[bw..btw][..wcnt] == data[..bw + wcnt];
  }

  lemma JoinSlices(b: seq<byte>, i: nat, j: nat, k: nat)
    requires i <= j <= k <= |b|
    ensures b[i..j] + b[j..k] == b[i..k]
  {
  }
}
