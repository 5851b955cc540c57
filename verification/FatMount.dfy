/** The layout checks of mount_volume: which boot records give a usable volume. */
module FatMount {
  import opened FatEntries
  import opened FatGeometry

  /** The fields of a FAT boot record that fix the layout. */
  datatype Bpb = Bpb(
    bytsPerSec: nat, secPerClus: nat, rsvdSecCnt: nat, numFats: nat, rootEntCnt: nat,
    totSec16: nat, totSec32: u32, fatSz16: nat, fatSz32: u32, fsVer32: nat)

  datatype Mounted = Rejected | Accepted(geo: Geometry)

  /** Each field fits its width on disk. */
  predicate OnDiskFields(b: Bpb)
  {
    && b.bytsPerSec < 0x1_0000 && b.secPerClus < 256 && b.rsvdSecCnt < 0x1_0000 && b.numFats < 256
    && b.rootEntCnt < 0x1_0000 && b.totSec16 < 0x1_0000 && b.fatSz16 < 0x1_0000 && b.fsVer32 < 0x1_0000
  }

  function FatSectors(b: Bpb): u32 { if b.fatSz16 == 0 then b.fatSz32 else b.fatSz16 % U32 }

  function TotalSectors(b: Bpb): u32 { if b.totSec16 == 0 then b.totSec32 else b.totSec16 % U32 }

  /** Sectors before the data area as the code computes them, in 32 bits. */
  function SystemSectors(b: Bpb): u32
  {
    (b.rsvdSecCnt + FatSectors(b) * b.numFats % U32 + b.rootEntCnt / 16) % U32
  }

  /** The same sum without the 32-bit wrap. */
  function SystemSum(b: Bpb): nat { b.rsvdSecCnt + FatSectors(b) * b.numFats + b.rootEntCnt / 16 }

  function TypeFor(nclst: nat): FatType
    requires nclst <= MAX_FAT32
  {
    if nclst <= MAX_FAT12 then FAT12 else if nclst <= MAX_FAT16 then FAT16 else FAT32
  }

  /** mount_volume from the loaded boot record of a volume that starts at sector bsect. */
  function Mount(bsect: u32, b: Bpb): Mounted
  {
    if b.bytsPerSec != SS then Rejected
    else if b.numFats != 1 && b.numFats != 2 then Rejected
    else if !PowerOfTwo(b.secPerClus) then Rejected
    else if b.rootEntCnt % 16 != 0 then Rejected
    else if b.rsvdSecCnt == 0 then Rejected
    else if TotalSectors(b) < SystemSectors(b) then Rejected
    else
      var nclst := (TotalSectors(b) - SystemSectors(b)) / b.secPerClus;
      if nclst == 0 || nclst > MAX_FAT32 then Rejected
      else
        var t := TypeFor(nclst);
        var g := Geometry(t, b.numFats, b.secPerClus, nclst + 2, FatSectors(b),
                          (bsect + b.rsvdSecCnt) % U32, (bsect + SystemSectors(b)) % U32);
        if t == FAT32 && (b.fsVer32 != 0 || b.rootEntCnt != 0) then Rejected
        else if t != FAT32 && b.rootEntCnt == 0 then Rejected
        else if g.fsize < (FatBytesNeeded(t, g.nFatent) + (SS - 1)) / SS then Rejected
        else Accepted(g)
  }

  /** The volume, by its recorded size, and its reserved sectors are on the disk. */
  predicate LiesOnDisk(bsect: nat, b: Bpb, sectors: nat)
  {
    bsect + TotalSectors(b) <= sectors && bsect + b.rsvdSecCnt <= sectors < U32
  }

  /** What an accepted boot record says about the fields it fixes. */
  lemma AcceptedShape(bsect: u32, b: Bpb, sectors: nat)
    requires OnDiskFields(b) && Mount(bsect, b).Accepted? && LiesOnDisk(bsect, b, sectors)
    ensures var g := Mount(bsect, b).geo;
      && PowerOfTwo(g.csize) && g.csize >= 1 && (g.nFats == 1 || g.nFats == 2) && g.nFats == b.numFats
      && 3 <= g.nFatent <= MaxClusters(g.fsType) + 2
      && g.fsize == FatSectors(b) && (FatBytesNeeded(g.fsType, g.nFatent) + (SS - 1)) / SS <= g.fsize
      && 1 <= b.rsvdSecCnt
      && SystemSectors(b) + g.csize * (g.nFatent - 2) <= TotalSectors(b)
  {
    hide PowerOfTwo, SystemSectors, TotalSectors, FatBytesNeeded, FatSectors;
    ClustersFit(b.secPerClus, TotalSectors(b) - SystemSectors(b));
  }

  /** The type is decided by the number of clusters alone, which is the largest that fits. */
  lemma TypeByCount(bsect: u32, b: Bpb)
    requires OnDiskFields(b) && Mount(bsect, b).Accepted?
    ensures var g := Mount(bsect, b).geo;
      && (g.fsType == FAT12 <==> g.nFatent - 2 <= 4085)
      && (g.fsType == FAT16 <==> 4085 < g.nFatent - 2 <= 65525)
      && (g.fsType == FAT32 <==> 65525 < g.nFatent - 2)
      && SystemSectors(b) + g.csize * (g.nFatent - 2) <= TotalSectors(b) < SystemSectors(b) + g.csize * (g.nFatent - 1)
  {
    hide PowerOfTwo, SystemSectors, TotalSectors, FatBytesNeeded, FatSectors;
    ClustersFit(b.secPerClus, TotalSectors(b) - SystemSectors(b));
  }

  /** Exactly which boot records are accepted, by the number of clusters they leave room for. */
  lemma AcceptedIff(bsect: u32, b: Bpb)
    requires OnDiskFields(b)
    ensures Mount(bsect, b).Accepted? <==>
              && b.bytsPerSec == 512 && (b.numFats == 1 || b.numFats == 2) && PowerOfTwo(b.secPerClus)
              && b.rootEntCnt % 16 == 0 && b.rsvdSecCnt > 0 && SystemSectors(b) <= TotalSectors(b)
              && var n := (TotalSectors(b) - SystemSectors(b)) / b.secPerClus;
              && 1 <= n <= 0x0FFF_FFF5
              && (if n > 65525 then b.rootEntCnt == 0 && b.fsVer32 == 0 else b.rootEntCnt > 0)
              && (if n > 65525 then 4 * (n + 2) else if n > 4085 then 2 * (n + 2) else (3 * (n + 2) + 1) / 2)
                 <= FatSectors(b) * 512
  {
    hide PowerOfTwo, SystemSectors, TotalSectors, FatSectors;
    if PowerOfTwo(b.secPerClus) && SystemSectors(b) <= TotalSectors(b) {
      ClustersFit(b.secPerClus, TotalSectors(b) - SystemSectors(b));
      var n := (TotalSectors(b) - SystemSectors(b)) / b.secPerClus;
      if 1 <= n <= MAX_FAT32 {
        SectorsFor(FatBytesNeeded(TypeFor(n), n + 2), FatSectors(b));
        HalfUp(n + 2);
      }
    }
  }

  lemma SectorsFor(bytes: nat, f: nat)
    ensures f < (bytes + (SS - 1)) / SS <==> f * SS < bytes
  {
  }

  lemma HalfUp(n: nat)
    ensures n * 3 / 2 + n % 2 == (3 * n + 1) / 2
  {
    var m, r := n / 2, n % 2;
    Halved(n * 3, 3 * m + r, r);
    Halved(3 * n + 1, 3 * m + 2 * r, 1 - r);
  }

  lemma Halved(x: nat, q: nat, r: nat)
    requires x == 2 * q + r && r < 2
    ensures x / 2 == q
  {
  }

  lemma Bases(bsect: u32, b: Bpb, sectors: nat)
    requires OnDiskFields(b) && Mount(bsect, b).Accepted? && LiesOnDisk(bsect, b, sectors)
    ensures var g := Mount(bsect, b).geo;
      && g.database == bsect + SystemSectors(b) && g.fatbase == bsect + b.rsvdSecCnt
  {
    hide PowerOfTwo, SystemSectors, TotalSectors, FatBytesNeeded, FatSectors, TypeFor;
    var sys := SystemSectors(b);
    assert sys <= TotalSectors(b);
    NoWrap(bsect + sys);
    NoWrap(bsect + b.rsvdSecCnt);
  }

  lemma NoWrap(x: nat)
    requires x < U32
    ensures x % U32 == x
  {
  }

  /** A volume that mount_volume accepts and that lies on the disk has a sound layout (FATs of
      sufficient size, before a data area all on the disk) exactly when the 32-bit sum of the
      sectors before the data area did not wrap. */
  lemma MountSoundIffNoWrap(bsect: u32, b: Bpb, sectors: nat)
    requires OnDiskFields(b) && Mount(bsect, b).Accepted? && LiesOnDisk(bsect, b, sectors)
    ensures var g := Mount(bsect, b).geo;
            ValidGeometry(g, sectors) && DataFits(g, sectors) <==> SystemSum(b) < U32
  {
    hide PowerOfTwo, Mount, TotalSectors, FatBytesNeeded, FatSectors, SystemSectors, SystemSum;
    var g := Mount(bsect, b).geo;
    AcceptedShape(bsect, b, sectors);
    Bases(bsect, b, sectors);
    SumOfParts(b);
    assert g.csize * (g.nFatent - 2) >= 1;
    if SystemSum(b) < U32 {
      RoundedUp(FatBytesNeeded(g.fsType, g.nFatent), g.fsize);
    }
  }

  lemma RoundedUp(n: nat, f: nat)
    requires (n + (SS - 1)) / SS <= f
    ensures n <= f * SS
  {
  }

  lemma ClustersFit(m: nat, n: nat)
    requires PowerOfTwo(m)
    ensures m >= 1 && m * (n / m) <= n < m * (n / m + 1)
  {
  }

  lemma SumModulo(x: nat, f: nat, y: nat)
    requires x < 0x1_0000 && f < 2 * U32 && y < 4096
    ensures if x + f + y < U32 then (x + f % U32 + y) % U32 == x + f + y else (x + f % U32 + y) % U32 < x + f
  {
  }

  /** Without a wrap the data area starts after the FATs; after a wrap it starts inside them. */
  lemma SumOfParts(b: Bpb)
    requires OnDiskFields(b) && (b.numFats == 1 || b.numFats == 2)
    ensures var fats := if b.numFats == 2 then 2 * FatSectors(b) else FatSectors(b);
      if SystemSum(b) < U32 then SystemSectors(b) == SystemSum(b) >= b.rsvdSecCnt + fats
      else SystemSectors(b) < b.rsvdSecCnt + fats
  {
    var fats := if b.numFats == 2 then 2 * FatSectors(b) else FatSectors(b);
    assert FatSectors(b) * b.numFats == fats;
    SumModulo(b.rsvdSecCnt, fats, b.rootEntCnt / 16);
  }

  /** Such a boot record exists: two FATs of 2^31 sectors make the data area start where the
      first FAT does. */
  lemma WrapExample()
    ensures var b := Bpb(SS, 1, 1, 2, 0, 0, 100_000, 0, 0x8000_0000, 0);
            && OnDiskFields(b) && Mount(0, b).Accepted?
            && Mount(0, b).geo.database == Mount(0, b).geo.fatbase
  {
    var b := Bpb(SS, 1, 1, 2, 0, 0, 100_000, 0, 0x8000_0000, 0);
    assert FatSectors(b) * b.numFats % U32 == 0;
    assert SystemSectors(b) == 1;
  }
}
