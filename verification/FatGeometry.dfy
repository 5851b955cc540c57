/** The shape of a mounted FAT volume: sectors, the BPB-derived layout, and the
    value of a packed FAT entry as a function of the bytes of the FAT. */
module FatGeometry {
  import opened FatEntries

  /** FF_MIN_SS == FF_MAX_SS == 512. */
  const SS := 512

  type Sector = s: seq<byte> | |s| == SS witness seq(SS, _ => 0)

  const U32: nat := 0x1_0000_0000

  /** DWORD, and LBA_t since FF_LBA64 is 0. */
  type u32 = x: nat | x < U32

  datatype FResult = Ok | DiskErr | IntErr | NoFilesystem | Denied

  /** The fields of FATFS that mount_volume fixes. */
  datatype Geometry = Geometry(
    fsType: FatType,
    nFats: nat,      // 1 or 2
    csize: nat,      // sectors per cluster, a power of two
    nFatent: nat,    // number of FAT entries, clusters + 2
    fsize: nat,      // sectors per FAT
    fatbase: nat,    // first sector of the first FAT
    database: nat)   // first sector of the data area

  predicate PowerOfTwo(n: nat)
  {
    n == 1 || n == 2 || n == 4 || n == 8 || n == 16 || n == 32 || n == 64 || n == 128
  }

  const MAX_FAT12: nat := 0xFF5
  const MAX_FAT16: nat := 0xFFF5
  const MAX_FAT32: nat := 0x0FFFFFF5

  function MaxClusters(t: FatType): nat
  {
    match t
    case FAT12 => MAX_FAT12
    case FAT16 => MAX_FAT16
    case FAT32 => MAX_FAT32
  }

  /** Sectors taken by all FAT copies. */
  function FatArea(g: Geometry): nat { if g.nFats == 2 then 2 * g.fsize else g.fsize }

  /** A layout as mount_volume accepts it, lying inside a disk of `sectors` sectors. */
  predicate ValidGeometry(g: Geometry, sectors: nat)
  {
    && (g.nFats == 1 || g.nFats == 2)
    && g.csize >= 1 && PowerOfTwo(g.csize)
    && 3 <= g.nFatent <= MaxClusters(g.fsType) + 2
    && FatBytesNeeded(g.fsType, g.nFatent) <= g.fsize * SS
    && 1 <= g.fatbase
    && g.fatbase + FatArea(g) <= g.database
    && g.database < sectors < U32
  }

  /** Every cluster lies on the disk. */
  predicate DataFits(g: Geometry, sectors: nat)
    requires g.nFatent >= 2
  {
    g.database + g.csize * (g.nFatent - 2) <= sectors
  }

  predicate InFirstFat(g: Geometry, s: nat) { g.fatbase <= s < g.fatbase + g.fsize }

  /** Sectors of the second FAT copy, which reflects the first one. */
  predicate InMirror(g: Geometry, s: nat)
  {
    g.nFats == 2 && g.fatbase + g.fsize <= s < g.fatbase + 2 * g.fsize
  }

  /** The first FAT as one run of bytes. */
  function FatImage(v: seq<Sector>, g: Geometry): (b: seq<byte>)
    requires g.fatbase + g.fsize <= |v|
    ensures |b| == g.fsize * SS
  {
    seq(g.fsize * SS, o requires 0 <= o < g.fsize * SS => v[g.fatbase + o / SS][o % SS])
  }

  /** Two views that may differ only in the second FAT copy. */
  ghost predicate SameVolume(g: Geometry, v: seq<Sector>, w: seq<Sector>)
  {
    |v| == |w| && forall s :: 0 <= s < |v| && !InMirror(g, s) ==> v[s] == w[s]
  }

  lemma SameVolumeSameFat(g: Geometry, v: seq<Sector>, w: seq<Sector>)
    requires ValidGeometry(g, |v|) && SameVolume(g, v, w)
    ensures FatImage(v, g) == FatImage(w, g)
    ensures v[..g.fatbase] == w[..g.fatbase]
    ensures v[g.fatbase + FatArea(g)..] == w[g.fatbase + FatArea(g)..]
  {
    forall o | 0 <= o < g.fsize * SS ensures FatImage(v, g)[o] == FatImage(w, g)[o] {
      assert !InMirror(g, g.fatbase + o / SS);
    }
    assert FatImage(v, g) == FatImage(w, g);
  }

  /** v with byte o of the first FAT replaced. */
  function WithFatByte(v: seq<Sector>, g: Geometry, o: nat, b: byte): (w: seq<Sector>)
    requires g.fatbase + o / SS < |v|
    ensures |w| == |v|
  {
    var s := g.fatbase + o / SS;
    v[s := v[s][o % SS := b]]
  }

  lemma ImageAfterStore(v: seq<Sector>, g: Geometry, o: nat, b: byte)
    requires g.fatbase + g.fsize <= |v| && o < g.fsize * SS
    ensures FatImage(WithFatByte(v, g, o, b), g) == FatImage(v, g)[o := b]
  {
    var w := WithFatByte(v, g, o, b);
    forall p | 0 <= p < g.fsize * SS ensures FatImage(w, g)[p] == FatImage(v, g)[o := b][p] {
      assert p / SS == o / SS && p % SS == o % SS ==> p == o;
    }
  }
}
