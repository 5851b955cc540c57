/** get_fat and put_fat: packed entries read and stored through the window. */
module FatTable {
  import opened FatEntries
  import opened FatGeometry
  import opened FatWindow

  const DISK_ERROR: nat := 0xFFFF_FFFF
  const INT_ERROR: nat := 1

  /** Every byte of an entry is in a sector of the first FAT, hence on the disk and below
      the data area. */
  lemma EntrySector(g: Geometry, sectors: nat, c: nat, k: nat)
    requires ValidGeometry(g, sectors) && c < g.nFatent && k < EntryBytes(g.fsType)
    ensures EntryOffset(g.fsType, c) + k < g.fsize * SS
    ensures InFirstFat(g, g.fatbase + (EntryOffset(g.fsType, c) + k) / SS)
    ensures g.fatbase + (EntryOffset(g.fsType, c) + k) / SS < g.database <= sectors
  {
    EntryFits(g.fsType, g.nFatent, c);
  }

  /** The window over a FAT sector shows the bytes of the FAT. */
  lemma WindowShows(fs: FatFs, o: nat)
    requires fs.Valid() && o < fs.geo.fsize * SS && fs.winsect == fs.geo.fatbase + o / SS
    ensures fs.win[o % SS] == fs.Image()[o]
  {
    assert fs.View()[fs.winsect] == fs.win[..];
  }

  lemma SameData(g: Geometry, v: seq<Sector>, w: seq<Sector>)
    requires ValidGeometry(g, |v|) && SameVolume(g, v, w)
    ensures v[g.database..] == w[g.database..]
  {
  }

  /** Bring the sector of byte k of entry c into the window. */
  method MoveToEntry(fs: FatFs, c: nat, k: nat) returns (res: FResult)
    requires fs.Valid() && c < fs.geo.nFatent && k < EntryBytes(fs.geo.fsType)
    modifies fs`disk, fs`wflag, fs`winsect, fs.win
    ensures fs.OnlyMovedWindow()
    ensures var o := EntryOffset(fs.geo.fsType, c) + k;
            res == Ok ==> && o < fs.geo.fsize * SS && fs.winsect == fs.geo.fatbase + o / SS < |fs.disk|
                          && fs.win[o % SS] == fs.Image()[o]
    ensures res != Ok ==> res == DiskErr && !fs.healthy
  {
    var o := EntryOffset(fs.geo.fsType, c) + k;
    EntrySector(fs.geo, |fs.disk|, c, k);
    res := fs.MoveWindow(fs.geo.fatbase + o / SS);
    SameVolumeSameFat(fs.geo, old(fs.View()), fs.View());
    SameData(fs.geo, old(fs.View()), fs.View());
    if res == Ok { WindowShows(fs, o); }
  }

  /** A FAT12 entry is read a byte at a time: the second may be in the next sector. */
  method GetFat12(fs: FatFs, clst: nat) returns (res: FResult, w: nat)
    requires fs.Valid() && clst < fs.geo.nFatent && fs.geo.fsType == FAT12
    modifies fs`disk, fs`wflag, fs`winsect, fs.win
    ensures fs.OnlyMovedWindow()
    ensures res == Ok ==> fs.Fat()[clst] == if clst % 2 == 1 then w / 16 else w % 4096
    ensures res != Ok ==> !fs.healthy
  {
    hide FatFs.View, FatFs.Outside, FatFs.Image, FatFs.Mirrored;
    w := 0;
    var o := EntryOffset(FAT12, clst);
    EntrySector(fs.geo, |fs.disk|, clst, 0);
    EntrySector(fs.geo, |fs.disk|, clst, 1);
    EntryFits(FAT12, fs.geo.nFatent, clst);
    res := MoveToEntry(fs, clst, 0);
    if res == Ok {
      var first := fs.win[o % SS];
      res := MoveToEntry(fs, clst, 1);
      if res == Ok {
        w := Le16(first, fs.win[(o + 1) % SS]);
      }
    }
  }

  /** get_fat: 1 for a cluster number out of range, DISK_ERROR if the device fails, else the
      value of the entry. */
  method GetFat(fs: FatFs, clst: nat) returns (val: nat)
    requires fs.Valid()
    modifies fs`disk, fs`wflag, fs`winsect, fs.win
    ensures fs.OnlyMovedWindow()
    ensures clst < 2 || clst >= fs.geo.nFatent ==> val == INT_ERROR
    ensures 2 <= clst < fs.geo.nFatent ==> val == fs.Fat()[clst] || (val == DISK_ERROR && !fs.healthy)
    ensures 2 <= clst < fs.geo.nFatent && (fs.healthy || val != DISK_ERROR) ==>
              ReadsAs(fs.geo.fsType, fs.Image(), clst, val)
  {
    hide FatFs.View, FatFs.Outside, FatFs.Image, FatFs.Mirrored;
    if clst < 2 || clst >= fs.geo.nFatent { return INT_ERROR; }
    val := DISK_ERROR;
    match fs.geo.fsType {
      case FAT12 =>
        var res, w := GetFat12(fs, clst);
        if res == Ok { val := if clst % 2 == 1 then w / 16 else w % 4096; }
      case FAT16 =>
        var res := MoveToEntry(fs, clst, 0);
        if res == Ok { val := Load16(fs, clst); }
      case FAT32 =>
        var res := MoveToEntry(fs, clst, 0);
        if res == Ok { val := Load32(fs, clst); }
    }
    ReadsFat(fs.geo.fsType, fs.Image(), fs.geo.nFatent, clst);
  }

  /** The bytes of the FAT spell out `val` in the digits of entry c. */
  predicate ReadsAs(t: FatType, b: seq<byte>, c: nat, val: nat)
  {
    (Stride(t) * c + Digits(t) - 1) / 2 < |b| && val == Number(b, Stride(t) * c, Digits(t))
  }

  lemma ReadsFat(t: FatType, b: seq<byte>, n: nat, c: nat)
    requires FatBytesNeeded(t, n) <= |b| && c < n
    ensures ReadsAs(t, b, c, Entries(t, b, n)[c])
  {
    EntryFits(t, n, c);
    EntryIsNumber(t, b, c);
  }

  /** ld_16 of a FAT16 entry in the window. */
  method Load16(fs: FatFs, clst: nat) returns (val: nat)
    requires fs.Valid() && clst < fs.geo.nFatent && fs.geo.fsType == FAT16
    requires fs.winsect == fs.geo.fatbase + 2 * clst / SS
    ensures val == fs.Fat()[clst]
  {
    hide FatFs.View, FatFs.Image, Le16;
    EntryFits(FAT16, fs.geo.nFatent, clst);
    EntryInWindow(fs, clst, 0);
    EntryInWindow(fs, clst, 1);
    val := Le16(fs.win[2 * clst % SS], fs.win[2 * clst % SS + 1]);
  }

  /** ld_32 of a FAT32 entry in the window, without its upper four bits. */
  method Load32(fs: FatFs, clst: nat) returns (val: nat)
    requires fs.Valid() && clst < fs.geo.nFatent && fs.geo.fsType == FAT32
    requires fs.winsect == fs.geo.fatbase + 4 * clst / SS
    ensures val == fs.Fat()[clst]
  {
    hide FatFs.View, FatFs.Image, Le16;
    EntryFits(FAT32, fs.geo.nFatent, clst);
    var i := 4 * clst % SS;
    EntryInWindow(fs, clst, 0);
    EntryInWindow(fs, clst, 1);
    EntryInWindow(fs, clst, 2);
    EntryInWindow(fs, clst, 3);
    val := (Le16(fs.win[i], fs.win[i + 1]) + 0x1_0000 * Le16(fs.win[i + 2], fs.win[i + 3])) % 0x1000_0000;
  }

  /** A FAT16 or FAT32 entry never crosses a sector boundary. */
  lemma EntryInWindow(fs: FatFs, clst: nat, k: nat)
    requires fs.Valid() && clst < fs.geo.nFatent && fs.geo.fsType != FAT12 && k < EntryBytes(fs.geo.fsType)
    requires fs.winsect == fs.geo.fatbase + EntryOffset(fs.geo.fsType, clst) / SS
    ensures var o := EntryOffset(fs.geo.fsType, clst);
            && o + k < fs.geo.fsize * SS && (o + k) % SS == o % SS + k < SS
            && fs.win[o % SS + k] == fs.Image()[o + k]
  {
    hide FatFs.View, FatFs.Image;
    var o := EntryOffset(fs.geo.fsType, clst);
    EntrySector(fs.geo, |fs.disk|, clst, k);
    SameSector(o, k);
    WindowShows(fs, o + k);
  }

  lemma SameSector(o: nat, k: nat)
    requires (o % 2 == 0 && k < 2) || (o % 4 == 0 && k < 4)
    ensures (o + k) / SS == o / SS && (o + k) % SS == o % SS + k
  {
    assert o % SS + k < SS;
    assert o + k == SS * (o / SS) + (o % SS + k);
  }

  /** Store one byte of the FAT into the window. */
  method StoreByte(fs: FatFs, o: nat, b: byte)
    requires fs.Valid() && o < fs.geo.fsize * SS && fs.winsect == fs.geo.fatbase + o / SS
    modifies fs`wflag, fs.win
    ensures fs.OnlyStoredFat() && fs.wflag
    ensures fs.Image() == old(fs.Image())[o := b]
  {
    ghost var v := fs.View();
    fs.win[o % SS] := b;
    fs.wflag := true;
    assert fs.View() == WithFatByte(v, fs.geo, o, b);
    ImageAfterStore(v, fs.geo, o, b);
  }

  /** The stores of put_fat for a FAT12 entry, moving the window from the first byte to the
      second. If the second move fails the entry is torn, its neighbours are not. */
  method PutFat12(fs: FatFs, clst: nat, val: nat) returns (res: FResult)
    requires fs.Valid() && clst < fs.geo.nFatent && fs.geo.fsType == FAT12
    modifies fs`disk, fs`wflag, fs`winsect, fs.win
    ensures fs.OnlyStoredFat()
    ensures res == Ok || (res == DiskErr && !fs.healthy)
    ensures EntryOffset(FAT12, clst) + 2 <= fs.geo.fsize * SS
    ensures var was, o := old(fs.Image()), EntryOffset(FAT12, clst);
            var now := fs.Image();
            if res == Ok then now == PutEntry(FAT12, was, clst, val)
            else now == was || now == was[o := FirstByte(FAT12, clst, val, was[o])]
  {
    hide FatFs.View, FatFs.Outside, FatFs.Image, FatFs.Mirrored;
    var o := EntryOffset(FAT12, clst);
    EntrySector(fs.geo, |fs.disk|, clst, 0);
    EntrySector(fs.geo, |fs.disk|, clst, 1);
    res := MoveToEntry(fs, clst, 0);
    if res == Ok {
      StoreByte(fs, o, FirstByte(FAT12, clst, val, fs.win[o % SS]));
      res := MoveToEntry(fs, clst, 1);
      if res == Ok {
        StoreByte(fs, o + 1, SecondByte(FAT12, clst, val, fs.win[(o + 1) % SS]));
      }
    }
  }

  /** st_16 of a FAT16 entry. */
  method PutFat16(fs: FatFs, clst: nat, val: nat) returns (res: FResult)
    requires fs.Valid() && clst < fs.geo.nFatent && fs.geo.fsType == FAT16
    modifies fs`disk, fs`wflag, fs`winsect, fs.win
    ensures fs.OnlyStoredFat()
    ensures res == Ok || (res == DiskErr && !fs.healthy)
    ensures 2 * clst + 2 <= fs.geo.fsize * SS
    ensures fs.Image() == if res == Ok then PutEntry(FAT16, old(fs.Image()), clst, val) else old(fs.Image())
  {
    hide FatFs.View, FatFs.Outside, FatFs.Image, FatFs.Mirrored;
    EntrySector(fs.geo, |fs.disk|, clst, 1);
    SameSector(2 * clst, 1);
    res := MoveToEntry(fs, clst, 0);
    if res == Ok {
      StoreByte(fs, 2 * clst, val % 256);
      StoreByte(fs, 2 * clst + 1, val / 256 % 256);
    }
  }

  /** st_32 of a FAT32 entry, keeping its upper four bits. */
  method PutFat32(fs: FatFs, clst: nat, val: nat) returns (res: FResult)
    requires fs.Valid() && clst < fs.geo.nFatent && fs.geo.fsType == FAT32
    modifies fs`disk, fs`wflag, fs`winsect, fs.win
    ensures fs.OnlyStoredFat()
    ensures res == Ok || (res == DiskErr && !fs.healthy)
    ensures 4 * clst + 4 <= fs.geo.fsize * SS
    ensures fs.Image()[4 * clst + 3] / 16 == old(fs.Image())[4 * clst + 3] / 16
    ensures fs.Image() == if res == Ok then PutEntry(FAT32, old(fs.Image()), clst, val) else old(fs.Image())
  {
    hide FatFs.View, FatFs.Outside, FatFs.Image, FatFs.Mirrored;
    var o := 4 * clst;
    EntrySector(fs.geo, |fs.disk|, clst, 3);
    SameSector(o, 1);
    SameSector(o, 2);
    SameSector(o, 3);
    res := MoveToEntry(fs, clst, 0);
    if res == Ok {
      WindowShows(fs, o + 3);
      var top := fs.win[o % SS + 3];
      StoreByte(fs, o, val % 256);
      StoreByte(fs, o + 1, val / 256 % 256);
      StoreByte(fs, o + 2, ThirdByte(val));
      StoreByte(fs, o + 3, FourthByte(val, top));
    }
  }

  /** put_fat: FR_INT_ERR for a cluster number out of range; otherwise the entry takes the
      value masked to its width and no other entry changes, even if the device fails midway. */
  method PutFat(fs: FatFs, clst: nat, val: nat) returns (res: FResult)
    requires fs.Valid()
    modifies fs`disk, fs`wflag, fs`winsect, fs.win
    ensures fs.OnlyStoredFat()
    ensures clst < 2 || clst >= fs.geo.nFatent ==> res == IntErr && fs.Fat() == old(fs.Fat())
    ensures 2 <= clst < fs.geo.nFatent ==> res == Ok || (res == DiskErr && !fs.healthy)
    ensures res == Ok ==> fs.Fat() == old(fs.Fat())[clst := val % EntryRange(fs.geo.fsType)]
    ensures forall c :: 0 <= c < fs.geo.nFatent && c != clst ==> fs.Fat()[c] == old(fs.Fat()[c])
  {
    hide FatFs.View, FatFs.Outside, FatFs.Image, FatFs.Mirrored;
    if clst < 2 || clst >= fs.geo.nFatent { return IntErr; }
    ghost var was := fs.Image();
    match fs.geo.fsType {
      case FAT12 =>
        res := PutFat12(fs, clst, val);
        if res != Ok { TornPut12(was, fs.Image(), fs.geo.nFatent, clst, val); }
      case FAT16 =>
        res := PutFat16(fs, clst, val);
      case FAT32 =>
        res := PutFat32(fs, clst, val);
    }
    EntriesAfterPut(fs.geo.fsType, was, fs.geo.nFatent, clst, val);
  }

  /** A FAT12 entry of which only the first byte was stored: the other entries are intact. */
  lemma TornPut12(was: seq<byte>, now: seq<byte>, n: nat, clst: nat, val: nat)
    requires FatBytesNeeded(FAT12, n) <= |was| && clst < n
    requires EntryOffset(FAT12, clst) + 2 <= |was|
    requires var o := EntryOffset(FAT12, clst);
             now == was || now == was[o := FirstByte(FAT12, clst, val, was[o])]
    ensures forall c :: 0 <= c < n && c != clst ==> Entries(FAT12, now, n)[c] == Entries(FAT12, was, n)[c]
  {
    forall c | 0 <= c < n && c != clst
      ensures Entries(FAT12, now, n)[c] == Entries(FAT12, was, n)[c]
    {
      EntryFits(FAT12, n, c);
      var o, p := EntryOffset(FAT12, clst), EntryOffset(FAT12, c);
      if p + 1 == o { KeepLowNibble(was[p], was[o], now[o]); }
    }
  }
}
