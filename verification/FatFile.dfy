/** An open file (FIL): f_read, f_write and f_lseek through a private sector buffer. */
module FatFile {
  import opened FatEntries
  import opened FatGeometry
  import opened FatWindow
  import opened FatTable
  import opened FatAlloc
  import opened FatChain
  import opened FatData
  import opened FatDataIo
  import opened FatFil
  import opened FatOthers

  datatype FileCall = ReadCall(n: nat) | WriteCall(data: seq<byte>) | SeekCall(ofs: u32)

  /** Bytes read, and the count returned or the cursor reached. */
  datatype FileOut = FileOut(bytes: seq<byte>, count: nat)

  /** A file as its user thinks of it, and whether the volume has no free cluster. */
  datatype PlainFile = PlainFile(bytes: seq<byte>, cursor: nat, full: bool)

  /** What a call does to a plain file. A write falls short only on a full volume or at the 4 GiB
      limit, a seek past the end only on a full volume and never below the old end. Nothing a
      handle does frees a cluster. */
  ghost predicate PlainStep(f: PlainFile, call: FileCall, out: FileOut, f': PlainFile)
  {
    && f.cursor <= |f.bytes| && f'.cursor <= |f'.bytes| && (f.full ==> f'.full)
    && match call
       case ReadCall(n) =>
         && f'.bytes == f.bytes && f'.cursor == f.cursor + |out.bytes|
         && |out.bytes| == (if n < |f.bytes| - f.cursor then n else |f.bytes| - f.cursor)
         && out.bytes == f.bytes[f.cursor..f'.cursor]
       case WriteCall(data) =>
         && out.count <= |data| && f'.cursor == f.cursor + out.count
         && f'.bytes == Splice(f.bytes, f.cursor, data[..out.count])
         && (out.count < |data| ==> f'.full || f'.cursor == U32 - 1)
       case SeekCall(ofs) =>
         && f'.cursor == out.count <= ofs
         && (out.count < ofs ==> f'.full && |f.bytes| <= f'.cursor)
         && |f'.bytes| == Larger(|f.bytes|, f'.cursor) && f'.bytes[..|f.bytes|] == f.bytes
  }

  class FileHandle {
    const fs: FatFs
    const buf: array<byte>
    const canRead: bool
    const canWrite: bool

    var sclust: u32
    var objsize: u32
    var fptr: u32
    var clust: u32
    var sect: u32
    var dirty: bool
    var modified: bool

    /** The clusters of the file, first to last. */
    ghost var chain: seq<nat>

    ghost function Snapshot(): Fil
      reads this`objsize, this`fptr, this`clust, this`sect, this`dirty, buf
    {
      Fil(objsize, fptr, clust, sect, dirty, buf[..])
    }

    /** The volume is sound and the file's chain is one of its chains. */
    ghost predicate VolumeOk()
      reads this`chain, this`sclust, fs, fs.win
    {
      && fs.Valid() && fs.healthy && DataFits(fs.geo, |fs.disk|)
      && Good(fs.geo.fsType, State(fs))
      && IsChain(fs.Fat(), sclust, chain) && Clear(fs.geo, fs.Fat(), chain, fs.winsect)
    }

    ghost predicate Base()
      reads this`objsize, this`fptr, this`clust, this`sect, this`dirty, this`chain, this`sclust, buf, fs, fs.win
    {
      && buf.Length == SS && buf != fs.win
      && fs.geo.csize > 0 && AllClusters(chain) && fptr <= objsize && fs.Valid()
      && VolumeOk()
      && FilOk(fs.geo, fs.View(), SectorsOf(fs.geo, chain), Snapshot())
    }

    ghost predicate Inv(q: int)
      reads this`objsize, this`fptr, this`clust, this`sect, this`dirty, this`chain, this`sclust, buf, fs, fs.win
    {
      Base() && AtCluster(fs.geo, chain, clust, q)
    }

    /** Between calls the current cluster is the one of the last byte before the cursor. */
    ghost predicate Valid()
      reads this`objsize, this`fptr, this`clust, this`sect, this`dirty, this`chain, this`sclust, buf, fs, fs.win
    {
      Inv(fptr - 1)
    }

    /** The bytes of the file. */
    ghost function Content(): (b: seq<byte>)
      reads this`objsize, this`fptr, this`clust, this`sect, this`dirty, this`chain, this`sclust, buf, fs, fs.win
      requires Base()
      ensures |b| == objsize
    {
      BytesOf(Media(fs.View(), Snapshot()), SectorsOf(fs.geo, chain), objsize)
    }

    /** The tail of f_open on an existing file of `size` bytes in the given chain. */
    constructor Open(fs: FatFs, canRead: bool, canWrite: bool, sclust: u32, size: u32, ghost chain: seq<nat>)
      requires fs.Valid() && fs.healthy && DataFits(fs.geo, |fs.disk|)
      requires Good(fs.geo.fsType, State(fs)) && IsChain(fs.Fat(), sclust, chain)
      requires Clear(fs.geo, fs.Fat(), chain, fs.winsect)
      requires size <= |chain| * fs.geo.csize * SS
      ensures Valid() && this.fs == fs && fptr == 0 && objsize == size && fresh(buf)
      ensures this.canRead == canRead && this.canWrite == canWrite && this.chain == chain
    {
      hide FatFs.View, FatFs.Fat, Good, SectorsOf, PowerOfTwo, FilOk, DataFits, IsChain;
      this.fs := fs;
      buf := new byte[SS](_ => 0);
      this.canRead := canRead;
      this.canWrite := canWrite;
      this.sclust := sclust;
      objsize := size;
      fptr := 0;
      clust := 0;
      sect := 0;
      dirty := false;
      modified := false;
      this.chain := chain;
      new;
      JustOpened(fs.geo, fs.Fat(), sclust, fs.View(), chain, Snapshot());
    }

    /** The data area as the file sees it. */
    ghost function Area(): seq<Sector>
      reads this`objsize, this`fptr, this`clust, this`sect, this`dirty, buf, fs`disk, fs`winsect, fs.win
    {
      var m := Media(fs.View(), Snapshot());
      if fs.geo.database <= |m| then m[fs.geo.database..] else []
    }

    /** Nothing of the file or of the data area, as the file sees it, changed. */
    twostate predicate SameData()
      reads this, buf, fs`disk, fs`winsect, fs.win
    {
      && chain == old(chain) && sclust == old(sclust) && objsize == old(objsize)
      && |fs.disk| == |old(fs.disk)| && Area() == old(Area())
    }

    /** Write-back of a dirty sector buffer. */
    method Flush()
      requires Base()
      modifies this`dirty, fs`disk
      ensures Base() && !dirty && SameData() && fs.Fat() == old(fs.Fat())
      ensures Kept(fs.geo, old(fs.View()), fs.Fat(), chain, fs.View(), fs.Fat(), chain)
      ensures old(fs.Mirrored()) ==> fs.Mirrored()
    {
      hide Clear, FilOk, Media, SectorsOf, IsChain, Good, FatFs.Fat, FatFs.Mirrored, FatFs.View;
      hide Kept, Untouched;
      ghost var d := fs.View();
      NothingWritten(fs.geo, d, SectorsOf(fs.geo, chain));
      if dirty {
        DirtySector();
        SectorOnDisk(sect);
        Flushed(fs.geo, fs.View(), SectorsOf(fs.geo, chain), Snapshot());
        WriteSector(fs, sect, buf[..]);
        dirty := false;
      }
      KeptSame(fs.geo, d, fs.View(), fs.Fat(), chain);
    }

    /** get_fat, seen from the file. */
    method Entry(c: nat) returns (v: nat)
      requires Base() && InRange(fs.Fat(), c)
      modifies fs`disk, fs`wflag, fs`winsect, fs.win
      ensures Base() && SameData() && v == fs.Fat()[c] && fs.Fat() == old(fs.Fat())
      ensures Kept(fs.geo, old(fs.View()), fs.Fat(), chain, fs.View(), fs.Fat(), chain)
      ensures old(fs.Mirrored()) ==> fs.Mirrored()
    {
      hide Clear, FatFs.View, FatFs.Outside, FatFs.Image, FatFs.Fat, FatFs.Mirrored;
      hide FilOk, Media, SectorsOf, IsChain, Good, Kept, Untouched;
      ghost var d := fs.View();
      ghost var w := fs.winsect;
      v := GetFat(fs, c);
      ClearMoved(fs.geo, fs.Fat(), chain, |fs.disk|, w, fs.winsect);
      FilOkFrame(fs.geo, d, fs.View(), SectorsOf(fs.geo, chain), Snapshot());
      UntouchedByFrame(fs.geo, d, fs.View(), SectorsOf(fs.geo, chain));
      KeptSame(fs.geo, d, fs.View(), fs.Fat(), chain);
    }

    /** Follow the chain to the cluster of the byte at the cursor, which lies on a sector
        boundary inside the file, and find its sector (the cluster part of f_read). */
    method FollowRead() returns (s: nat, csect: nat)
      requires Valid() && fptr % SS == 0 && fptr < objsize
      modifies this`clust, fs`disk, fs`wflag, fs`winsect, fs.win
      ensures Inv(fptr) && SameData() && fs.Fat() == old(fs.Fat())
      ensures csect == fptr / SS % fs.geo.csize
      ensures fptr / SS < |SectorsOf(fs.geo, chain)| && s == SectorsOf(fs.geo, chain)[fptr / SS]
      ensures old(fs.Mirrored()) ==> fs.Mirrored()
    {
      hide Clear, FatFs.View, FatFs.Outside, FatFs.Image, FatFs.Fat, FatFs.Mirrored;
      hide Media, SectorsOf, Good, FilOk, IsChain, PowerOfTwo;
      csect := fptr / SS % fs.geo.csize;
      AtBoundary(fs.geo, fs.Fat(), sclust, fs.View(), chain, SectorsOf(fs.geo, chain), Snapshot());
      if csect == 0 {
        var c;
        if fptr == 0 {
          c := sclust;
        } else {
          c := Entry(clust);
        }
        if c < 2 || c == DISK_ERROR { assert false; }
        AtBoundary(fs.geo, fs.Fat(), sclust, fs.View(), chain, SectorsOf(fs.geo, chain), Snapshot());
        clust := c;
      }
      s := fs.geo.database + fs.geo.csize * (clust - 2) + csect;
    }

    twostate lemma SameContent()
      requires old(Base()) && Base() && SameData()
      ensures Content() == old(Content())
    {
      hide Media, SectorsOf, VolumeOk;
      BytesFrame(fs.geo, old(Media(fs.View(), Snapshot())), Media(fs.View(), Snapshot()), SectorsOf(fs.geo, chain),
        objsize);
    }

    twostate lemma OthersSame()
      requires old(Base()) && Base() && SameData() && fs.Fat() == old(fs.Fat())
      ensures Kept(fs.geo, old(fs.View()), old(fs.Fat()), old(chain), fs.View(), fs.Fat(), chain)
    {
      hide Media, SectorsOf, VolumeOk, FatFs.Fat, FilOk, Untouched, FatFs.View;
      UntouchedByMedia(fs.geo, old(fs.View()), old(Snapshot()), fs.View(), Snapshot(), SectorsOf(fs.geo, chain));
      KeptSame(fs.geo, old(fs.View()), fs.View(), fs.Fat(), chain);
    }

    /** The direct multi-sector transfer of f_read: whole sectors from the device, the one that
        is buffered and dirty replaced by the buffer. */
    method ReadDirect(s: nat, cc: nat) returns (data: seq<byte>)
      requires buf.Length == SS && s + cc <= |fs.disk| < U32 && !(s <= fs.winsect < s + cc)
      ensures data == RunBytes(Media(fs.View(), Snapshot()), s, cc)
    {
      hide RunBytes, Media;
      InRun(sect, s, cc, |fs.disk|);
      data := RunBytes(fs.disk, s, cc);
      RunSeen(fs, s, cc);
      RunWithBuffer(fs.View(), Snapshot(), s, cc);
      if dirty && (sect + U32 - s) % U32 < cc {
        var j := (sect + U32 - s) % U32;
        data := data[..j * SS] + buf[..] + data[(j + 1) * SS..];
      }
    }

    /** Fill the sector buffer with sector s, unless it is there. */
    method Load(s: nat)
      requires Base() && fptr % SS == 0 && s in SectorsOf(fs.geo, chain)
      modifies this`dirty, this`sect, buf, fs`disk
      ensures Base() && SameData() && sect == s && fs.Fat() == old(fs.Fat())
      ensures Kept(fs.geo, old(fs.View()), fs.Fat(), chain, fs.View(), fs.Fat(), chain)
      ensures old(fs.Mirrored()) ==> fs.Mirrored()
    {
      hide VolumeOk, FilOk, Media, SectorsOf, Kept, FatFs.Fat, FatFs.View;
      SectorOnDisk(s);
      NothingGrew();
      if sect != s {
        Flush();
        SectorOnDisk(s);
        Loaded(fs.geo, fs.View(), SectorsOf(fs.geo, chain), Snapshot(), s);
        var ok, data := fs.DiskRead(s);
        forall i | 0 <= i < SS { buf[i] := data[i]; }
        assert buf[..] == data;
      }
      sect := s;
    }

    lemma DirtySector()
      requires Base() && dirty
      ensures sect in SectorsOf(fs.geo, chain)
    {
      hide SectorsOf, VolumeOk;
    }

    lemma SectorOnDisk(s: nat)
      requires Base() && s in SectorsOf(fs.geo, chain)
      ensures fs.geo.database <= s < |fs.disk| < U32 && fs.healthy
      ensures s != fs.winsect && fs.View()[s] == fs.disk[s]
    {
      hide SectorsOf, Clear;
      ClearSectors(fs.geo, fs.Fat(), sclust, chain, fs.winsect);
    }

    /** A run of sectors of the file is not under the window. */
    lemma RunElsewhere(k: nat, cc: nat)
      requires Base() && k < |SectorsOf(fs.geo, chain)| && 0 < cc && k % fs.geo.csize + cc <= fs.geo.csize
      ensures var s := SectorsOf(fs.geo, chain)[k]; !(s <= fs.winsect < s + cc)
    {
      hide SectorsOf, Clear, Consecutive, FilOk, PowerOfTwo;
      ClearSectors(fs.geo, fs.Fat(), sclust, chain, fs.winsect);
      ClusterRun(fs.geo, chain, k, cc);
      var s := SectorsOf(fs.geo, chain);
      if s[k] <= fs.winsect < s[k] + cc { var y := MemberOfRun(s, k, cc, fs.winsect); }
    }

    /** Copy out of a buffer over the sector at the cursor (the last part of f_read's loop). */
    method BufferBytes(rcnt: nat) returns (data: seq<byte>)
      requires Base() && rcnt <= SS - fptr % SS && rcnt <= objsize - fptr
      requires fptr / SS < |SectorsOf(fs.geo, chain)| && sect == SectorsOf(fs.geo, chain)[fptr / SS]
      ensures data == Content()[fptr..fptr + rcnt]
    {
      hide VolumeOk, FilOk, Media, SectorsOf, BytesOf, AllClusters;
      data := buf[fptr % SS..fptr % SS + rcnt];
      BufferShows(fs.geo, fs.View(), SectorsOf(fs.geo, chain), Snapshot(), rcnt);
    }

    /** One round of f_read's loop. */
    method ReadStep(btr: nat) returns (data: seq<byte>)
      requires Valid() && 0 < btr <= objsize - fptr
      modifies this`fptr, this`clust, this`sect, this`dirty, buf, fs`disk, fs`wflag, fs`winsect, fs.win
      ensures Valid() && SameData() && fs.Fat() == old(fs.Fat())
      ensures 0 < |data| <= btr && fptr == old(fptr) + |data|
      ensures data == old(Content())[old(fptr)..fptr]
      ensures old(fs.Mirrored()) ==> fs.Mirrored()
    {
      hide VolumeOk, FilOk, Area, SectorsOf, Content, FatFs.Mirrored, FatFs.Fat, AtCluster, FatFs.View;
      if fptr % SS == 0 {
        var s, csect := FollowRead();
        SameContent();
        var cc := btr / SS;
        if cc > 0 {
          if csect + cc > fs.geo.csize { cc := fs.geo.csize - csect; }
          data := TakeDirect(s, cc);
          return;
        }
        Load(s);
        SameContent();
      } else {
        InsideSector(fs.geo, chain, clust, fptr);
        SectorUnderCursor();
      }
      data := TakeFromBuffer(btr);
    }

    method TakeDirect(s: nat, cc: nat) returns (data: seq<byte>)
      requires Inv(fptr) && fptr % SS == 0 && 0 < cc && fptr + cc * SS <= objsize
      requires fptr / SS % fs.geo.csize + cc <= fs.geo.csize
      requires fptr / SS < |SectorsOf(fs.geo, chain)| && s == SectorsOf(fs.geo, chain)[fptr / SS]
      modifies this`fptr
      ensures Valid() && SameData() && fptr == old(fptr) + cc * SS
      ensures data == old(Content())[old(fptr)..fptr]
    {
      hide Area, SectorsOf, StaysInCluster, Content, VolumeOk, FilOk, AllClusters, AtCluster, PowerOfTwo, FatFs.Valid;
      Facts();
      data := DirectBytes(s, cc);
      WholeSectors(fs.geo, fptr, cc);
      Skip(cc * SS);
    }

    method TakeFromBuffer(btr: nat) returns (data: seq<byte>)
      requires Inv(fptr) && 0 < btr <= objsize - fptr
      requires fptr / SS < |SectorsOf(fs.geo, chain)| && sect == SectorsOf(fs.geo, chain)[fptr / SS]
      modifies this`fptr
      ensures Valid() && SameData()
      ensures 0 < |data| <= btr && fptr == old(fptr) + |data|
      ensures data == old(Content())[old(fptr)..fptr]
    {
      hide Area, SectorsOf, StaysInCluster, Content, VolumeOk, FilOk, AllClusters, AtCluster;
      var rcnt := SS - fptr % SS;
      if rcnt > btr { rcnt := btr; }
      data := BufferBytes(rcnt);
      WithinSector(fs.geo, fptr, rcnt);
      Skip(rcnt);
    }

    /** Inside a sector the buffer is over the sector at the cursor. */
    lemma SectorUnderCursor()
      requires Valid() && fptr % SS != 0
      ensures fptr / SS < |SectorsOf(fs.geo, chain)| && sect == SectorsOf(fs.geo, chain)[fptr / SS]
    {
      hide VolumeOk, SectorsOf;
    }

    /** The direct transfer of f_read. */
    method DirectBytes(s: nat, cc: nat) returns (data: seq<byte>)
      requires Base() && fptr % SS == 0 && 0 < cc && fptr + cc * SS <= objsize
      requires fptr / SS % fs.geo.csize + cc <= fs.geo.csize
      requires fptr / SS < |SectorsOf(fs.geo, chain)| && s == SectorsOf(fs.geo, chain)[fptr / SS]
      ensures data == Content()[fptr..fptr + cc * SS]
    {
      hide FilOk, Media, SectorsOf, PowerOfTwo, VolumeOk, RunBytes, BytesOf, AllClusters;
      Facts();
      DirectRead(fs.geo, fs.View(), chain, Snapshot(), cc);
      RunElsewhere(fptr / SS, cc);
      data := ReadDirect(s, cc);
    }

    /** Move the cursor past bytes just transferred. */
    method Skip(n: nat)
      requires Inv(fptr) && StaysInCluster(fs.geo, fptr, n) && fptr + n <= objsize
      requires (fptr + n) % SS != 0 ==>
                 fptr / SS < |SectorsOf(fs.geo, chain)| && sect == SectorsOf(fs.geo, chain)[fptr / SS]
      modifies this`fptr
      ensures Valid() && SameData() && fptr == old(fptr) + n
    {
      hide FilOk, Media, SectorsOf, StaysInCluster, VolumeOk, AtCluster, AllClusters;
      Advanced(fs.geo, fs.View(), chain, SectorsOf(fs.geo, chain), Snapshot(), n, objsize);
      fptr := fptr + n;
    }

    lemma Facts()
      requires Base()
      ensures PowerOfTwo(fs.geo.csize) && fs.geo.database < |fs.disk| < U32 && fs.healthy
    {
      hide SectorsOf, FilOk, PowerOfTwo;
    }

    /** f_read: the bytes of the file from the cursor on, as many as asked for or left, whatever
        is still in the dirty buffer. Nothing the file holds changes. */
    method Read(btr: nat) returns (res: FResult, data: seq<byte>)
      requires Valid()
      modifies this`fptr, this`clust, this`sect, this`dirty, buf, fs`disk, fs`wflag, fs`winsect, fs.win
      ensures Valid() && SameData() && Content() == old(Content())
      ensures res == if canRead then Ok else Denied
      ensures |data| == if !canRead then 0 else if btr < objsize - old(fptr) then btr else objsize - old(fptr)
      ensures fptr == old(fptr) + |data|
      ensures data == Content()[old(fptr)..fptr]
      ensures Kept(fs.geo, old(fs.View()), old(fs.Fat()), old(chain), fs.View(), fs.Fat(), chain)
      ensures old(fs.Mirrored()) ==> fs.Mirrored()
    {
      hide VolumeOk, FilOk, SectorsOf, Area, AtCluster, Content, FatFs.Mirrored, FatFs.Fat, FatFs.Valid, AllClusters,
           Kept, FatFs.View;
      SameContent();
      NothingGrew();
      data := [];
      if !canRead { return Denied, data; }
      var n := objsize - fptr;
      if btr < n { n := btr; }
      ghost var content := Content();
      ghost var p := fptr;
      while n > 0
        invariant Valid() && SameData() && Content() == content && fs.Fat() == old(fs.Fat())
        invariant fptr == p + |data| && n >= 0 && fptr + n <= objsize == old(objsize)
        invariant n + |data| == if btr < objsize - p then btr else objsize - p
        invariant data == content[p..fptr]
        invariant old(fs.Mirrored()) ==> fs.Mirrored()
        decreases n
      {
        label Round:
        var chunk := ReadStep(n);
        SameContent@Round();
        JoinSlices(content, p, old@Round(fptr), fptr);
        data := data + chunk;
        n := n - |chunk|;
      }
      OthersSame();
      return Ok, data;
    }

    // ---------------------------------------------------------- writing

    /** The file keeps its size and cursor and the data area its contents; only its chain may
        have grown. */
    twostate predicate OnlyGrew()
      reads this, buf, fs, fs.win
      requires old(fs.Valid()) && fs.Valid()
    {
      && objsize == old(objsize) && fptr == old(fptr)
      && |fs.disk| == |old(fs.disk)| && Area() == old(Area())
      && Kept(fs.geo, old(fs.View()), old(fs.Fat()), old(chain), fs.View(), fs.Fat(), chain)
    }

    /** create_chain, seen from the file: the cluster at position q of its chain, `last` being
        the one before it. A first cluster becomes the start of the file. */
    method NextCluster(last: u32, ghost q: nat) returns (r: u32)
      requires Base() && q <= |chain| && if q == 0 then chain == [] && last == 0 else last == chain[q - 1]
      modifies this`sclust, this`chain
      modifies fs`disk, fs`wflag, fs`winsect, fs`lastClst, fs`freeClst, fs`fsiFlag, fs.win
      ensures Base() && OnlyGrew() && chain == GrownChain(old(chain), q, r)
      ensures r == 0 ==> Full(fs.Fat()) && q == |chain|
      ensures r != 0 ==> q < |chain| && chain[q] == r && r >= 2
      ensures Content() == old(Content())
      ensures old(fs.Mirrored()) ==> fs.Mirrored()
    {
      hide FatFs.View, FatFs.Outside, FatFs.Image, FatFs.Fat, FatFs.Mirrored, OffData, Clear;
      hide FilOk, Media, SectorsOf, IsChain, Good, CreateStep, Kept, PowerOfTwo, BytesOf, DataFits, Full, GrewByFree;
      ghost var d, st, w := fs.View(), State(fs), fs.winsect;
      var res := CreateChain(fs, last);
      ChainStep(fs.geo.fsType, st, sclust, chain, q, last, res, State(fs));
      if res == 1 || res == DISK_ERROR { assert false; }
      r := res;
      ghost var start, chain' := if sclust == 0 then r else sclust, GrownChain(chain, q, r);
      Stretched(fs.geo, st.fat, fs.Fat(), start, d, fs.View(), chain, chain', Snapshot());
      WindowStaysClear(fs.geo, st.fat, fs.Fat(), start, chain, chain', |fs.disk|, w, fs.winsect);
      if sclust == 0 { sclust := r; }
      chain := chain';
    }

    /** Follow or stretch the chain to the cluster of the byte at the cursor, on a sector
        boundary, and find its sector (the cluster part of f_write). */
    method FollowWrite() returns (ok: bool, s: nat, csect: nat)
      requires Valid() && fptr % SS == 0
      modifies this`clust, this`sclust, this`chain
      modifies fs`disk, fs`wflag, fs`winsect, fs`lastClst, fs`freeClst, fs`fsiFlag, fs.win
      ensures Base() && OnlyGrew() && Content() == old(Content())
      ensures !ok ==> Valid() && Full(fs.Fat())
      ensures ok ==> Inv(fptr) && csect == fptr / SS % fs.geo.csize
      ensures ok ==> fptr / SS < |SectorsOf(fs.geo, chain)| && s == SectorsOf(fs.geo, chain)[fptr / SS]
      ensures old(fs.Mirrored()) ==> fs.Mirrored()
    {
      hide VolumeOk, FilOk, Media, SectorsOf, Full, PowerOfTwo, BytesOf, FatFs.Mirrored, FatFs.Fat, Kept, FatFs.View;
      hide FatFs.Valid, AllClusters;
      Facts();
      StartOfChain();
      NothingGrew();
      AtWriteBoundary(fs.geo, fs.View(), chain, Snapshot());
      s, ok := 0, true;
      csect := fptr / SS % fs.geo.csize;
      var c := clust;
      if csect == 0 {
        if fptr == 0 {
          c := sclust;
          if c == 0 { c := NextCluster(0, 0); }
        } else {
          c := NextCluster(clust, fptr / SS / fs.geo.csize);
        }
        if c == 0 {
          ok := false;
          return;
        }
      }
      OnChain(fs.geo, fs.View(), chain, Snapshot());
      clust := c;
      s := fs.geo.database + fs.geo.csize * (clust - 2) + csect;
    }

    lemma StartOfChain()
      requires Base()
      ensures chain == [] <==> sclust == 0
      ensures chain != [] ==> chain[0] == sclust
    {
      hide FilOk, SectorsOf, Good;
    }

    twostate lemma NothingGrew()
      requires old(Base()) && Base() && chain == old(chain) && fs.View() == old(fs.View()) && fs.Fat() == old(fs.Fat())
      ensures Kept(fs.geo, old(fs.View()), old(fs.Fat()), old(chain), fs.View(), fs.Fat(), chain)
    {
      hide FilOk, SectorsOf, Good, VolumeOk;
    }

    /** The direct multi-sector transfer of f_write; a buffer over one of the sectors is
        refreshed. The dirty buffer was written back before. */
    method PutDirect(s: nat, data: seq<byte>, cc: nat)
      requires Inv(fptr) && !dirty && fptr % SS == 0 && fptr / SS < |SectorsOf(fs.geo, chain)|
      requires s == SectorsOf(fs.geo, chain)[fptr / SS]
      requires 0 < cc && fptr / SS % fs.geo.csize + cc <= fs.geo.csize && |data| == cc * SS && fptr + |data| < U32
      modifies this`fptr, this`objsize, this`dirty, buf, fs`disk
      ensures Valid() && fptr == old(fptr) + |data|
      ensures Content() == Splice(old(Content()), old(fptr), data)
      ensures Kept(fs.geo, old(fs.View()), old(fs.Fat()), old(chain), fs.View(), fs.Fat(), chain)
      ensures old(fs.Mirrored()) ==> fs.Mirrored()
    {
      hide Clear, FilOk, Media, SectorsOf, PowerOfTwo, BytesOf, Splice, FatFs.Mirrored, FatFs.Fat, FatFs.View;
      hide Good, IsChain, DataFits, AtCluster, WithRun, Untouched;
      DirectWrite(fs.geo, fs.View(), chain, Snapshot(), data, cc);
      RunElsewhere(fptr / SS, cc);
      WriteRun(fs, s, data, cc);
      Refresh(s, data, cc);
    }

    /** Refill the buffer if the direct write invalidated it, and move the cursor. */
    method Refresh(s: nat, data: seq<byte>, cc: nat)
      requires buf.Length == SS && !dirty && |data| == cc * SS && fptr + |data| < U32 && s + cc < U32
      modifies this`fptr, this`objsize, this`dirty, buf
      ensures buf[..] == if s <= sect < s + cc then SectorOfRun(data, sect - s) else old(buf[..])
      ensures !dirty && fptr == old(fptr) + |data| && objsize == Larger(old(objsize), fptr)
    {
      InRun(sect, s, cc, s + cc);
      if (sect + U32 - s) % U32 < cc {
        var j := (sect + U32 - s) % U32;
        forall i | 0 <= i < SS { buf[i] := data[j * SS + i]; }
        assert buf[..] == SectorOfRun(data, j);
        dirty := false;
      }
      fptr := fptr + |data|;
      if fptr > objsize { objsize := fptr; }
    }

    /** Copy bytes into the buffer over the sector at the cursor, filling it first if it holds
        another sector and the file has bytes there (the last part of f_write's loop). */
    method PutBuffer(s: nat, chunk: seq<byte>)
      requires Inv(fptr) && fptr / SS < |SectorsOf(fs.geo, chain)| && s == SectorsOf(fs.geo, chain)[fptr / SS]
      requires 0 < |chunk| <= SS - fptr % SS && fptr + |chunk| < U32
      requires if fptr % SS == 0 then !dirty else sect == s
      modifies this`fptr, this`objsize, this`sect, this`dirty, buf
      ensures Valid() && fptr == old(fptr) + |chunk|
      ensures Content() == Splice(old(Content()), old(fptr), chunk)
    {
      hide VolumeOk, FilOk, Media, SectorsOf, BytesOf, Splice, AtCluster, AllClusters, FatFs.Valid;
      ghost var f := Snapshot();
      if fptr % SS == 0 { AimBuffer(s); }
      BufferWrite(fs.geo, fs.View(), chain, SectorsOf(fs.geo, chain), f, buf[..], chunk);
      CopyIn(chunk);
    }

    /** The fill part: at the end of the file the buffer keeps whatever it held. */
    method AimBuffer(s: nat)
      requires Base() && !dirty && fptr % SS == 0 && s in SectorsOf(fs.geo, chain)
      modifies this`sect, buf
      ensures sect == s && s < |fs.disk| && (buf[..] == fs.View()[s] || fptr == objsize)
    {
      hide VolumeOk, FilOk, Media, SectorsOf, AllClusters;
      SectorOnDisk(s);
      if sect == s { BufferIsSector(s); }
      if sect != s && fptr < objsize {
        var ok, data := fs.DiskRead(s);
        forall i | 0 <= i < SS { buf[i] := data[i]; }
        assert buf[..] == data;
      }
      sect := s;
    }

    /** The copy part. */
    method CopyIn(chunk: seq<byte>)
      requires buf.Length == SS && 0 < |chunk| <= SS - fptr % SS && fptr + |chunk| < U32
      modifies this`fptr, this`objsize, this`dirty, buf
      ensures buf[..] == Poke(old(buf[..]), old(fptr) % SS, chunk) && dirty
      ensures fptr == old(fptr) + |chunk| && objsize == Larger(old(objsize), fptr)
    {
      var off := fptr % SS;
      forall i | 0 <= i < |chunk| { buf[off + i] := chunk[i]; }
      dirty := true;
      fptr := fptr + |chunk|;
      if fptr > objsize { objsize := fptr; }
    }

    lemma BufferIsSector(s: nat)
      requires Base() && !dirty && s in SectorsOf(fs.geo, chain) && sect == s
      ensures s < |fs.disk| && buf[..] == fs.View()[s]
    {
      hide SectorsOf, VolumeOk;
    }

    /** One round of f_write's loop; 0 if the volume is full. */
    method WriteStep(data: seq<byte>) returns (wcnt: nat)
      requires Valid() && 0 < |data| && fptr + |data| < U32
      modifies this, buf, fs`disk, fs`wflag, fs`winsect, fs`lastClst, fs`freeClst, fs`fsiFlag, fs.win
      ensures Valid() && wcnt <= |data| && fptr == old(fptr) + wcnt
      ensures Content() == Splice(old(Content()), old(fptr), data[..wcnt])
      ensures wcnt == 0 ==> Full(fs.Fat())
      ensures Kept(fs.geo, old(fs.View()), old(fs.Fat()), old(chain), fs.View(), fs.Fat(), chain)
      ensures old(fs.Mirrored()) ==> fs.Mirrored()
    {
      hide VolumeOk, FilOk, Area, SectorsOf, Content, FatFs.Mirrored, FatFs.Fat, AtCluster, Kept, Full, Splice,
           AllClusters, FatFs.View;
      if fptr % SS == 0 {
        wcnt := WriteAtBoundary(data);
      } else {
        InsideSector(fs.geo, chain, clust, fptr);
        SectorUnderCursor();
        wcnt := SS - fptr % SS;
        if wcnt > |data| { wcnt := |data|; }
        NothingGrew();
        PutBuffer(sect, data[..wcnt]);
      }
    }

    method WriteAtBoundary(data: seq<byte>) returns (wcnt: nat)
      requires Valid() && 0 < |data| && fptr + |data| < U32 && fptr % SS == 0
      modifies this, buf, fs`disk, fs`wflag, fs`winsect, fs`lastClst, fs`freeClst, fs`fsiFlag, fs.win
      ensures Valid() && wcnt <= |data| && fptr == old(fptr) + wcnt
      ensures Content() == Splice(old(Content()), old(fptr), data[..wcnt])
      ensures wcnt == 0 ==> Full(fs.Fat())
      ensures Kept(fs.geo, old(fs.View()), old(fs.Fat()), old(chain), fs.View(), fs.Fat(), chain)
      ensures old(fs.Mirrored()) ==> fs.Mirrored()
    {
      hide VolumeOk, FilOk, Area, SectorsOf, Content, FatFs.Mirrored, FatFs.Fat, AtCluster, Kept, Full, Splice,
           AllClusters, FatFs.View;
      ghost var d0, fat0, c0 := fs.View(), fs.Fat(), chain;
      var ok, s, csect := FollowWrite();
      if !ok {
        SpliceNothing(Content(), fptr);
        return 0;
      }
      ghost var d1, fat1 := fs.View(), fs.Fat();
      label Flushing:
      Flush();
      SameContent@Flushing();
      NoRepeats();
      KeptTransitive(fs.geo, d0, fat0, c0, d1, fat1, chain, fs.View(), fs.Fat(), chain);
      ghost var d2, fat2 := fs.View(), fs.Fat();
      wcnt := PutAtBoundary(s, csect, data);
      NoRepeats();
      KeptTransitive(fs.geo, d0, fat0, c0, d2, fat2, chain, fs.View(), fs.Fat(), chain);
    }

    /** Whole sectors directly, or the start of the next sector into the buffer. */
    method PutAtBoundary(s: nat, csect: nat, data: seq<byte>) returns (wcnt: nat)
      requires Inv(fptr) && !dirty && 0 < |data| && fptr + |data| < U32 && fptr % SS == 0
      requires csect == fptr / SS % fs.geo.csize
      requires fptr / SS < |SectorsOf(fs.geo, chain)| && s == SectorsOf(fs.geo, chain)[fptr / SS]
      modifies this`fptr, this`objsize, this`sect, this`dirty, buf, fs`disk
      ensures Valid() && 0 < wcnt <= |data| && fptr == old(fptr) + wcnt
      ensures Content() == Splice(old(Content()), old(fptr), data[..wcnt])
      ensures Kept(fs.geo, old(fs.View()), old(fs.Fat()), old(chain), fs.View(), fs.Fat(), chain)
      ensures old(fs.Mirrored()) ==> fs.Mirrored()
    {
      hide VolumeOk, FilOk, Area, SectorsOf, Content, FatFs.Mirrored, FatFs.Fat, AtCluster, Kept, Splice, AllClusters,
           FatFs.View;
      var cc := |data| / SS;
      if cc > 0 {
        if csect + cc > fs.geo.csize { cc := fs.geo.csize - csect; }
        wcnt := cc * SS;
        PutDirect(s, data[..wcnt], cc);
      } else {
        wcnt := |data|;
        NothingGrew();
        PutBuffer(s, data[..wcnt]);
      }
    }

    lemma NoRepeats()
      requires Base()
      ensures NoDup(chain)
    {
      hide FilOk, SectorsOf, Good, NoDup;
      ChainNoDup(fs.Fat(), sclust, chain);
    }

    /** f_write: the bytes land at the cursor, all others stay; short of what was asked only if
        the file reaches the 4 GiB limit or the volume is full. Other files are not touched. */
    method Write(data: seq<byte>) returns (res: FResult, bw: nat)
      requires Valid() && |data| < U32
      modifies this, buf, fs`disk, fs`wflag, fs`winsect, fs`lastClst, fs`freeClst, fs`fsiFlag, fs.win
      ensures Valid() && res == if canWrite then Ok else Denied
      ensures bw <= |data| && fptr == old(fptr) + bw
      ensures Content() == Splice(old(Content()), old(fptr), data[..bw])
      ensures canWrite && bw < |data| && fptr < U32 - 1 ==> Full(fs.Fat())
      ensures !canWrite ==> bw == 0
      ensures Kept(fs.geo, old(fs.View()), old(fs.Fat()), old(chain), fs.View(), fs.Fat(), chain)
      ensures old(fs.Mirrored()) ==> fs.Mirrored()
    {
      hide VolumeOk, FilOk, Area, SectorsOf, Content, FatFs.Mirrored, FatFs.Fat, AtCluster, Kept, Full, Splice,
           AllClusters, FatFs.View;
      bw := 0;
      ghost var content, p := Content(), fptr;
      ghost var d0, fat0, c0 := fs.View(), fs.Fat(), chain;
      SpliceNothing(content, p);
      NothingGrew();
      if !canWrite { return Denied, 0; }
      var btw := |data|;
      if (fptr + btw) % U32 < fptr { btw := 0xFFFF_FFFF - fptr; }
      while bw < btw
        invariant Valid() && bw <= btw <= |data| && fptr == p + bw && p + btw < U32
        invariant Content() == Splice(content, p, data[..bw])
        invariant Kept(fs.geo, d0, fat0, c0, fs.View(), fs.Fat(), chain)
        invariant old(fs.Mirrored()) ==> fs.Mirrored()
      {
        ghost var d1, fat1, c1 := fs.View(), fs.Fat(), chain;
        var wcnt := WriteStep(data[bw..btw]);
        NoRepeats();
        KeptTransitive(fs.geo, d0, fat0, c0, d1, fat1, c1, fs.View(), fs.Fat(), chain);
        WroteMore(content, p, data, bw, btw, wcnt);
        if wcnt == 0 { break; }
        bw := bw + wcnt;
      }
      modified := true;
      return Ok, bw;
    }

    // ---------------------------------------------------------- seeking

    /** Where f_lseek starts following the chain to reach byte t: the current cluster if t is
        not before it, else the first one, which is created for an empty file. */
    method SeekStart(t: nat) returns (pos: nat, c: nat, ghost i: nat)
      requires Valid() && 0 < t
      modifies this`fptr, this`clust, this`sclust, this`chain
      modifies fs`disk, fs`wflag, fs`winsect, fs`lastClst, fs`freeClst, fs`fsiFlag, fs.win
      ensures Base() && fptr == 0 && objsize == old(objsize) && Content() == old(Content())
      ensures Kept(fs.geo, old(fs.View()), old(fs.Fat()), old(chain), fs.View(), fs.Fat(), chain)
      ensures t <= objsize ==> c != 0 && chain == old(chain)
      ensures c == 0 ==> Full(fs.Fat()) && chain == old(chain) && objsize == 0
      ensures c != 0 ==> i < |chain| && c == chain[i] == clust && pos == i * (fs.geo.csize * SS) < t
      ensures old(fs.Mirrored()) ==> fs.Mirrored()
    {
      hide VolumeOk, FilOk, SectorsOf, Content, FatFs.Mirrored, FatFs.Fat, Kept, Full, PowerOfTwo, FatFs.Valid,
           FatFs.View;
      Facts();
      NothingGrew();
      StartOfChain();
      var bcs := fs.geo.csize * SS;
      var ifptr := fptr;
      Rewind();
      pos, i := 0, 0;
      if ifptr > 0 && (t - 1) / bcs >= (ifptr - 1) / bcs {
        DivideTwice(fs.geo.csize, ifptr - 1);
        FloorOf(bcs, ifptr - 1, t - 1);
        pos := (ifptr - 1) / bcs * bcs;
        i := (ifptr - 1) / bcs;
        c := clust;
      } else {
        c := sclust;
        if c == 0 {
          NonEmptyHasChain();
          c := NextCluster(0, 0);
        }
        Point(c);
      }
    }

    /** fptr = 0. */
    method Rewind()
      requires Base()
      modifies this`fptr
      ensures Base() && fptr == 0 && Content() == old(Content())
    {
      hide VolumeOk, SectorsOf, BytesOf;
      fptr := 0;
      assert Media(fs.View(), Snapshot()) == old(Media(fs.View(), Snapshot()));
    }

    /** Make c the current cluster. */
    method Point(c: u32)
      requires Base()
      modifies this`clust
      ensures Base() && clust == c && Content() == old(Content())
    {
      hide VolumeOk, SectorsOf, BytesOf, FilOk, Media;
      Retarget(fs.geo, fs.View(), SectorsOf(fs.geo, chain), Snapshot(), c);
      clust := c;
    }

    lemma NonEmptyHasChain()
      requires Base() && chain == []
      ensures objsize == 0
    {
      hide VolumeOk, SectorsOf;
    }

    /** The cluster-following loop of f_lseek, which stretches the chain of a writable file. It
        stops at byte e, counted from 1, of cluster i: the byte before position t, or the last
        byte of the last cluster there is room for. */
    method SeekAlong(t: nat, pos0: nat, c0: nat, ghost i0: nat) returns (p: nat, ofs: nat, ghost e: nat, ghost i: nat)
      requires Base() && fptr == 0 && (t <= objsize || canWrite) && t < U32
      requires i0 < |chain| && c0 == chain[i0] == clust && pos0 == i0 * (fs.geo.csize * SS) < t
      modifies this`clust, this`sclust, this`chain
      modifies fs`disk, fs`wflag, fs`winsect, fs`lastClst, fs`freeClst, fs`fsiFlag, fs.win
      ensures Base() && fptr == 0 && objsize == old(objsize) && Content() == old(Content())
      ensures Kept(fs.geo, old(fs.View()), old(fs.Fat()), old(chain), fs.View(), fs.Fat(), chain)
      ensures t <= objsize ==> chain == old(chain)
      ensures i < |chain| && chain[i] == clust && 0 < e <= fs.geo.csize * SS
      ensures p == i * (fs.geo.csize * SS) + e <= t && ofs % SS == e % SS && (ofs != 0 ==> ofs == e)
      ensures p < t ==> t > objsize && Full(fs.Fat()) && objsize <= p
      ensures old(fs.Mirrored()) ==> fs.Mirrored()
    {
      hide VolumeOk, FilOk, SectorsOf, Content, FatFs.Mirrored, FatFs.Fat, Kept, Full, PowerOfTwo, FatFs.Valid,
           AllClusters, FatFs.View;
      ghost var d0, fat0, ch0, content := fs.View(), fs.Fat(), chain, Content();
      NothingGrew();
      var bcs := fs.geo.csize * SS;
      var c := c0;
      i, p, ofs := i0, pos0, t - pos0;
      while ofs > bcs
        invariant Base() && fptr == 0 && objsize == old(objsize) && Content() == content
        invariant i < |chain| && c == chain[i] == clust && p == i * bcs && p + ofs == t && 0 < ofs
        invariant t <= objsize ==> chain == ch0
        invariant Kept(fs.geo, d0, fat0, ch0, fs.View(), fs.Fat(), chain)
        invariant old(fs.Mirrored()) ==> fs.Mirrored()
        decreases ofs
      {
        ghost var d1, fat1, ch1 := fs.View(), fs.Fat(), chain;
        NextBase(bcs, i);
        var r := SeekNext(t, c, i);
        NoRepeats();
        KeptTransitive(fs.geo, d0, fat0, ch0, d1, fat1, ch1, fs.View(), fs.Fat(), chain);
        ofs, p := ofs - bcs, p + bcs;
        if r == 0 {
          SizeBound();
          ofs, e := 0, bcs;
          return;
        }
        c, i := r, i + 1;
      }
      e := ofs;
      p := p + ofs;
    }

    /** One step of that loop: the next cluster, stretching the chain of a writable file, and 0
        if the volume is full. */
    method SeekNext(t: nat, c: u32, ghost i: nat) returns (r: u32)
      requires Base() && fptr == 0 && (t <= objsize || canWrite)
      requires i < |chain| && c == chain[i] == clust && i * (fs.geo.csize * SS) + fs.geo.csize * SS < t
      modifies this`clust, this`sclust, this`chain
      modifies fs`disk, fs`wflag, fs`winsect, fs`lastClst, fs`freeClst, fs`fsiFlag, fs.win
      ensures Base() && Content() == old(Content())
      ensures Kept(fs.geo, old(fs.View()), old(fs.Fat()), old(chain), fs.View(), fs.Fat(), chain)
      ensures t <= objsize ==> chain == old(chain)
      ensures r == 0 ==> t > objsize && Full(fs.Fat()) && chain == old(chain) && clust == c && |chain| == i + 1
      ensures r != 0 ==> i + 1 < |chain| && chain[i + 1] == r == clust
      ensures old(fs.Mirrored()) ==> fs.Mirrored()
    {
      hide VolumeOk, FilOk, SectorsOf, Content, FatFs.Mirrored, FatFs.Fat, Kept, Full, PowerOfTwo, FatFs.Valid,
           FatFs.View;
      NothingGrew();
      if t <= objsize { ClustersFor(t, i); LinkAt(i); }
      if canWrite {
        r := NextCluster(c, i + 1);
        if r == 0 { return; }
      } else {
        var v := Entry(c);
        SameContent();
        if v <= 1 || v >= fs.geo.nFatent { assert false; }
        r := v;
      }
      Point(r);
    }

    lemma SizeBound()
      requires Base()
      ensures objsize <= |chain| * (fs.geo.csize * SS)
    {
      hide VolumeOk, SectorsOf;
      Regroup(|chain|, fs.geo.csize);
    }

    lemma ClustersFor(t: nat, i: nat)
      requires Base() && t <= objsize && i * (fs.geo.csize * SS) + fs.geo.csize * SS < t
      ensures i + 1 < |chain|
    {
      hide VolumeOk, SectorsOf;
      assert |SectorsOf(fs.geo, chain)| == |chain| * fs.geo.csize;
      MoreClusters(fs.geo.csize, |chain|, i, t);
    }

    lemma LinkAt(i: nat)
      requires Base() && i + 1 < |chain|
      ensures InRange(fs.Fat(), chain[i]) && fs.Fat()[chain[i]] == chain[i + 1] && InRange(fs.Fat(), chain[i + 1])
    {
      hide FilOk, SectorsOf, Good;
    }

    /** f_lseek: the cursor moves to `ofs`, clipped to the size of a file that is not writable.
        Past the end of a writable file the chain is stretched and the file grows; if the volume
        is full the cursor stops where the room ends. What the file held it still holds. */
    method Lseek(ofs: u32) returns (res: FResult)
      requires Valid()
      modifies this, buf, fs`disk, fs`wflag, fs`winsect, fs`lastClst, fs`freeClst, fs`fsiFlag, fs.win
      ensures Valid() && res == Ok
      ensures fptr <= ofs
      ensures ofs <= old(objsize) ==> fptr == ofs && chain == old(chain)
      ensures ofs > old(objsize) && !canWrite ==> fptr == old(objsize) && chain == old(chain)
      ensures ofs > old(objsize) ==> fptr >= old(objsize)
      ensures ofs > old(objsize) && canWrite && fptr < ofs ==> Full(fs.Fat())
      ensures objsize == Larger(old(objsize), fptr)
      ensures Content()[..old(objsize)] == old(Content())
      ensures Kept(fs.geo, old(fs.View()), old(fs.Fat()), old(chain), fs.View(), fs.Fat(), chain)
      ensures old(fs.Mirrored()) ==> fs.Mirrored()
    {
      hide VolumeOk, FilOk, SectorsOf, Content, FatFs.Mirrored, FatFs.Fat, Kept, Full, PowerOfTwo, FatFs.Valid,
           AllClusters, AtCluster, FatFs.View;
      ghost var d0, fat0, ch0, content := fs.View(), fs.Fat(), chain, Content();
      NothingGrew();
      res := Ok;
      var t := ofs;
      if ofs > objsize && !canWrite { t := objsize; }
      if t == 0 {
        ToStart();
        return;
      }
      var pos, c, i := SeekStart(t);
      if c == 0 {
        ToStart();
        return;
      }
      ghost var d1, fat1, ch1 := fs.View(), fs.Fat(), chain;
      var p, o, e, j := SeekAlong(t, pos, c, i);
      NoRepeats();
      KeptTransitive(fs.geo, d0, fat0, ch0, d1, fat1, ch1, fs.View(), fs.Fat(), chain);
      ghost var d2, fat2, ch2 := fs.View(), fs.Fat(), chain;
      Land(p, o, e, j);
      NoRepeats();
      KeptTransitive(fs.geo, d0, fat0, ch0, d2, fat2, ch2, fs.View(), fs.Fat(), chain);
    }

    /** The end of f_lseek: refill the buffer if the cursor is inside a sector, let the file grow
        up to the cursor. */
    method Land(p: nat, ofs: nat, ghost e: nat, ghost i: nat)
      requires Base() && fptr == 0 && i < |chain| && clust == chain[i] && 0 < e <= fs.geo.csize * SS
      requires p == i * (fs.geo.csize * SS) + e < U32 && ofs % SS == e % SS && (ofs != 0 ==> ofs == e)
      modifies this`fptr, this`objsize, this`sect, this`dirty, this`modified, buf, fs`disk
      ensures Valid() && fptr == p && objsize == Larger(old(objsize), p)
      ensures Content()[..old(objsize)] == old(Content()) && fs.Fat() == old(fs.Fat())
      ensures Kept(fs.geo, old(fs.View()), old(fs.Fat()), chain, fs.View(), fs.Fat(), chain)
      ensures old(fs.Mirrored()) ==> fs.Mirrored()
    {
      hide VolumeOk, FilOk, SectorsOf, BytesOf, Media, FatFs.Mirrored, FatFs.Fat, Kept, PowerOfTwo, FatFs.Valid,
           AllClusters, AtCluster, FatFs.View;
      Facts();
      NothingGrew();
      if ofs % SS != 0 {
        var nsect := fs.geo.database + fs.geo.csize * (clust - 2) + ofs / SS;
        SeekSector(i, e);
        Load(nsect);
        SameContent();
      }
      Landed(fs.geo, fs.View(), chain, Snapshot(), i, e);
      fptr := p;
      if p > objsize {
        objsize := p;
        modified := true;
      }
    }

    lemma SeekSector(i: nat, e: nat)
      requires Base() && i < |chain| && 0 < e <= fs.geo.csize * SS && e % SS != 0
      ensures chain[i] >= 2 && FirstSector(fs.geo, chain[i]) + e / SS in SectorsOf(fs.geo, chain)
    {
      hide VolumeOk, FilOk, SectorsOf, PowerOfTwo;
      Facts();
      var p := i * (fs.geo.csize * SS) + e;
      Landing(fs.geo.csize, i, e);
      SeekInside(fs.geo, chain, i, e);
      SectorAt(fs.geo, chain, p / SS);
      assert SectorsOf(fs.geo, chain)[p / SS] == FirstSector(fs.geo, chain[i]) + e / SS;
    }

    method ToStart()
      requires Base()
      modifies this`fptr
      ensures Valid() && fptr == 0 && Content() == old(Content())
    {
      hide VolumeOk, FilOk, SectorsOf, Content;
      Rewind();
    }

    // ---------------------------------------------------------- whole sessions

    /** A volume without a free cluster stays so. */
    twostate lemma StaysFull()
      requires old(Base()) && Base()
      requires Kept(fs.geo, old(fs.View()), old(fs.Fat()), old(chain), fs.View(), fs.Fat(), chain)
      ensures old(Full(fs.Fat())) ==> Full(fs.Fat())
    {
      hide FilOk, SectorsOf, Good, Untouched, Clear, FatFs.View, FatFs.Fat;
      forall i | 0 <= i < |chain| ensures fs.Fat()[chain[i]] != 0 { InUse(fs.Fat(), sclust, chain, i); }
    }

    /** Whatever was done to this file, any other file of the volume has its chain and its bytes. */
    twostate lemma OtherFile(o: nat, other: seq<nat>, n: nat)
      requires old(Base()) && Base()
      requires Kept(fs.geo, old(fs.View()), old(fs.Fat()), old(chain), fs.View(), fs.Fat(), chain)
      requires old(IsHead(fs.Fat(), sclust) && IsChain(fs.Fat(), o, other) && IsHead(fs.Fat(), o)) && o != old(sclust)
      requires n <= |other| * fs.geo.csize * SS
      ensures IsChain(fs.Fat(), o, other) && AllClusters(other)
      ensures OnDisk(old(fs.View()), SectorsOf(fs.geo, other)) && OnDisk(fs.View(), SectorsOf(fs.geo, other))
      ensures BytesOf(fs.View(), SectorsOf(fs.geo, other), n) == BytesOf(old(fs.View()), SectorsOf(fs.geo, other), n)
    {
      hide FilOk, SectorsOf, Clear, FatFs.View, FatFs.Fat, IsHead, IsChain, Kept, PowerOfTwo, BytesOf;
      OtherFileKept(fs.geo, old(fs.View()), old(fs.Fat()), old(sclust), old(chain), fs.View(), fs.Fat(), chain, o,
        other, n);
    }

    /** Any sequence of calls on one read/write handle behaves as it would on a plain byte
        sequence with a cursor: `trace` lists that sequence before and after each call. */
    method Session(calls: seq<FileCall>) returns (outs: seq<FileOut>, ghost trace: seq<PlainFile>)
      requires Valid() && canRead && canWrite
      requires forall k :: 0 <= k < |calls| && calls[k].WriteCall? ==> |calls[k].data| < U32
      modifies this, buf, fs`disk, fs`wflag, fs`winsect, fs`lastClst, fs`freeClst, fs`fsiFlag, fs.win
      ensures Valid() && |outs| == |calls| && |trace| == |calls| + 1
      ensures trace[0] == old(PlainFile(Content(), fptr, Full(fs.Fat())))
      ensures trace[|calls|] == PlainFile(Content(), fptr, Full(fs.Fat()))
      ensures forall k :: 0 <= k < |calls| ==> PlainStep(trace[k], calls[k], outs[k], trace[k + 1])
      ensures Kept(fs.geo, old(fs.View()), old(fs.Fat()), old(chain), fs.View(), fs.Fat(), chain)
    {
      hide VolumeOk, FilOk, SectorsOf, Content, FatFs.Mirrored, FatFs.Fat, Kept, Full, FatFs.Valid, AllClusters,
           AtCluster, Splice, FatFs.View;
      ghost var d0, fat0, ch0 := fs.View(), fs.Fat(), chain;
      NothingGrew();
      outs, trace := [], [PlainFile(Content(), fptr, Full(fs.Fat()))];
      while |outs| < |calls|
        invariant Valid() && |outs| <= |calls| && |trace| == |outs| + 1
        invariant trace[0] == old(PlainFile(Content(), fptr, Full(fs.Fat())))
        invariant trace[|outs|] == PlainFile(Content(), fptr, Full(fs.Fat()))
        invariant forall k :: 0 <= k < |outs| ==> PlainStep(trace[k], calls[k], outs[k], trace[k + 1])
        invariant Kept(fs.geo, d0, fat0, ch0, fs.View(), fs.Fat(), chain)
      {
        ghost var d1, fat1, ch1 := fs.View(), fs.Fat(), chain;
        var out := Perform(calls[|outs|]);
        NoRepeats();
        KeptTransitive(fs.geo, d0, fat0, ch0, d1, fat1, ch1, fs.View(), fs.Fat(), chain);
        outs, trace := outs + [out], trace + [PlainFile(Content(), fptr, Full(fs.Fat()))];
      }
    }

    method Perform(call: FileCall) returns (out: FileOut)
      requires Valid() && canRead && canWrite && (call.WriteCall? ==> |call.data| < U32)
      modifies this, buf, fs`disk, fs`wflag, fs`winsect, fs`lastClst, fs`freeClst, fs`fsiFlag, fs.win
      ensures Valid()
      ensures PlainStep(old(PlainFile(Content(), fptr, Full(fs.Fat()))), call, out,
                        PlainFile(Content(), fptr, Full(fs.Fat())))
      ensures Kept(fs.geo, old(fs.View()), old(fs.Fat()), old(chain), fs.View(), fs.Fat(), chain)
    {
      hide VolumeOk, FilOk, SectorsOf, Content, FatFs.Mirrored, FatFs.Fat, Kept, Full, FatFs.Valid, AllClusters,
           AtCluster, Splice, FatFs.View;
      match call {
        case ReadCall(n) =>
          var res, data := Read(n);
          out := FileOut(data, |data|);
        case WriteCall(data) =>
          var res, bw := Write(data);
          out := FileOut([], bw);
        case SeekCall(ofs) =>
          var res := Lseek(ofs);
          out := FileOut([], fptr);
      }
      StaysFull();
    }
  }
}
