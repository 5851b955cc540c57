/** The one-sector write-back window of a FatFs volume over its disk. */
module FatWindow {
  import opened FatEntries
  import opened FatGeometry

  /** The unsigned 32-bit test winsect - fatbase < fsize is membership in the first FAT. */
  lemma FirstFatTest(g: Geometry, sectors: nat, w: nat)
    requires ValidGeometry(g, sectors) && w < U32
    ensures (w + U32 - g.fatbase) % U32 < g.fsize <==> InFirstFat(g, w)
  {
    assert g.fatbase + g.fsize < U32;
  }

  /** Sector w is not in the data area. */
  predicate OffData(g: Geometry, sectors: nat, w: nat) { w < g.database || w >= sectors }

  /** With two FATs, every sector of the first but `skip` equals its copy. */
  ghost predicate CopiesAgree(g: Geometry, d: seq<Sector>, skip: int)
    requires ValidGeometry(g, |d|)
  {
    g.nFats == 2 ==>
      forall s: nat {:trigger InFirstFat(g, s)} :: InFirstFat(g, s) && s != skip ==> d[s] == d[s + g.fsize]
  }

  /** Writing a sector and its copy, or a sector outside both FATs, leaves the copies equal. */
  lemma WriteKeepsCopies(g: Geometry, d: seq<Sector>, w: nat, x: Sector, d': seq<Sector>)
    requires ValidGeometry(g, |d|) && w < |d| && !InMirror(g, w) && CopiesAgree(g, d, w)
    requires d' == if InFirstFat(g, w) && g.nFats == 2 then d[w := x][w + g.fsize := x] else d[w := x]
    ensures CopiesAgree(g, d', -1)
  {
  }

  /** A mounted volume (FATFS) together with the device under it. */
  class FatFs {
    const geo: Geometry
    /** A healthy device never fails; one that is not may fail any transfer. */
    const healthy: bool

    var disk: seq<Sector>

    // the disk access window
    const win: array<byte>
    var winsect: u32
    var wflag: bool

    // allocation hints; a count above nFatent - 2 means "unknown"
    var lastClst: u32
    var freeClst: u32
    var fsiFlag: nat

    ghost predicate Valid()
      reads this`disk, this`winsect, this`wflag, win
    {
      && ValidGeometry(geo, |disk|)
      && win.Length == SS
      && (wflag ==> winsect < |disk|)
      && (!wflag && winsect < |disk| ==> win[..] == disk[winsect])
    }

    /** What the file system sees: the disk with the window laid over it. */
    ghost function View(): (v: seq<Sector>)
      reads this`disk, this`winsect, win
      ensures |v| == |disk|
    {
      if winsect < |disk| && win.Length == SS then disk[winsect := win[..]] else disk
    }

    /** The two FAT copies agree, except at a window sector of the first FAT that is not
        yet written back. */
    ghost predicate Mirrored()
      reads this`disk, this`winsect, this`wflag
    {
      && ValidGeometry(geo, |disk|)
      && !(wflag && InMirror(geo, winsect))
      && CopiesAgree(geo, disk, if wflag then winsect else -1)
    }

    /** What the view holds outside the FAT area. */
    ghost function Outside(): (seq<Sector>, seq<Sector>)
      reads this`disk, this`winsect, this`wflag, win
      requires Valid()
    {
      (View()[..geo.fatbase], View()[geo.fatbase + FatArea(geo)..])
    }

    /** The bytes of the first FAT. */
    ghost function Image(): (b: seq<byte>)
      reads this`disk, this`winsect, this`wflag, win
      requires Valid()
      ensures |b| == geo.fsize * SS
    {
      FatImage(View(), geo)
    }

    /** The whole table as get_fat reports it. */
    ghost function Fat(): (f: seq<nat>)
      reads this`disk, this`winsect, this`wflag, win
      requires Valid()
      ensures |f| == geo.nFatent && forall c :: 0 <= c < |f| ==> f[c] < EntryRange(geo.fsType)
    {
      Entries(geo.fsType, Image(), geo.nFatent)
    }

    /** A step that may store into the FAT and changes nothing else the volume holds. The window
        stays where it is or leaves the data area; on a healthy device the FAT copies stay in
        agreement. */
    twostate predicate OnlyStoredFat()
      reads this`disk, this`winsect, this`wflag, win
      requires old(Valid())
    {
      && Valid() && |disk| == |old(disk)|
      && Outside() == old(Outside())
      && (healthy && old(Mirrored()) ==> Mirrored())
      && (winsect == old(winsect) || OffData(geo, |disk|, winsect))
      && View()[geo.database..] == old(View()[geo.database..])
    }

    /** A step that moves the window about but leaves what the volume holds alone. */
    twostate predicate OnlyMovedWindow()
      reads this`disk, this`winsect, this`wflag, win
      requires old(Valid())
    {
      OnlyStoredFat() && Image() == old(Image()) && Fat() == old(Fat())
    }

    /** A freshly mounted volume: nothing cached, window invalid. */
    constructor (geo: Geometry, disk: seq<Sector>, healthy: bool, lastClst: u32, freeClst: u32)
      requires ValidGeometry(geo, |disk|)
      ensures Valid() && this.geo == geo && this.disk == disk && this.healthy == healthy
      ensures !wflag && winsect >= |disk| && fresh(win)
      ensures this.lastClst == lastClst && this.freeClst == freeClst
    {
      this.geo := geo;
      this.disk := disk;
      this.healthy := healthy;
      win := new byte[SS](_ => 0);
      winsect := U32 - 1;
      wflag := false;
      this.lastClst := lastClst;
      this.freeClst := freeClst;
      fsiFlag := 0;
    }

    /** disk_read of one sector. Reading past the end of the device fails. */
    method DiskRead(sect: nat) returns (ok: bool, data: Sector)
      ensures ok ==> sect < |disk| && data == disk[sect]
      ensures healthy && sect < |disk| ==> ok
    {
      data := *;
      if sect >= |disk| { return false, data; }
      ok := *;
      if healthy { ok := true; }
      if ok { data := disk[sect]; }
    }

    /** disk_write of one sector. A failed write leaves the sector with unknown contents. */
    method DiskWrite(sect: nat, data: Sector) returns (ok: bool)
      modifies this`disk
      ensures |disk| == |old(disk)|
      ensures ok ==> sect < |disk| && disk == old(disk)[sect := data]
      ensures forall s :: 0 <= s < |disk| && s != sect ==> disk[s] == old(disk[s])
      ensures healthy && sect < |disk| ==> ok
    {
      if sect >= |disk| { return false; }
      ok := *;
      if healthy { ok := true; }
      if ok {
        disk := disk[sect := data];
      } else {
        var torn: Sector := *;
        disk := disk[sect := torn];
      }
    }

    /** sync_window: write a dirty window back and reflect it to the second FAT. */
    method SyncWindow() returns (res: FResult)
      requires Valid()
      modifies this`disk, this`wflag
      ensures Valid() && |disk| == |old(disk)|
      ensures res == Ok || res == DiskErr
      ensures res == Ok ==> !wflag
      ensures res == DiskErr ==> wflag && !healthy
      ensures SameVolume(geo, old(View()), View())
      ensures healthy && old(Mirrored()) ==> Mirrored()
    {
      res := Ok;
      if wflag {
        ghost var before, data := disk, win[..];
        var ok := DiskWrite(winsect, win[..]);
        if ok {
          wflag := false;
          FirstFatTest(geo, |disk|, winsect);
          if (winsect + U32 - geo.fatbase) % U32 < geo.fsize {
            if geo.nFats == 2 {
              var _ := DiskWrite(winsect + geo.fsize, win[..]);
            }
          }
          if healthy && !InMirror(geo, winsect) && CopiesAgree(geo, before, winsect) {
            WriteKeepsCopies(geo, before, winsect, data, disk);
          }
        } else {
          res := DiskErr;
        }
      }
    }

    /** move_window: bring a sector into the window. */
    method MoveWindow(sect: nat) returns (res: FResult)
      requires Valid() && sect < U32
      modifies this`disk, this`wflag, this`winsect, win
      ensures Valid() && |disk| == |old(disk)|
      ensures res == Ok || res == DiskErr
      ensures res == Ok ==> winsect == sect && (sect < |disk| || winsect == old(winsect))
      ensures res == DiskErr ==> !healthy || sect >= |disk|
      ensures SameVolume(geo, old(View()), View())
      ensures healthy && old(Mirrored()) ==> Mirrored()
      ensures winsect == old(winsect) || winsect == sect || winsect >= |disk|
      ensures sect == old(winsect) ==> wflag == old(wflag) && disk == old(disk) && win[..] == old(win[..])
    {
      res := Ok;
      if sect != winsect {
        res := SyncWindow();
        if res == Ok {
          var ok, data := DiskRead(sect);
          forall i | 0 <= i < SS { win[i] := data[i]; }
          assert win[..] == data;
          winsect := sect;
          if !ok {
            winsect := U32 - 1;
            res := DiskErr;
          }
        }
      }
    }
  }
}
