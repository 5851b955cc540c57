/** create_chain and remove_chain over the FAT of a volume. */
module FatChain {
  import opened FatEntries
  import opened FatGeometry
  import opened FatWindow
  import opened FatTable
  import opened FatAlloc

  /** The allocation state of a volume. */
  ghost function State(fs: FatFs): (s: Alloc)
    reads fs, fs.win
    requires fs.Valid()
    ensures |s.fat| == fs.geo.nFatent
  {
    Alloc(fs.Fat(), fs.lastClst, fs.freeClst)
  }

  /** The wrap-around search of create_chain from `scl`: 0 if the table is full, 1 or DISK_ERROR
      on an error, else the first free cluster after `scl`. */
  method FindFree(fs: FatFs, scl: nat) returns (ncl: nat)
    requires fs.Valid() && 1 <= scl < fs.geo.nFatent
    modifies fs`disk, fs`wflag, fs`winsect, fs.win
    ensures fs.OnlyMovedWindow()
    ensures ncl == DISK_ERROR ==> !fs.healthy
    ensures ncl == 0 ==> forall c: nat :: InRange(fs.Fat(), c) ==> fs.Fat()[c] != 0
    ensures ncl == 1 ==> exists c: nat :: InRange(fs.Fat(), c) && fs.Fat()[c] == 1
    ensures ncl >= 2 && ncl != DISK_ERROR ==> FirstFreeAfter(fs.Fat(), scl, ncl)
  {
    hide FatFs.View, FatFs.Outside, FatFs.Image, FatFs.Mirrored, FatFs.Fat, OffData, PowerOfTwo;
    var n := fs.geo.nFatent;
    ghost var fat := fs.Fat();
    ncl := scl;
    ghost var wrapped := false;
    while true
      invariant fs.OnlyMovedWindow() && fs.Fat() == fat
      invariant 1 <= ncl < n && (ncl == 1 ==> scl == 1)
      invariant wrapped ==> 2 <= ncl < scl && forall c :: scl < c < n || 2 <= c <= ncl ==> fat[c] != 0
      invariant !wrapped ==> scl <= ncl && forall c :: scl < c <= ncl ==> fat[c] != 0
      decreases !wrapped, n - ncl
    {
      ncl := ncl + 1;
      if ncl >= n {
        ncl := 2;
        if ncl > scl { return 0; }
        wrapped := true;
      }
      var cs := GetFat(fs, ncl);
      if cs == 0 { return; }
      if cs == INT_ERROR || cs == DISK_ERROR {
        return cs;
      }
      if ncl == scl { return 0; }
    }
  }

  /** The search part of create_chain: a stretched chain first tries the cluster next to its
      end. */
  method FindNext(fs: FatFs, clst: nat) returns (ncl: nat)
    requires fs.Valid() && (clst == 0 || 2 <= clst < fs.geo.nFatent)
    modifies fs`disk, fs`wflag, fs`winsect, fs.win
    ensures fs.OnlyMovedWindow()
    ensures ncl == DISK_ERROR ==> !fs.healthy
    ensures ncl == 0 ==> forall c: nat :: InRange(fs.Fat(), c) ==> fs.Fat()[c] != 0
    ensures ncl == 1 ==> exists c: nat :: InRange(fs.Fat(), c) && fs.Fat()[c] == 1
    ensures ncl >= 2 && ncl != DISK_ERROR ==>
              InRange(fs.Fat(), ncl) && fs.Fat()[ncl] == 0 && Chosen(State(fs), clst, ncl)
  {
    hide FatFs.View, FatFs.Outside, FatFs.Image, FatFs.Mirrored, FatFs.Fat, OffData, PowerOfTwo;
    var n := fs.geo.nFatent;
    ghost var fat := fs.Fat();
    var scl;
    if clst == 0 {
      scl := fs.lastClst;
      if scl == 0 || scl >= n { scl := 1; }
    } else {
      scl := clst;
      ncl := scl + 1;
      if ncl >= n { ncl := 2; }
      var cs := GetFat(fs, ncl);
      if cs == INT_ERROR || cs == DISK_ERROR { return cs; }
      if cs == 0 { return; }
      if 2 <= fs.lastClst < n { scl := fs.lastClst; }
    }
    ncl := FindFree(fs, scl);
  }

  /** create_chain: follow a chain if it goes on after `clst`, else allocate a cluster and link
      it to `clst` (or to nothing, for 0). */
  method CreateChain(fs: FatFs, clst: nat) returns (r: nat)
    requires fs.Valid()
    modifies fs`disk, fs`wflag, fs`winsect, fs`lastClst, fs`freeClst, fs`fsiFlag, fs.win
    ensures fs.OnlyStoredFat()
    ensures r == DISK_ERROR ==> !fs.healthy
    ensures fs.healthy ==> CreateStep(fs.geo.fsType, old(State(fs)), clst, r, State(fs))
  {
    hide FatFs.View, FatFs.Outside, FatFs.Image, FatFs.Mirrored, FatFs.Fat, OffData, PowerOfTwo;
    if clst != 0 {
      var cs := GetFat(fs, clst);
      if cs < 2 { return 1; }
      if cs == DISK_ERROR { return cs; }
      if cs < fs.geo.nFatent { return cs; }
    }
    if fs.freeClst == 0 { return 0; }
    r := FindNext(fs, clst);
    if r < 2 || r == DISK_ERROR { return; }
    r := LinkNew(fs, clst, r);
  }

  /** What the two stores of create_chain leave of their values. */
  lemma StoredValues(t: FatType, n: nat, ncl: nat)
    requires ncl < n <= MaxClusters(t) + 2
    ensures 0xFFFF_FFFF % EntryRange(t) == EndOfChain(t) && ncl % EntryRange(t) == ncl
  {
  }

  /** The stores of create_chain: end-of-chain into the new entry, its number into the old end. */
  method LinkNew(fs: FatFs, clst: nat, ncl: nat) returns (r: nat)
    requires fs.Valid() && InRange(fs.Fat(), ncl) && (clst == 0 || InRange(fs.Fat(), clst))
    modifies fs`disk, fs`wflag, fs`winsect, fs`lastClst, fs`freeClst, fs`fsiFlag, fs.win
    ensures fs.OnlyStoredFat()
    ensures fs.healthy ==>
      && r == ncl
      && fs.Fat() == Linked(fs.geo.fsType, old(fs.Fat()), clst, ncl)
      && fs.lastClst == ncl
      && fs.freeClst == if 0 < old(fs.freeClst) <= fs.geo.nFatent - 2 then old(fs.freeClst) - 1 else old(fs.freeClst)
    ensures !fs.healthy ==> r == ncl || r == DISK_ERROR
  {
    hide FatFs.View, FatFs.Outside, FatFs.Image, FatFs.Mirrored, FatFs.Fat, OffData, PowerOfTwo, EntryRange, EndOfChain;
    r := ncl;
    StoredValues(fs.geo.fsType, fs.geo.nFatent, ncl);
    var res := PutFat(fs, ncl, 0xFFFF_FFFF);
    if res == Ok && clst != 0 {
      res := PutFat(fs, clst, ncl);
    }
    if res == Ok {
      fs.lastClst := ncl;
      if fs.freeClst > 0 && fs.freeClst <= fs.geo.nFatent - 2 {
        fs.freeClst := fs.freeClst - 1;
        fs.fsiFlag := fs.fsiFlag / 2 * 2 + 1;
      }
    } else {
      r := DISK_ERROR;
    }
  }

  /** remove_chain: mark the predecessor, if any, as the end of its chain and zero every entry
      on the walk from `clst`. The loop ends on every table: each round zeroes an entry. */
  method RemoveChain(fs: FatFs, clst: nat, pclst: nat) returns (res: FResult)
    requires fs.Valid()
    modifies fs`disk, fs`wflag, fs`winsect, fs`freeClst, fs`fsiFlag, fs.win
    ensures fs.OnlyStoredFat()
    ensures res == DiskErr ==> !fs.healthy
    ensures fs.healthy ==> RemoveStep(fs.geo.fsType, old(State(fs)), clst, pclst, res, State(fs))
  {
    hide FatFs.View, FatFs.Outside, FatFs.Image, FatFs.Mirrored, FatFs.Fat, OffData, PowerOfTwo, EntryRange, EndOfChain;
    if clst < 2 || clst >= fs.geo.nFatent { return IntErr; }
    StoredValues(fs.geo.fsType, fs.geo.nFatent, clst);
    if pclst != 0 {
      res := PutFat(fs, pclst, 0xFFFF_FFFF);
      if res != Ok { return; }
    }
    res := ReleaseWalk(fs, clst);
  }

  /** The loop of remove_chain. */
  method ReleaseWalk(fs: FatFs, start: nat) returns (res: FResult)
    requires fs.Valid() && InRange(fs.Fat(), start)
    modifies fs`disk, fs`wflag, fs`winsect, fs`freeClst, fs`fsiFlag, fs.win
    ensures fs.OnlyStoredFat()
    ensures res == DiskErr ==> !fs.healthy
    ensures fs.healthy ==>
      var f, end := old(fs.Fat()), WalkEnd(old(fs.Fat()), start);
      && fs.Fat() == Unlink(f, start)
      && FreeCount(f) <= FreeCount(fs.Fat())
      && fs.freeClst == Released(old(fs.freeClst), FreeCount(fs.Fat()) - FreeCount(f), |f|)
      && res == if InRange(f, end) && fs.Fat()[end] == 1 then IntErr else Ok
  {
    hide FatFs.View, FatFs.Outside, FatFs.Image, FatFs.Mirrored, FatFs.Fat, OffData, PowerOfTwo, FreeBelow;
    var n := fs.geo.nFatent;
    var clst := start;
    ghost var f := fs.Fat();
    while clst < n
      invariant fs.OnlyStoredFat() && clst >= 2
      invariant fs.healthy ==>
                  Unlink(fs.Fat(), clst) == Unlink(f, start) && WalkEnd(fs.Fat(), clst) == WalkEnd(f, start)
      invariant fs.healthy ==> FreeCount(f) <= FreeCount(fs.Fat())
      invariant fs.healthy ==> fs.freeClst == Released(old(fs.freeClst), FreeCount(fs.Fat()) - FreeCount(f), n)
      decreases NonZero(fs.Fat()), n
    {
      var nxt := GetFat(fs, clst);
      if nxt == 0 { break; }
      if nxt == INT_ERROR { return IntErr; }
      if nxt == DISK_ERROR { return DiskErr; }
      ghost var g := fs.Fat();
      NonZeroDrops(g, clst);
      FreeAfterUpdate(g, clst, 0, n);
      res := PutFat(fs, clst, 0);
      if res != Ok { return; }
      assert fs.Fat() == g[clst := 0];
      if fs.freeClst < n - 2 {
        fs.freeClst := fs.freeClst + 1;
        fs.fsiFlag := fs.fsiFlag / 2 * 2 + 1;
      }
      clst := nxt;
    }
    res := Ok;
  }
}
