/** Transfers of data sectors that go to the device past the window. */
module FatDataIo {
  import opened FatEntries
  import opened FatGeometry
  import opened FatWindow

  /** `cc` sectors of a disk from `sect` on, as bytes. */
  function RunBytes(disk: seq<Sector>, sect: nat, cc: nat): (b: seq<byte>)
    requires sect + cc <= |disk|
    ensures |b| == cc * SS
  {
    seq(cc * SS, i requires 0 <= i < cc * SS => disk[sect + i / SS][i % SS])
  }

  /** Sector j of a run of bytes. */
  function SectorOfRun(data: seq<byte>, j: nat): Sector
    requires (j + 1) * SS <= |data|
  {
    data[j * SS..(j + 1) * SS]
  }

  /** Sector s of a disk whose sectors from `sect` on are replaced by `data`. */
  function WithRunAt(disk: seq<Sector>, sect: nat, data: seq<byte>, cc: nat, s: nat): Sector
    requires sect + cc <= |disk| && |data| == cc * SS && s < |disk|
  {
    if sect <= s < sect + cc then SectorOfRun(data, s - sect) else disk[s]
  }

  function WithRun(disk: seq<Sector>, sect: nat, data: seq<byte>, cc: nat): (d: seq<Sector>)
    requires sect + cc <= |disk| && |data| == cc * SS
    ensures |d| == |disk|
  {
    seq(|disk|, s requires 0 <= s < |disk| => WithRunAt(disk, sect, data, cc, s))
  }

  lemma ImageBelowData(g: Geometry, v: seq<Sector>, w: seq<Sector>)
    requires ValidGeometry(g, |v|) && |w| == |v| && v[..g.database] == w[..g.database]
    ensures FatImage(v, g) == FatImage(w, g)
  {
    forall s | 0 <= s < g.database ensures v[s] == w[s] {
      assert v[s] == v[..g.database][s];
      assert w[s] == w[..g.database][s];
    }
  }

  /** Writing data sectors that the window is not over leaves the window, the FAT and the agreement
      of its copies alone. */
  twostate lemma DataWriteKeeps(fs: FatFs)
    requires old(fs.Valid()) && |fs.disk| == |old(fs.disk)|
    requires fs.disk[..fs.geo.database] == old(fs.disk[..fs.geo.database])
    requires fs.winsect == old(fs.winsect) && fs.wflag == old(fs.wflag) && fs.win[..] == old(fs.win[..])
    requires fs.winsect < |fs.disk| ==> fs.disk[fs.winsect] == old(fs.disk[fs.winsect])
    ensures fs.Valid()
    ensures fs.Fat() == old(fs.Fat())
    ensures old(fs.Mirrored()) ==> fs.Mirrored()
  {
    var g := fs.geo;
    forall s | 0 <= s < g.database ensures fs.disk[s] == old(fs.disk[s]) {
      assert fs.disk[s] == fs.disk[..g.database][s];
      assert old(fs.disk[s]) == old(fs.disk[..g.database])[s];
    }
    assert fs.Valid();
    assert fs.View()[..g.database] == old(fs.View()[..g.database]);
    ImageBelowData(g, old(fs.View()), fs.View());
  }

  /** disk_write of a whole run of data sectors. */
  method WriteRun(fs: FatFs, sect: nat, data: seq<byte>, cc: nat)
    requires fs.Valid() && fs.healthy && !(sect <= fs.winsect < sect + cc)
    requires fs.geo.database <= sect && sect + cc <= |fs.disk| && |data| == cc * SS
    modifies fs`disk
    ensures fs.Valid() && fs.Fat() == old(fs.Fat())
    ensures old(fs.Mirrored()) ==> fs.Mirrored()
    ensures |fs.disk| == |old(fs.disk)| && fs.View() == WithRun(old(fs.View()), sect, data, cc)
  {
    fs.disk := WithRun(fs.disk, sect, data, cc);
    assert fs.disk[..fs.geo.database] == old(fs.disk[..fs.geo.database]);
    DataWriteKeeps(fs);
    assert fs.View() == WithRun(old(fs.View()), sect, data, cc);
  }

  /** disk_write of one data sector. */
  method WriteSector(fs: FatFs, sect: nat, data: Sector)
    requires fs.Valid() && fs.healthy && fs.geo.database <= sect < |fs.disk| && sect != fs.winsect
    modifies fs`disk
    ensures fs.Valid() && fs.Fat() == old(fs.Fat())
    ensures old(fs.Mirrored()) ==> fs.Mirrored()
    ensures |fs.disk| == |old(fs.disk)| && fs.View() == old(fs.View())[sect := data]
  {
    var ok := fs.DiskWrite(sect, data);
    assert fs.disk[..fs.geo.database] == old(fs.disk[..fs.geo.database]);
    DataWriteKeeps(fs);
  }

  /** disk_read of a run of sectors that the window is not over gives what the volume holds. */
  lemma RunSeen(fs: FatFs, s: nat, cc: nat)
    requires s + cc <= |fs.disk| && !(s <= fs.winsect < s + cc)
    ensures RunBytes(fs.disk, s, cc) == RunBytes(fs.View(), s, cc)
  {
  }
}
