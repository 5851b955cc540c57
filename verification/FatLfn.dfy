/** Long file names: the directory entries put_lfn writes and pick_lfn and dir_read read back. */
module FatLfn {
  import opened FatEntries

  /** A UTF-16 code unit (WCHAR). */
  type unit = u: int | 0 <= u < 0x1_0000

  const MAX_LFN: nat := 255
  const ENTRY: nat := 32
  const LAST_FLAG: byte := 0x40
  const ATTR_LFN: byte := 0x0F

  /** LfnOfs: where unit di of an entry is stored. */
  function UnitOffset(di: nat): nat
  {
    if di < 5 then 1 + 2 * di else if di < 11 then 14 + 2 * (di - 5) else 28 + 2 * (di - 11)
  }

  /** Where an entry keeps its 13 units: five from byte 1, six from byte 14, two from byte 28. */
  const UNIT_PLACES: seq<nat> := [1, 3, 5, 7, 9, 14, 16, 18, 20, 22, 24, 28, 30]

  /** Unit di of a directory entry (ld_16). */
  function UnitOf(dir: seq<byte>, di: nat): unit
    requires |dir| == ENTRY && di < 13
  {
    Le16(dir[UnitOffset(di)], dir[UnitOffset(di) + 1])
  }

  predicate HasLastFlag(et: byte) { et / 64 % 2 == 1 }

  function WithoutLastFlag(et: byte): byte { if HasLastFlag(et) then et - 64 else et }

  // ------------------------------------------------------------ writing an entry

  /** Unit i of the stored name: the name, a terminator, then filler. */
  function StoredUnit(name: seq<unit>, i: nat): unit
  {
    if i < |name| then name[i] else if i == |name| then 0 else 0xFFFF
  }

  /** A name FatFs can hold: it has neither the terminator nor the filler in it. */
  predicate LongName(name: seq<unit>)
  {
    1 <= |name| <= MAX_LFN && forall i :: 0 <= i < |name| ==> name[i] != 0 && name[i] != 0xFFFF
  }

  /** Number of LFN entries for a name of this length. */
  function EntryCount(len: nat): nat { (len + 12) / 13 }

  /** `dir` is entry number `ord` of the set for `name`: 13 units of it, the checksum of the short
      name, and the last-entry flag exactly where the name ends. */
  predicate IsLfnEntry(dir: seq<byte>, name: seq<unit>, ord: nat, sum: byte)
  {
    && |dir| == ENTRY && 1 <= ord < 64
    && dir[0] == ord + (if 13 * ord >= |name| then 64 else 0)
    && dir[11] == ATTR_LFN && dir[12] == 0 && dir[13] == sum && dir[26] == 0 && dir[27] == 0
    && forall di :: 0 <= di < 13 ==> UnitOf(dir, di) == StoredUnit(name, 13 * (ord - 1) + di)
  }

  /** st_16. */
  method StoreUnit(dir: array<byte>, o: nat, u: unit)
    requires o + 2 <= dir.Length
    modifies dir
    ensures dir[..] == old(dir[..])[o := u % 256][o + 1 := u / 256]
  {
    dir[o] := u % 256;
    dir[o + 1] := u / 256;
  }

  /** Storing unit di touches no other unit and none of the fixed fields. */
  lemma AfterStore(was: seq<byte>, now: seq<byte>, di: nat, u: unit)
    requires |was| == ENTRY && di < 13
    requires now == was[UnitOffset(di) := u % 256][UnitOffset(di) + 1 := u / 256]
    ensures UnitOf(now, di) == u
    ensures forall j :: 0 <= j < 13 && j != di ==> UnitOf(now, j) == UnitOf(was, j)
    ensures forall k :: k in {0, 11, 12, 13, 26, 27} ==> now[k] == was[k]
  {
  }

  lemma AfterOrder(was: seq<byte>, o: byte)
    requires |was| == ENTRY
    ensures forall j :: 0 <= j < 13 ==> UnitOf(was[0 := o], j) == UnitOf(was, j)
  {
  }

  predicate FixedFields(dir: seq<byte>, sum: byte)
    requires |dir| == ENTRY
  {
    dir[11] == ATTR_LFN && dir[12] == 0 && dir[13] == sum && dir[26] == 0 && dir[27] == 0
  }

  /** put_lfn: fill entry `ord` from the terminated name `lfn`. */
  method PutLfn(lfn: seq<unit>, dir: array<byte>, ord: nat, sum: byte)
    requires lfn != [] && LongName(lfn[..|lfn| - 1]) && lfn[|lfn| - 1] == 0
    requires dir.Length == ENTRY && 1 <= ord <= EntryCount(|lfn| - 1)
    modifies dir
    ensures IsLfnEntry(dir[..], lfn[..|lfn| - 1], ord, sum)
    ensures forall di :: 0 <= di < 13 ==>
              var o, i := UNIT_PLACES[di], 13 * (ord - 1) + di;
              dir[o] as int + 256 * dir[o + 1] as int == if i < |lfn| then lfn[i] as int else 0xFFFF
  {
    hide UnitOf, UnitOffset;
    ghost var name := lfn[..|lfn| - 1];
    dir[13] := sum;
    dir[11] := ATTR_LFN;
    dir[12] := 0;
    StoreUnit(dir, 26, 0);
    var ni := (ord - 1) * 13;
    var di, chr := 0, 0;
    while di < 13
      invariant 0 <= di <= 13 && dir.Length == ENTRY && FixedFields(dir[..], sum)
      invariant ni == if 13 * (ord - 1) + di <= |name| then 13 * (ord - 1) + di else |name| + 1
      invariant chr == 0xFFFF <==> 13 * (ord - 1) + di > |name|
      invariant forall j :: 0 <= j < di ==> UnitOf(dir[..], j) == StoredUnit(name, 13 * (ord - 1) + j)
    {
      if chr != 0xFFFF {
        chr := lfn[ni];
        ni := ni + 1;
      }
      ghost var was := dir[..];
      OffsetInEntry(di);
      StoreUnit(dir, UnitOffset(di), chr);
      AfterStore(was, dir[..], di, chr);
      if chr == 0 { chr := 0xFFFF; }
      di := di + 1;
    }
    var last := chr == 0xFFFF || lfn[ni] == 0;
    assert ni < |name| ==> lfn[ni] == name[ni];
    assert last <==> 13 * ord >= |name|;
    ghost var was := dir[..];
    dir[0] := if last then ord + 64 else ord;
    AfterOrder(was, dir[0]);
    assert dir[..] == was[0 := dir[0]];
    assert FixedFields(dir[..], sum) && ord <= 20;
    forall j | 0 <= j < 13 ensures UnitOf(dir[..], j) == StoredUnit(name, 13 * (ord - 1) + j) {
      assert UnitOf(was[0 := dir[0]], j) == UnitOf(was, j);
    }
    UnitsInPlace(dir[..]);
  }

  /** A unit is stored low byte first at its place. */
  lemma UnitsInPlace(dir: seq<byte>)
    requires |dir| == ENTRY
    ensures forall di :: 0 <= di < 13 ==>
              dir[UNIT_PLACES[di]] as int + 256 * dir[UNIT_PLACES[di] + 1] as int == UnitOf(dir, di)
  {
  }

  lemma OffsetInEntry(di: nat)
    requires di < 13
    ensures UnitOffset(di) + 2 <= ENTRY
  {
  }

  // ------------------------------------------------------------ reading an entry

  /** Position of the first terminator from `di` on, 13 if there is none. */
  function FirstZero(dir: seq<byte>, di: nat): (z: nat)
    requires |dir| == ENTRY && di <= 13
    ensures di <= z <= 13 && (z < 13 ==> UnitOf(dir, z) == 0)
    ensures forall j :: di <= j < z ==> UnitOf(dir, j) != 0
    decreases 13 - di
  {
    if di == 13 || UnitOf(dir, di) == 0 then di else FirstZero(dir, di + 1)
  }

  /** Where the units of an entry go in the name buffer, as the unsigned code computes it. */
  function NameOffset(dir: seq<byte>): nat
    requires |dir| == ENTRY
  {
    (WithoutLastFlag(dir[0]) + 0xFFFF_FFFF) % 0x1_0000_0000 * 13 % 0x1_0000_0000
  }

  /** Number of units of an entry that belong to the name, its terminator included. */
  function UnitCount(dir: seq<byte>): nat
    requires |dir| == ENTRY
  {
    if FirstZero(dir, 0) == 13 then 13 else FirstZero(dir, 0) + 1
  }

  predicate NeedsTerminator(dir: seq<byte>)
    requires |dir| == ENTRY
  {
    HasLastFlag(dir[0]) && FirstZero(dir, 0) == 13
  }

  /** pick_lfn accepts the entry: no cluster number, room in the buffer, filler after the end. */
  predicate Pickable(dir: seq<byte>)
    requires |dir| == ENTRY
  {
    && dir[26] == 0 && dir[27] == 0
    && (forall di :: FirstZero(dir, 0) < di < 13 ==> UnitOf(dir, di) == 0xFFFF)
    && NameOffset(dir) + UnitCount(dir) <= MAX_LFN + 1
    && (NeedsTerminator(dir) ==> NameOffset(dir) + 13 <= MAX_LFN)
  }

  /** The buffer holds the units of the entry. */
  predicate Holds(buf: seq<unit>, dir: seq<byte>)
    requires |dir| == ENTRY && |buf| == MAX_LFN + 1
  {
    && NameOffset(dir) + UnitCount(dir) <= |buf|
    && (forall i :: NameOffset(dir) <= i < NameOffset(dir) + UnitCount(dir) ==>
          buf[i] == UnitOf(dir, i - NameOffset(dir)))
    && (NeedsTerminator(dir) ==> NameOffset(dir) + 13 < |buf| && buf[NameOffset(dir) + 13] == 0)
  }

  lemma ZeroWord(lo: byte, hi: byte)
    ensures Le16(lo, hi) == 0 <==> lo == 0 && hi == 0
  {
  }

  /** The number of an entry: its first byte without bit 6. */
  function Order(et: byte): nat { et as int % 64 + et as int / 128 * 128 }

  /** Unit di belongs to the name or terminates it: no unit before it is zero. */
  predicate Stored(dir: seq<byte>, di: nat)
    requires |dir| == ENTRY && di <= 13
  {
    forall k :: 0 <= k < di ==> UnitOf(dir, k) != 0
  }

  /** What pick_lfn accepts, in terms of the entry alone: no cluster number, a number of 1 or more, only
      filler after a terminator, and a place in the buffer for every unit and the terminator. */
  predicate Acceptable(dir: seq<byte>)
    requires |dir| == ENTRY
  {
    var n := Order(dir[0]);
    && dir[26] == 0 && dir[27] == 0 && n >= 1
    && (forall i, j :: 0 <= i < j < 13 && UnitOf(dir, i) == 0 ==> UnitOf(dir, j) == 0xFFFF)
    && (forall di :: 0 <= di < 13 && Stored(dir, di) ==> 13 * (n - 1) + di <= MAX_LFN)
    && (dir[0] / 64 % 2 == 1 && Stored(dir, 13) ==> 13 * n <= MAX_LFN)
  }

  lemma AcceptableIff(dir: seq<byte>)
    requires |dir| == ENTRY
    ensures Acceptable(dir) <==> Pickable(dir)
    ensures Pickable(dir) ==> NameOffset(dir) == 13 * (Order(dir[0]) - 1)
    ensures forall di :: 0 <= di < 13 ==> (Stored(dir, di) <==> di < UnitCount(dir))
  {
    hide UnitOf, NameOffset, FirstZero, Stored, HasLastFlag, WithoutLastFlag, Order;
    OffsetOf(dir);
    FlagBits(dir[0]);
    StoredIff(dir);
    FillerIff(dir);
    var n, z := Order(dir[0]), FirstZero(dir, 0);
    assert 0 <= z <= 13;
    if n >= 1 { RoomIff(dir, 13 * (n - 1)); }
  }

  lemma StoredIff(dir: seq<byte>)
    requires |dir| == ENTRY
    ensures forall di :: 0 <= di <= 13 ==> (Stored(dir, di) <==> di <= FirstZero(dir, 0))
  {
    hide UnitOf;
  }

  lemma FillerIff(dir: seq<byte>)
    requires |dir| == ENTRY
    ensures (forall i, j :: 0 <= i < j < 13 && UnitOf(dir, i) == 0 ==> UnitOf(dir, j) == 0xFFFF) <==>
              forall di :: FirstZero(dir, 0) < di < 13 ==> UnitOf(dir, di) == 0xFFFF
  {
    hide UnitOf;
  }

  lemma RoomIff(dir: seq<byte>, o: nat)
    requires |dir| == ENTRY
    ensures o + UnitCount(dir) <= MAX_LFN + 1 <==>
              forall di :: 0 <= di < 13 && Stored(dir, di) ==> o + di <= MAX_LFN
  {
    hide UnitOf, FirstZero, Stored;
    StoredIff(dir);
    assert Stored(dir, UnitCount(dir) - 1);
  }

  lemma FlagBits(et: byte)
    ensures WithoutLastFlag(et) as int == Order(et)
    ensures HasLastFlag(et) <==> et / 64 % 2 == 1
  {
  }

  /** Picking the entry may write position i of the buffer. */
  predicate Overwritten(dir: seq<byte>, i: nat)
    requires |dir| == ENTRY
  {
    NameOffset(dir) <= i < NameOffset(dir) + 13 || (NeedsTerminator(dir) && i == NameOffset(dir) + 13)
  }

  /** pick_lfn: copy the units of an entry to their place in the name buffer. */
  method PickLfn(lfnbuf: array<unit>, dir: seq<byte>) returns (ok: bool)
    requires lfnbuf.Length == MAX_LFN + 1 && |dir| == ENTRY
    modifies lfnbuf
    ensures ok <==> Pickable(dir)
    ensures ok ==> Holds(lfnbuf[..], dir)
    ensures forall i :: 0 <= i < MAX_LFN + 1 && !Overwritten(dir, i) ==> lfnbuf[i] == old(lfnbuf[i])
    ensures ok <==> Acceptable(dir)
    ensures ok ==> forall di :: 0 <= di < 13 && Stored(dir, di) ==>
              var i := 13 * (Order(dir[0]) - 1) + di;
              0 <= i < MAX_LFN + 1 && lfnbuf[i] == UnitOf(dir, di)
  {
    hide UnitOf, NameOffset, FirstZero, HasLastFlag, WithoutLastFlag, Le16, UnitOffset, Acceptable, Stored;
    AcceptableIff(dir);
    ZeroWord(dir[26], dir[27]);
    if Le16(dir[26], dir[27]) != 0 { return false; }
    ghost var o, z := NameOffset(dir), FirstZero(dir, 0);
    var ni := NameOffset(dir);
    var pchr, di := 1, 0;
    while di < 13
      invariant 0 <= di <= 13 && ni == o + if di <= z then di else z + 1
      invariant di <= z ==> pchr != 0
      invariant di > z ==> pchr == 0
      invariant di > 0 ==> ni <= MAX_LFN + 1
      invariant forall j :: z < j < di ==> UnitOf(dir, j) == 0xFFFF
      invariant forall j :: o <= j < ni && j < MAX_LFN + 1 ==> lfnbuf[j] == UnitOf(dir, j - o)
      invariant forall i :: 0 <= i < MAX_LFN + 1 && !(o <= i < ni) ==> lfnbuf[i] == old(lfnbuf[i])
    {
      var chr := UnitOf(dir, di);
      if pchr != 0 {
        if ni >= MAX_LFN + 1 { return false; }
        pchr := chr;
        lfnbuf[ni] := chr;
        ni := ni + 1;
      } else {
        if chr != 0xFFFF { return false; }
      }
      di := di + 1;
    }
    assert ni == o + UnitCount(dir) && (pchr != 0 <==> z == 13);
    if HasLastFlag(dir[0]) && pchr != 0 {
      assert NeedsTerminator(dir);
      if ni >= MAX_LFN + 1 { return false; }
      lfnbuf[ni] := 0;
    } else {
      assert !NeedsTerminator(dir);
    }
    assert forall i :: o <= i < o + UnitCount(dir) ==> lfnbuf[..][i] == UnitOf(dir, i - o);
    return true;
  }

  // ------------------------------------------------------------ entry sets

  function RotateRight(s: bv8): bv8 { (s >> 1) | (s << 7) }

  function RotateLeft(s: bv8): bv8 { (s << 1) | (s >> 7) }

  function Bits(name: seq<byte>): (r: seq<bv8>)
    ensures |r| == |name| && forall i :: 0 <= i < |r| ==> r[i] == name[i] as bv8
  {
    seq(|name|, i requires 0 <= i < |name| => name[i] as bv8)
  }

  /** The checksum of a short name: for each byte the sum is rotated right by one bit and the byte is
      added to it. */
  function Checksum(name: seq<bv8>): bv8
  {
    if name == [] then 0 else RotateRight(Checksum(name[..|name| - 1])) + name[|name| - 1]
  }

  /** Each byte can be taken back: subtract it and rotate left. */
  lemma ChecksumUndone(name: seq<bv8>, b: bv8)
    ensures RotateLeft(Checksum(name + [b]) - b) == Checksum(name)
  {
    assert (name + [b])[..|name|] == name;
    Rotations(Checksum(name), b);
  }

  lemma Rotations(s: bv8, b: bv8)
    ensures RotateLeft(RotateRight(s) + b - b) == s && (s >> 1) + (s << 7) == RotateRight(s)
  {
  }

  /** Names that differ in one byte have different checksums. */
  lemma {:induction false} OneByteTells(a: seq<bv8>, b: seq<bv8>, i: nat)
    requires |a| == |b| && i < |a| && a[i] != b[i] && forall k :: 0 <= k < |a| && k != i ==> a[k] == b[k]
    ensures Checksum(a) != Checksum(b)
  {
    hide RotateRight;
    var n := |a| - 1;
    if i == n {
      assert a[..n] == b[..n];
      SumDiffers(RotateRight(Checksum(a[..n])), a[n], b[n]);
    } else {
      OneByteTells(a[..n], b[..n], i);
      StepDiffers(Checksum(a[..n]), Checksum(b[..n]), a[n]);
    }
  }

  lemma SumDiffers(s: bv8, x: bv8, y: bv8)
    ensures x != y ==> s + x != s + y
  {
  }

  lemma StepDiffers(s: bv8, t: bv8, x: bv8)
    ensures s != t ==> RotateRight(s) + x != RotateRight(t) + x
  {
  }

  /** LONGFI~1.TXT has the checksum 0xD4. */
  lemma ChecksumExample()
    ensures Checksum([0x4C, 0x4F, 0x4E, 0x47, 0x46, 0x49, 0x7E, 0x31, 0x54, 0x58, 0x54]) == 0xD4
  {
    hide Checksum;
    var n: seq<bv8> := [0x4C, 0x4F, 0x4E, 0x47, 0x46, 0x49, 0x7E, 0x31, 0x54, 0x58, 0x54];
    NoChecksum(n[..0]);
    assert n[..11] == n;
    ChecksumStep(n, 0);
    assert Checksum(n[..1]) == 0x4C;
    ChecksumStep(n, 1);
    assert Checksum(n[..2]) == 0x75;
    ChecksumStep(n, 2);
    assert Checksum(n[..3]) == 0x08;
    ChecksumStep(n, 3);
    assert Checksum(n[..4]) == 0x4B;
    ChecksumStep(n, 4);
    assert Checksum(n[..5]) == 0xEB;
    ChecksumStep(n, 5);
    assert Checksum(n[..6]) == 0x3E;
    ChecksumStep(n, 6);
    assert Checksum(n[..7]) == 0x9D;
    ChecksumStep(n, 7);
    assert Checksum(n[..8]) == 0xFF;
    ChecksumStep(n, 8);
    assert Checksum(n[..9]) == 0x53;
    ChecksumStep(n, 9);
    assert Checksum(n[..10]) == 0x01;
    ChecksumStep(n, 10);
    assert Checksum(n[..11]) == 0xD4;
  }

  lemma NoChecksum(n: seq<bv8>)
    requires n == []
    ensures Checksum(n) == 0
  {
  }

  lemma ChecksumStep(n: seq<bv8>, i: nat)
    requires i < |n|
    ensures Checksum(n[..i + 1]) == RotateRight(Checksum(n[..i])) + n[i]
  {
    assert n[..i + 1][..i] == n[..i];
  }

  /** sum_sfn: the checksum that ties long-name entries to their short name. */
  method SumSfn(dir: seq<byte>) returns (sum: byte)
    requires |dir| >= 11
    ensures sum == SumOf(dir)
  {
    var s: bv8 := 0;
    for n := 0 to 11
      invariant s == Checksum(Bits(dir[..11])[..n])
    {
      Rotations(s, 0);
      ChecksumStep(Bits(dir[..11]), n);
      s := (s >> 1) + (s << 7) + (dir[n] as bv8);
    }
    assert Bits(dir[..11])[..11] == Bits(dir[..11]);
    sum := s as byte;
  }

  function SumOf(short: seq<byte>): byte
    requires |short| >= 11
  {
    Checksum(Bits(short[..11])) as byte
  }

  /** Deleted, dot and volume-label entries. */
  predicate Passed(e: seq<byte>)
    requires |e| == ENTRY
  {
    e[0] == 0xE5 || e[0] == 0x2E || e[11] % 32 == 8
  }

  predicate IsLong(e: seq<byte>)
    requires |e| == ENTRY
  {
    !Passed(e) && e[11] % 64 == ATTR_LFN
  }

  predicate Entries32(ents: seq<seq<byte>>) { forall i :: 0 <= i < |ents| ==> |ents[i]| == ENTRY }

  /** From `start` on the directory holds the set written for `name`, highest number first, and
      then the short-name entry it belongs to. */
  predicate IsSet(ents: seq<seq<byte>>, start: nat, name: seq<unit>)
    requires Entries32(ents)
  {
    var n := EntryCount(|name|);
    && start + n < |ents|
    && var short := ents[start + n];
    && short[0] != 0 && !Passed(short) && !IsLong(short)
    && forall j :: start <= j < start + n ==> IsLfnEntry(ents[j], name, n - (j - start), SumOf(short))
  }

  /** Entries b..i are the part read so far of one set: numbers going down by one to ord + 1, the
      first flagged as last, one checksum, each accepted and in the buffer. */
  predicate Reading(ents: seq<seq<byte>>, b: nat, i: nat, ord: nat, sum: byte, buf: seq<unit>)
    requires Entries32(ents) && |buf| == MAX_LFN + 1
  {
    && b < i <= |ents| && HasLastFlag(ents[b][0])
    && forall j :: b <= j < i ==>
         && IsLong(ents[j]) && ents[j][13] == sum && Pickable(ents[j]) && Holds(buf, ents[j])
         && WithoutLastFlag(ents[j][0]) == ord + (i - j)
         && (j > b ==> !HasLastFlag(ents[j][0]))
  }

  lemma OffsetOf(dir: seq<byte>)
    requires |dir| == ENTRY
    ensures WithoutLastFlag(dir[0]) >= 1 ==> NameOffset(dir) == 13 * (WithoutLastFlag(dir[0]) - 1)
    ensures WithoutLastFlag(dir[0]) == 0 ==> NameOffset(dir) > MAX_LFN
  {
  }

  /** An entry written for a long name is accepted by pick_lfn, and shows its number and flag. */
  lemma WrittenIsPickable(e: seq<byte>, name: seq<unit>, ord: nat, sum: byte)
    requires LongName(name) && 1 <= ord <= EntryCount(|name|) && IsLfnEntry(e, name, ord, sum)
    ensures e[0] != 0 && !Passed(e) && IsLong(e) && e[13] == sum
    ensures WithoutLastFlag(e[0]) == ord && (HasLastFlag(e[0]) <==> ord == EntryCount(|name|))
    ensures Pickable(e) && NameOffset(e) == 13 * (ord - 1)
    ensures FirstZero(e, 0) == if |name| < 13 * ord then |name| - 13 * (ord - 1) else 13
  {
    hide UnitOf, FirstZero, NameOffset;
    OffsetOf(e);
    var z := FirstZero(e, 0);
    assert forall di :: 0 <= di < 13 ==> (UnitOf(e, di) == 0 <==> 13 * (ord - 1) + di == |name|);
    if |name| < 13 * ord { assert UnitOf(e, |name| - 13 * (ord - 1)) == 0; }
  }

  /** Picking the entry numbered just below keeps what was read of the set. */
  lemma KeepsReading(ents: seq<seq<byte>>, b: nat, i: nat, ord: nat, sum: byte, buf: seq<unit>, buf': seq<unit>)
    requires Entries32(ents) && |buf| == |buf'| == MAX_LFN + 1 && Reading(ents, b, i, ord, sum, buf)
    requires i < |ents| && 1 <= ord && !HasLastFlag(ents[i][0]) && WithoutLastFlag(ents[i][0]) == ord
    requires IsLong(ents[i]) && ents[i][13] == sum && Pickable(ents[i]) && Holds(buf', ents[i])
    requires forall k :: 0 <= k < MAX_LFN + 1 && !Overwritten(ents[i], k) ==> buf'[k] == buf[k]
    ensures Reading(ents, b, i + 1, ord - 1, sum, buf')
  {
    hide UnitOf, FirstZero, NameOffset, HasLastFlag, WithoutLastFlag, Pickable, IsLong;
    OffsetOf(ents[i]);
    forall j | b <= j < i ensures Holds(buf', ents[j]) {
      OffsetOf(ents[j]);
    }
  }

  lemma StartsReading(ents: seq<seq<byte>>, i: nat, buf: seq<unit>)
    requires Entries32(ents) && |buf| == MAX_LFN + 1 && i < |ents| && HasLastFlag(ents[i][0])
    requires IsLong(ents[i]) && Pickable(ents[i]) && Holds(buf, ents[i])
    ensures WithoutLastFlag(ents[i][0]) >= 1
    ensures Reading(ents, i, i + 1, WithoutLastFlag(ents[i][0]) - 1, ents[i][13], buf)
  {
    hide UnitOf, FirstZero, NameOffset, IsLong, Holds;
    OffsetOf(ents[i]);
  }

  /** A directory entry that holds a short name: not deleted, not a dot entry, neither a volume label
      nor part of a long name. */
  predicate IsShort(e: seq<byte>)
    requires |e| == ENTRY
  {
    e[0] != 0xE5 && e[0] != 0x2E && e[11] % 32 != 8 && e[11] % 64 != 0x0F
  }

  /** No end mark in entries start to j. */
  predicate NoEnd(ents: seq<seq<byte>>, start: nat, j: nat)
    requires Entries32(ents) && j < |ents|
  {
    forall k :: start <= k <= j ==> ents[k][0] != 0
  }

  /** Entries b to i are long-name entries of one checksum, accepted by pick_lfn and numbered downwards, the
      first of them and no other flagged as last. */
  predicate Descends(ents: seq<seq<byte>>, b: nat, i: nat, sum: byte)
    requires Entries32(ents)
  {
    && b < i <= |ents|
    && forall j :: b <= j < i ==>
         && IsLong(ents[j]) && ents[j][13] == sum && Pickable(ents[j])
         && WithoutLastFlag(ents[j][0]) == WithoutLastFlag(ents[b][0]) - (j - b)
         && (HasLastFlag(ents[j][0]) <==> j == b)
  }

  /** Entries b to `at` are the whole long name of the short entry `at`: they count down to 1 and carry
      its checksum. */
  predicate LongNameOf(ents: seq<seq<byte>>, b: nat, at: nat)
    requires Entries32(ents) && at < |ents|
  {
    b < at && Descends(ents, b, at, SumOf(ents[at])) && WithoutLastFlag(ents[b][0]) == at - b
  }

  /** dir_read, from entry `start` on: the next short-name entry before the end mark (or |ents|), and
      whether the entries before it are its long name, which is then in lfnbuf. */
  method DirRead(ents: seq<seq<byte>>, start: nat, lfnbuf: array<unit>) returns (at: nat, hasLfn: bool)
    requires Entries32(ents) && start <= |ents| && lfnbuf.Length == MAX_LFN + 1
    modifies lfnbuf
    ensures start <= at <= |ents| && (hasLfn ==> at < |ents|)
    ensures at < |ents| ==> NoEnd(ents, start, at) && IsShort(ents[at])
    ensures forall j :: start <= j < at && NoEnd(ents, start, j) ==> !IsShort(ents[j])
    ensures at < |ents| ==> (hasLfn <==> exists b :: start <= b && LongNameOf(ents, b, at))
    ensures hasLfn ==> exists b :: start <= b < at && Reading(ents, b, at, 0, SumOf(ents[at]), lfnbuf[..])
  {
    hide Reading, Pickable, Holds, Overwritten, SumOf, Descends, HasLastFlag, WithoutLastFlag;
    var ord: nat, sum: byte := 0xFF, 0xFF;
    at := start;
    ghost var b := start;
    while at < |ents|
      invariant start <= at <= |ents| && lfnbuf.Length == MAX_LFN + 1
      invariant ord != 0xFF ==> start <= b < at && Reading(ents, b, at, ord, sum, lfnbuf[..])
      invariant forall j :: start <= j < at ==> ents[j][0] != 0 && !IsShort(ents[j])
      invariant forall c :: start <= c < at && Descends(ents, c, at, ents[c][13]) ==> Follows(ents, c, at, ord, sum)
    {
      var e := ents[at];
      var et := e[0];
      if et == 0 { return |ents|, false; }
      ghost var ord0, sum0 := ord, sum;
      FlagOff(et);
      if Passed(e) {
        ord := 0xFF;
      } else if e[11] % 64 == ATTR_LFN {
        if HasLastFlag(et) {
          sum := e[13];
          et := WithoutLastFlag(et);
          ord := et;
        }
        if et == ord && sum == e[13] {
          ghost var buf := lfnbuf[..];
          var ok := PickLfn(lfnbuf, e);
          if ok {
            if HasLastFlag(e[0]) {
              StartsReading(ents, at, lfnbuf[..]);
              b := at;
            } else {
              OrderPositive(e);
              KeepsReading(ents, b, at, ord, sum, buf, lfnbuf[..]);
            }
            ord := ord - 1;
          } else {
            ord := 0xFF;
          }
        } else {
          ord := 0xFF;
        }
      } else {
        var s := SumSfn(e);
        hasLfn := ord == 0 && sum == s;
        if hasLfn { ReadWhole(ents, b, at, sum, lfnbuf[..]); }
        forall c | start <= c && LongNameOf(ents, c, at) ensures hasLfn {
          SameDescent(ents, c, at);
          assert Follows(ents, c, at, ord, sum);
        }
        return;
      }
      forall c | start <= c <= at && Descends(ents, c, at + 1, ents[c][13])
        ensures Follows(ents, c, at + 1, ord, sum)
      {
        Descent(ents, c, at);
        if c < at { assert Follows(ents, c, at, ord0, sum0); }
      }
      at := at + 1;
    }
    return |ents|, false;
  }

  /** The state of dir_read after entries c to i of one descent. */
  predicate Follows(ents: seq<seq<byte>>, c: nat, i: nat, ord: nat, sum: byte)
    requires Entries32(ents) && c < |ents|
  {
    sum == ents[c][13] && ord == WithoutLastFlag(ents[c][0]) - (i - c) && ord != 0xFF
  }

  lemma Descent(ents: seq<seq<byte>>, c: nat, i: nat)
    requires Entries32(ents) && i < |ents| && c < |ents| && Descends(ents, c, i + 1, ents[c][13])
    ensures c < i ==> Descends(ents, c, i, ents[c][13])
    ensures IsLong(ents[i]) && Pickable(ents[i]) && ents[i][13] == ents[c][13] && (HasLastFlag(ents[i][0]) <==> i == c)
    ensures WithoutLastFlag(ents[i][0]) == WithoutLastFlag(ents[c][0]) - (i - c)
    ensures 1 <= WithoutLastFlag(ents[i][0]) < 0xFF
  {
    hide Pickable;
    OrderPositive(ents[i]);
    FlagOff(ents[i][0]);
  }

  lemma FlagOff(et: byte)
    ensures WithoutLastFlag(et) < 0xFF || et == 0xFF
    ensures !HasLastFlag(et) ==> WithoutLastFlag(et) == et
    ensures WithoutLastFlag(et) < 0xC0
  {
  }

  lemma SameDescent(ents: seq<seq<byte>>, c: nat, at: nat)
    requires Entries32(ents) && at < |ents| && LongNameOf(ents, c, at)
    ensures c < at && Descends(ents, c, at, ents[c][13]) && ents[c][13] == SumOf(ents[at])
    ensures WithoutLastFlag(ents[c][0]) == at - c
  {
  }

  lemma ReadWhole(ents: seq<seq<byte>>, b: nat, at: nat, sum: byte, buf: seq<unit>)
    requires Entries32(ents) && at < |ents| && |buf| == MAX_LFN + 1 && Reading(ents, b, at, 0, sum, buf)
    requires sum == SumOf(ents[at])
    ensures LongNameOf(ents, b, at)
  {
    hide Pickable, Holds, IsLong;
  }

  lemma OrderPositive(e: seq<byte>)
    requires |e| == ENTRY && Pickable(e)
    ensures WithoutLastFlag(e[0]) >= 1
  {
    hide UnitOf, FirstZero;
    OffsetOf(e);
  }

  lemma SetEntry(ents: seq<seq<byte>>, start: nat, name: seq<unit>, j: nat)
    requires Entries32(ents) && LongName(name) && IsSet(ents, start, name)
    requires start <= j < start + EntryCount(|name|)
    ensures var e, n := ents[j], EntryCount(|name|);
      && e[0] != 0 && !Passed(e) && IsLong(e) && Pickable(e)
      && e[13] == SumOf(ents[start + n]) && WithoutLastFlag(e[0]) == n - (j - start)
      && (HasLastFlag(e[0]) <==> j == start)
  {
    hide UnitOf, FirstZero, IsLfnEntry, SumOf;
    WrittenIsPickable(ents[j], name, EntryCount(|name|) - (j - start), SumOf(ents[start + EntryCount(|name|)]));
  }

  /** A set written for a name is what dir_read looks for: its short entry comes first and the entries
      before it are its long name. */
  lemma SetIsFound(ents: seq<seq<byte>>, start: nat, name: seq<unit>, at: nat)
    requires Entries32(ents) && LongName(name) && IsSet(ents, start, name) && start <= at <= |ents|
    requires at < |ents| ==> NoEnd(ents, start, at) && IsShort(ents[at])
    requires forall j :: start <= j < at && NoEnd(ents, start, j) ==> !IsShort(ents[j])
    ensures at == start + EntryCount(|name|) && LongNameOf(ents, start, at)
  {
    hide Pickable, IsLfnEntry, SumOf;
    var n := EntryCount(|name|);
    forall j | start <= j < start + n
      ensures ents[j][0] != 0 && IsLong(ents[j]) && Pickable(ents[j]) && ents[j][13] == SumOf(ents[start + n])
      ensures WithoutLastFlag(ents[j][0]) == n - (j - start) && (HasLastFlag(ents[j][0]) <==> j == start)
    {
      SetEntry(ents, start, name, j);
    }
    assert NoEnd(ents, start, start + n);
  }

  /** The LFN part of dir_register and its short-name entry: entries are stored highest number
      first. */
  method Register(lfn: seq<unit>, fn: seq<byte>, ghost name: seq<unit>) returns (ents: seq<seq<byte>>)
    requires lfn == name + [0] && LongName(name)
    requires |fn| == 11 && fn[0] != 0 && fn[0] != 0xE5 && fn[0] != 0x2E
    ensures Entries32(ents) && |ents| == EntryCount(|name|) + 1
    ensures IsSet(ents, 0, name) && ents[|ents| - 1][..11] == fn
    ensures forall j :: 0 <= j < |ents| - 1 ==> (HasLastFlag(ents[j][0]) <==> j == 0)
  {
    hide IsLfnEntry, SumOf, LongName;
    assert lfn[..|lfn| - 1] == name;
    var n := EntryCount(|lfn| - 1);
    var sum := SumSfn(fn);
    ents := [];
    var nEnt := n;
    while nEnt > 0
      invariant 0 <= nEnt <= n && |ents| == n - nEnt && Entries32(ents)
      invariant forall j :: 0 <= j < |ents| ==> IsLfnEntry(ents[j], name, n - j, sum)
    {
      var dir := new byte[ENTRY](_ => 0);
      PutLfn(lfn, dir, nEnt, sum);
      ents := ents + [dir[..]];
      nEnt := nEnt - 1;
    }
    var short := fn + seq(21, _ => 0);
    ents := ents + [short];
    SameSum(fn, short);
    assert IsSet(ents, 0, name);
    forall j | 0 <= j < |ents| - 1 ensures HasLastFlag(ents[j][0]) <==> j == 0 {
      SetEntry(ents, 0, name, j);
    }
  }

  lemma SameSum(fn: seq<byte>, short: seq<byte>)
    requires |fn| == 11 <= |short| && short[..11] == fn
    ensures SumOf(short) == SumOf(fn)
  {
    assert fn[..11] == fn;
  }

  /** A buffer that holds every entry of the set holds the terminated name. */
  lemma NameInBuffer(ents: seq<seq<byte>>, name: seq<unit>, buf: seq<unit>, b: nat)
    requires Entries32(ents) && |buf| == MAX_LFN + 1 && LongName(name) && IsSet(ents, 0, name)
    requires var n := EntryCount(|name|); b < n && Reading(ents, b, n, 0, SumOf(ents[n]), buf)
    ensures buf[..|name| + 1] == name + [0]
  {
    hide UnitOf, FirstZero, IsLfnEntry, SumOf, Pickable, NameOffset;
    var n := EntryCount(|name|);
    SetEntry(ents, 0, name, b);
    forall i | 0 <= i < |name| + 1 ensures buf[i] == (name + [0])[i] {
      var k := if i / 13 < n then i / 13 else n - 1;
      UnitInBuffer(ents, name, buf, n - 1 - k, i);
    }
  }

  lemma UnitInBuffer(ents: seq<seq<byte>>, name: seq<unit>, buf: seq<unit>, j: nat, i: nat)
    requires Entries32(ents) && |buf| == MAX_LFN + 1 && LongName(name) && IsSet(ents, 0, name)
    requires j < EntryCount(|name|) && Holds(buf, ents[j])
    requires var ord := EntryCount(|name|) - j; 13 * (ord - 1) <= i <= |name| && (i < 13 * ord || j == 0)
    ensures buf[i] == StoredUnit(name, i)
  {
    hide UnitOf, FirstZero, SumOf, Pickable, NameOffset;
    var ord := EntryCount(|name|) - j;
    WrittenIsPickable(ents[j], name, ord, SumOf(ents[EntryCount(|name|)]));
  }

  /** Every long name survives the directory: what dir_register writes, dir_read reassembles. */
  method RoundTrip(name: seq<unit>, fn: seq<byte>) returns (hasLfn: bool, back: seq<unit>)
    requires LongName(name)
    requires |fn| == 11 && fn[0] != 0 && fn[0] != 0xE5 && fn[0] != 0x2E
    ensures hasLfn && |back| == MAX_LFN + 1 && back[..|name| + 1] == name + [0]
  {
    hide IsSet, Reading, LongName, SumOf;
    var ents := Register(name + [0], fn, name);
    var lfnbuf := new unit[MAX_LFN + 1](_ => 0xFFFF);
    var at;
    at, hasLfn := DirRead(ents, 0, lfnbuf);
    SetIsFound(ents, 0, name, at);
    ghost var b :| 0 <= b < at && Reading(ents, b, at, 0, SumOf(ents[at]), lfnbuf[..]);
    NameInBuffer(ents, name, lfnbuf[..], b);
    back := lfnbuf[..];
  }
}
