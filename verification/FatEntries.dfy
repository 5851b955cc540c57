/** Packed FAT12/16/32 entries over the bytes of one FAT. */
module FatEntries {

  type byte = b: int | 0 <= b < 256

  datatype FatType = FAT12 | FAT16 | FAT32

  /** What put_fat can store: 12, 16 or 28 bits. */
  function EntryRange(t: FatType): nat
  {
    match t
    case FAT12 => 0x1000
    case FAT16 => 0x1_0000
    case FAT32 => 0x1000_0000
  }

  /** Bytes of FAT needed for n entries (szbfat in mount_volume). */
  function FatBytesNeeded(t: FatType, n: nat): nat
  {
    match t
    case FAT12 => n * 3 / 2 + n % 2
    case FAT16 => n * 2
    case FAT32 => n * 4
  }

  /** Byte offset of the first byte of entry c. */
  function EntryOffset(t: FatType, c: nat): nat
  {
    match t
    case FAT12 => c + c / 2
    case FAT16 => 2 * c
    case FAT32 => 4 * c
  }

  function EntryBytes(t: FatType): nat { if t == FAT32 then 4 else 2 }

  /** A FAT of the size mount_volume insists on holds every byte of every entry, for a
      FAT12 entry also the byte it shares or the one in the next sector. */
  lemma EntryFits(t: FatType, n: nat, c: nat)
    requires c < n
    ensures EntryOffset(t, c) + EntryBytes(t) <= FatBytesNeeded(t, n)
  {
  }

  /** And no more than that: the last entry ends where the FAT may end. */
  lemma LastEntryFits(t: FatType, n: nat)
    ensures EntryOffset(t, n) + EntryBytes(t) == FatBytesNeeded(t, n + 1)
  {
    if t == FAT12 {
      var m, r := n / 2, n % 2;
      ByTwo((n + 1) * 3, 3 * m + 1 + 2 * r, 1 - r);
      ByTwo(n + 1, m + r, 1 - r);
    }
  }

  lemma ByTwo(x: nat, q: nat, r: nat)
    requires x == 2 * q + r && r < 2
    ensures x / 2 == q && x % 2 == r
  {
  }

  /** ld_16. */
  function Le16(lo: byte, hi: byte): nat { lo as int + 256 * hi as int }

  /** The value get_fat reports for entry c. */
  function Entry(t: FatType, b: seq<byte>, c: nat): (e: nat)
    requires EntryOffset(t, c) + EntryBytes(t) <= |b|
    ensures e < EntryRange(t)
  {
    var o := EntryOffset(t, c);
    var w := Le16(b[o], b[o + 1]);
    match t
    case FAT12 => if c % 2 == 1 then w / 16 else w % 4096
    case FAT16 => w
    case FAT32 => (w + 0x1_0000 * Le16(b[o + 2], b[o + 3])) % 0x1000_0000
  }

  function Entries(t: FatType, b: seq<byte>, n: nat): (f: seq<nat>)
    requires FatBytesNeeded(t, n) <= |b|
    ensures |f| == n && forall c :: 0 <= c < n ==> f[c] < EntryRange(t)
  {
    seq(n, c requires 0 <= c < n => EntryFits(t, n, c); Entry(t, b, c))
  }

  /** The first byte put_fat stores for entry c, given the byte already there. */
  function FirstByte(t: FatType, c: nat, val: nat, was: byte): byte
  {
    if t == FAT12 && c % 2 == 1 then was % 16 + val % 16 * 16 else val % 256
  }

  /** The second byte put_fat stores. */
  function SecondByte(t: FatType, c: nat, val: nat, was: byte): byte
  {
    if t != FAT12 then val / 256 % 256
    else if c % 2 == 1 then val / 16 % 256
    else was / 16 * 16 + val / 256 % 16
  }

  /** The upper half of a FAT32 entry; its top four bits are kept. */
  function ThirdByte(val: nat): byte { val / 0x1_0000 % 256 }

  function FourthByte(val: nat, was: byte): byte { val / 0x100_0000 % 16 + was / 16 * 16 }

  /** The FAT after put_fat(c, val): two or four byte stores. The upper four bits of a
      FAT32 entry keep their value. */
  function PutEntry(t: FatType, b: seq<byte>, c: nat, val: nat): (b': seq<byte>)
    requires EntryOffset(t, c) + EntryBytes(t) <= |b|
    ensures |b'| == |b|
  {
    var o := EntryOffset(t, c);
    var b2 := b[o := FirstByte(t, c, val, b[o])][o + 1 := SecondByte(t, c, val, b[o + 1])];
    if t != FAT32 then b2
    else b2[o + 2 := ThirdByte(val)][o + 3 := FourthByte(val, b[o + 3])]
  }

  // Numbers split into the pieces the stores pick out of them.

  lemma Split16(v: nat)
    ensures v % 4096 == v % 16 + 16 * (v / 16 % 256)
  {
    var q := v / 16;
    assert v == 4096 * (q / 256) + (16 * (q % 256) + v % 16);
  }

  lemma Split256(v: nat)
    ensures v % 4096 == v % 256 + 256 * (v / 256 % 16)
  {
    var q := v / 256;
    assert v == 4096 * (q / 16) + (256 * (q % 16) + v % 256);
  }

  lemma SplitBytes(v: nat)
    ensures v % 0x1000_0000
         == v % 256 + 256 * (v / 256 % 256) + 0x1_0000 * (v / 0x1_0000 % 256) + 0x100_0000 * (v / 0x100_0000 % 16)
    ensures v % 0x1_0000 == v % 256 + 256 * (v / 256 % 256)
  {
    var q1 := v / 256;
    var q2 := q1 / 256;
    var q3 := q2 / 256;
    assert q2 == v / 0x1_0000;
    assert q3 == v / 0x100_0000;
    assert v == 256 * q1 + v % 256;
    assert q1 == 256 * q2 + q1 % 256;
    assert q2 == 256 * q3 + q2 % 256;
    assert q3 == 16 * (q3 / 16) + q3 % 16;
  }

  lemma PutOdd12(val: nat, x: int, w: int)
    requires 0 <= x < 16 && w == x + val % 16 * 16 + 256 * (val / 16 % 256)
    ensures w / 16 == val % 4096
  {
    Split16(val);
  }

  lemma PutEven12(val: nat, y: int, w: int)
    requires 0 <= y < 16 && w == val % 256 + 256 * (y * 16 + val / 256 % 16)
    ensures w % 4096 == val % 4096
  {
    Split256(val);
    assert w == 4096 * y + val % 4096;
  }

  lemma FourBytes(c: nat, val: nat, x: byte, y: byte, z: byte)
    ensures (Le16(FirstByte(FAT32, c, val, x), SecondByte(FAT32, c, val, y))
             + 0x1_0000 * Le16(ThirdByte(val), FourthByte(val, z))) % 0x1000_0000 == val % 0x1000_0000
  {
    SplitBytes(val);
    var w := Le16(FirstByte(FAT32, c, val, x), SecondByte(FAT32, c, val, y))
             + 0x1_0000 * Le16(ThirdByte(val), FourthByte(val, z));
    assert w == 0x1000_0000 * (z as int / 16) + val % 0x1000_0000;
  }

  lemma KeepLowNibble(lo: int, hi: int, hi': int)
    requires 0 <= lo < 256 && 0 <= hi < 256 && 0 <= hi' < 256 && hi % 16 == hi' % 16
    ensures (lo + 256 * hi) % 4096 == (lo + 256 * hi') % 4096
  {
    assert lo + 256 * hi == 4096 * (hi / 16) + (lo + 256 * (hi % 16));
    assert lo + 256 * hi' == 4096 * (hi' / 16) + (lo + 256 * (hi' % 16));
  }

  lemma KeepHighNibble(lo: int, lo': int, hi: int)
    requires 0 <= lo < 256 && 0 <= lo' < 256 && 0 <= hi < 256 && lo / 16 == lo' / 16
    ensures (lo + 256 * hi) / 16 == (lo' + 256 * hi) / 16
  {
    assert lo + 256 * hi == 16 * (lo / 16 + 16 * hi) + lo % 16;
    assert lo' + 256 * hi == 16 * (lo' / 16 + 16 * hi) + lo' % 16;
  }

  lemma PutThenGet12(b: seq<byte>, c: nat, val: nat, d: nat)
    requires EntryOffset(FAT12, c) + 2 <= |b| && EntryOffset(FAT12, d) + 2 <= |b|
    ensures Entry(FAT12, PutEntry(FAT12, b, c, val), d) == if d == c then val % 4096 else Entry(FAT12, b, d)
  {
    var b' := PutEntry(FAT12, b, c, val);
    var o, p := EntryOffset(FAT12, c), EntryOffset(FAT12, d);
    if d == c && c % 2 == 1 {
      PutOdd12(val, b[o] % 16, Le16(b'[o], b'[o + 1]));
    } else if d == c {
      PutEven12(val, b[o + 1] / 16, Le16(b'[o], b'[o + 1]));
    } else if p + 1 == o {
      KeepLowNibble(b[p], b[o], b'[o]);
    } else if o + 1 == p {
      KeepHighNibble(b[p], b'[p], b[p + 1]);
    }
  }

  lemma PutThenGetSame32(b: seq<byte>, c: nat, val: nat)
    requires 4 * c + 4 <= |b|
    ensures Entry(FAT32, PutEntry(FAT32, b, c, val), c) == val % 0x1000_0000
  {
    hide Le16, FirstByte, SecondByte, ThirdByte, FourthByte;
    FourBytes(c, val, b[4 * c], b[4 * c + 1], b[4 * c + 3]);
  }

  lemma PutThenGetOther32(b: seq<byte>, c: nat, val: nat, d: nat)
    requires 4 * c + 4 <= |b| && 4 * d + 4 <= |b| && d != c
    ensures Entry(FAT32, PutEntry(FAT32, b, c, val), d) == Entry(FAT32, b, d)
  {
    hide Le16, FirstByte, SecondByte, ThirdByte, FourthByte;
    var b', p := PutEntry(FAT32, b, c, val), 4 * d;
    assert b'[p] == b[p] && b'[p + 1] == b[p + 1] && b'[p + 2] == b[p + 2] && b'[p + 3] == b[p + 3];
  }

  /** put_fat then get_fat: entry c holds the value masked to the entry width and every
      other entry keeps its value, although neighbouring FAT12 entries share a byte. */
  lemma PutThenGet(t: FatType, b: seq<byte>, c: nat, val: nat, d: nat)
    requires EntryOffset(t, c) + EntryBytes(t) <= |b|
    requires EntryOffset(t, d) + EntryBytes(t) <= |b|
    ensures Entry(t, PutEntry(t, b, c, val), d) == if d == c then val % EntryRange(t) else Entry(t, b, d)
  {
    match t
    case FAT12 => PutThenGet12(b, c, val, d);
    case FAT16 => SplitBytes(val);
    case FAT32 => if d == c { PutThenGetSame32(b, c, val); } else { PutThenGetOther32(b, c, val, d); }
  }

  lemma EntriesAfterPut(t: FatType, b: seq<byte>, n: nat, c: nat, val: nat)
    requires FatBytesNeeded(t, n) <= |b| && c < n
    ensures EntryOffset(t, c) + EntryBytes(t) <= |b|
    ensures Entries(t, PutEntry(t, b, c, val), n) == Entries(t, b, n)[c := val % EntryRange(t)]
  {
    EntryFits(t, n, c);
    forall d | 0 <= d < n
      ensures Entries(t, PutEntry(t, b, c, val), n)[d] == Entries(t, b, n)[c := val % EntryRange(t)][d]
    {
      EntryFits(t, n, d);
      PutThenGet(t, b, c, val, d);
    }
  }

  // ------------------------------------------------------------ the layout on disk

  /** Four-bit digit k of the bytes, low half of each byte first. */
  function Nibble(b: seq<byte>, k: nat): nat
    requires k / 2 < |b|
  {
    if k % 2 == 0 then b[k / 2] as int % 16 else b[k / 2] as int / 16
  }

  /** The number spelled out by n digits from digit k on, least significant first. */
  function Number(b: seq<byte>, k: nat, n: nat): nat
    requires n == 0 || (k + n - 1) / 2 < |b|
    decreases n
  {
    if n == 0 then 0 else Nibble(b, k) + 16 * Number(b, k + 1, n - 1)
  }

  /** Digits from one entry to the next, and digits of an entry: 3, 4 and 8, of which FAT32 uses 7. */
  function Stride(t: FatType): nat { if t == FAT12 then 3 else if t == FAT16 then 4 else 8 }

  function Digits(t: FatType): nat { if t == FAT12 then 3 else if t == FAT16 then 4 else 7 }

  function Power16(i: nat): (r: nat)
    ensures r > 0
  {
    if i == 0 then 1 else 16 * Power16(i - 1)
  }

  /** Entry c is the little-endian number in its digits of the FAT. */
  lemma EntryIsNumber(t: FatType, b: seq<byte>, c: nat)
    requires EntryOffset(t, c) + EntryBytes(t) <= |b|
    ensures (Stride(t) * c + Digits(t) - 1) / 2 < |b|
    ensures Entry(t, b, c) == Number(b, Stride(t) * c, Digits(t))
  {
    hide Number;
    match t
    case FAT12 => Number12(b, c);
    case FAT16 => Number16(b, c);
    case FAT32 => Number32(b, c);
  }

  lemma Number12(b: seq<byte>, c: nat)
    requires EntryOffset(FAT12, c) + 2 <= |b|
    ensures (3 * c + 2) / 2 < |b| && Entry(FAT12, b, c) == Number(b, 3 * c, 3)
  {
    hide Number;
    var o := EntryOffset(FAT12, c);
    var m := c / 2;
    TwoNibbles(b[o]);
    TwoNibbles(b[o + 1]);
    if c % 2 == 0 {
      assert c == 2 * m && o == 3 * m && 3 * c == 2 * o;
      NumberOf3(b, 2 * o);
      SplitAt12(b[o], b[o + 1]);
    } else {
      assert c == 2 * m + 1 && o == 3 * m + 1 && 3 * c == 2 * o + 1;
      NumberOf3(b, 2 * o + 1);
      SplitAt12(b[o], b[o + 1]);
    }
  }

  lemma SplitAt12(x: byte, y: byte)
    ensures Le16(x, y) % 4096 == x as int + 256 * (y as int % 16)
    ensures Le16(x, y) / 16 == x as int / 16 + 16 * y as int
  {
    assert Le16(x, y) == 4096 * (y as int / 16) + (x as int + 256 * (y as int % 16));
    assert Le16(x, y) == 16 * (x as int / 16 + 16 * y as int) + x as int % 16;
  }

  lemma Number16(b: seq<byte>, c: nat)
    requires 2 * c + 2 <= |b|
    ensures (4 * c + 3) / 2 < |b| && Entry(FAT16, b, c) == Number(b, 4 * c, 4)
  {
    hide Number;
    NumberOf4(b, 4 * c);
    TwoNibbles(b[2 * c]);
    TwoNibbles(b[2 * c + 1]);
  }

  lemma Number32(b: seq<byte>, c: nat)
    requires 4 * c + 4 <= |b|
    ensures (8 * c + 6) / 2 < |b| && Entry(FAT32, b, c) == Number(b, 8 * c, 7)
  {
    hide Number, Le16, Nibble;
    var o := 4 * c;
    NumberOf7(b, 8 * c);
    SevenDigits(b[o], b[o + 1], b[o + 2], b[o + 3]);
    ByteDigits(b, o);
    ByteDigits(b, o + 1);
    ByteDigits(b, o + 2);
    ByteDigits(b, o + 3);
  }

  lemma ByteDigits(b: seq<byte>, o: nat)
    requires o < |b|
    ensures Nibble(b, 2 * o) == b[o] as int % 16 && b[o] as int == Nibble(b, 2 * o) + 16 * Nibble(b, 2 * o + 1)
  {
    TwoNibbles(b[o]);
  }

  lemma TwoNibbles(x: byte)
    ensures x as int == x as int % 16 + 16 * (x as int / 16) && x as int / 16 < 16
  {
  }

  lemma NumberOf3(b: seq<byte>, k: nat)
    requires (k + 2) / 2 < |b|
    ensures Number(b, k, 3) == Nibble(b, k) + 16 * Nibble(b, k + 1) + 256 * Nibble(b, k + 2)
  {
    assert Number(b, k + 3, 0) == 0;
    assert Number(b, k + 2, 1) == Nibble(b, k + 2);
    assert Number(b, k + 1, 2) == Nibble(b, k + 1) + 16 * Number(b, k + 2, 1);
  }

  lemma NumberOf4(b: seq<byte>, k: nat)
    requires (k + 3) / 2 < |b|
    ensures Number(b, k, 4)
         == Nibble(b, k) + 16 * Nibble(b, k + 1) + 256 * Nibble(b, k + 2) + 4096 * Nibble(b, k + 3)
  {
    NumberOf3(b, k + 1);
  }

  lemma NumberOf7(b: seq<byte>, k: nat)
    requires (k + 6) / 2 < |b|
    ensures Number(b, k, 7)
         == Nibble(b, k) + 16 * Nibble(b, k + 1) + 256 * Nibble(b, k + 2)
            + 4096 * (Nibble(b, k + 3) + 16 * Nibble(b, k + 4) + 256 * Nibble(b, k + 5) + 4096 * Nibble(b, k + 6))
  {
    NumberOf4(b, k + 3);
    assert Number(b, k + 2, 5) == Nibble(b, k + 2) + 16 * Number(b, k + 3, 4);
    assert Number(b, k + 1, 6) == Nibble(b, k + 1) + 16 * Number(b, k + 2, 5);
  }

  lemma SevenDigits(x: byte, y: byte, z: byte, w: byte)
    ensures (Le16(x, y) + 0x1_0000 * Le16(z, w)) % 0x1000_0000
         == x as int + 256 * y as int + 0x1_0000 * z as int + 0x100_0000 * (w as int % 16)
  {
    assert Le16(x, y) + 0x1_0000 * Le16(z, w)
        == 0x1000_0000 * (w as int / 16)
           + (x as int + 256 * y as int + 0x1_0000 * z as int + 0x100_0000 * (w as int % 16));
  }

  /** put_fat stores the digits of the value in the digits of its entry and leaves every other digit of
      the FAT alone: the neighbour's half of a shared FAT12 byte, and the top four bits of a FAT32
      entry. */
  lemma PutDigits(t: FatType, b: seq<byte>, c: nat, val: nat, k: nat)
    requires EntryOffset(t, c) + EntryBytes(t) <= |b| && k / 2 < |b|
    ensures Nibble(PutEntry(t, b, c, val), k)
         == if Stride(t) * c <= k < Stride(t) * c + Digits(t) then val / Power16(k - Stride(t) * c) % 16
            else Nibble(b, k)
  {
    hide Power16;
    Powers();
    match t
    case FAT12 => PutDigits12(b, c, val, k);
    case FAT16 => PutDigits16(b, c, val, k);
    case FAT32 => PutDigits32(b, c, val, k);
  }

  lemma Powers()
    ensures Power16(0) == 1 && Power16(1) == 16 && Power16(2) == 256 && Power16(3) == 4096
    ensures Power16(4) == 0x1_0000 && Power16(5) == 0x10_0000 && Power16(6) == 0x100_0000
  {
    assert Power16(2) == 16 * Power16(1);
    assert Power16(3) == 16 * Power16(2);
    assert Power16(4) == 16 * Power16(3);
    assert Power16(5) == 16 * Power16(4);
  }

  lemma PutDigits12(b: seq<byte>, c: nat, val: nat, k: nat)
    requires EntryOffset(FAT12, c) + 2 <= |b| && k / 2 < |b|
    ensures Nibble(PutEntry(FAT12, b, c, val), k)
         == if k == 3 * c then val % 16 else if k == 3 * c + 1 then val / 16 % 16
            else if k == 3 * c + 2 then val / 256 % 16 else Nibble(b, k)
  {
    var o := EntryOffset(FAT12, c);
    var m := c / 2;
    assert c == 2 * m || c == 2 * m + 1;
    TwoDigits(val);
    TwoDigits(val / 16);
    if k / 2 == o { Halves(b[o], val); }
    if k / 2 == o + 1 { Halves(b[o + 1], val / 256); }
  }

  lemma Halves(x: byte, v: nat)
    ensures (x as int % 16 + v % 16 * 16) % 16 == x as int % 16 && (x as int % 16 + v % 16 * 16) / 16 == v % 16
    ensures (x as int / 16 * 16 + v % 16) % 16 == v % 16 && (x as int / 16 * 16 + v % 16) / 16 == x as int / 16
  {
  }

  lemma PutDigits16(b: seq<byte>, c: nat, val: nat, k: nat)
    requires 2 * c + 2 <= |b| && k / 2 < |b|
    ensures Nibble(PutEntry(FAT16, b, c, val), k)
         == if k == 4 * c then val % 16 else if k == 4 * c + 1 then val / 16 % 16
            else if k == 4 * c + 2 then val / 256 % 16 else if k == 4 * c + 3 then val / 4096 % 16
            else Nibble(b, k)
  {
    TwoDigits(val);
    TwoDigits(val / 256);
    Quotients(val);
  }

  lemma PutDigits32(b: seq<byte>, c: nat, val: nat, k: nat)
    requires 4 * c + 4 <= |b| && k / 2 < |b|
    ensures Nibble(PutEntry(FAT32, b, c, val), k)
         == if k == 8 * c then val % 16 else if k == 8 * c + 1 then val / 16 % 16
            else if k == 8 * c + 2 then val / 256 % 16 else if k == 8 * c + 3 then val / 4096 % 16
            else if k == 8 * c + 4 then val / 0x1_0000 % 16 else if k == 8 * c + 5 then val / 0x10_0000 % 16
            else if k == 8 * c + 6 then val / 0x100_0000 % 16 else Nibble(b, k)
  {
    TwoDigits(val);
    TwoDigits(val / 256);
    TwoDigits(val / 0x1_0000);
    Quotients(val);
    Halves(b[4 * c + 3], val / 0x100_0000);
  }

  lemma TwoDigits(v: nat)
    ensures v % 256 % 16 == v % 16 && v % 256 / 16 == v / 16 % 16 && v / 16 / 16 == v / 256
  {
    var q, a := v / 16, v % 16;
    var r, b := q / 16, q % 16;
    By256(v, r, 16 * b + a);
    By16(16 * b + a, b, a);
  }

  lemma By256(v: nat, q: nat, r: nat)
    requires v == 256 * q + r && r < 256
    ensures v / 256 == q && v % 256 == r
  {
  }

  lemma By16(v: nat, q: nat, r: nat)
    requires v == 16 * q + r && r < 16
    ensures v / 16 == q && v % 16 == r
  {
  }

  lemma Quotients(v: nat)
    ensures v / 256 / 16 == v / 4096 && v / 0x1_0000 / 16 == v / 0x10_0000
  {
  }
}
