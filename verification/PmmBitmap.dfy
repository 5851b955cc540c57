/** The page bitmap: one bit per page, eight pages to a byte. */
module PmmBitmap {
  function Place(i: nat): (k: bv8)
    requires i < 8
    ensures k < 8
  {
    i as bv8
  }

  function SetAt(b: bv8, k: bv8): bv8 requires k < 8 { b | (1 << k) }

  function ClearAt(b: bv8, k: bv8): bv8 requires k < 8 { b & !(1 << k) }

  predicate TestAt(b: bv8, k: bv8) requires k < 8 { (b >> k) & 1 == 1 }

  /** Whether page p is marked in use. */
  predicate Bit(bitmap: seq<bv8>, p: nat)
    requires p / 8 < |bitmap|
  {
    TestAt(bitmap[p / 8], Place(p % 8))
  }

  function SetBit(bitmap: seq<bv8>, p: nat): seq<bv8>
    requires p / 8 < |bitmap|
  {
    bitmap[p / 8 := SetAt(bitmap[p / 8], Place(p % 8))]
  }

  function ClearBit(bitmap: seq<bv8>, p: nat): seq<bv8>
    requires p / 8 < |bitmap|
  {
    bitmap[p / 8 := ClearAt(bitmap[p / 8], Place(p % 8))]
  }

  lemma Distinct(i: nat, j: nat)
    requires i < 8 && j < 8
    ensures Place(i) == Place(j) <==> i == j
  {
    assert Place(i) as nat == i && Place(j) as nat == j;
  }

  lemma TestAfter(b: bv8, i: bv8, j: bv8)
    requires i < 8 && j < 8
    ensures TestAt(SetAt(b, i), j) <==> i == j || TestAt(b, j)
    ensures TestAt(ClearAt(b, i), j) <==> i != j && TestAt(b, j)
  {
  }

  /** Setting or clearing the bit of one page leaves that of every other page alone. */
  lemma BitAfter(s: seq<bv8>, p: nat, q: nat)
    requires p / 8 < |s| && q / 8 < |s|
    ensures Bit(SetBit(s, p), q) <==> p == q || Bit(s, q)
    ensures Bit(ClearBit(s, p), q) <==> p != q && Bit(s, q)
  {
    hide TestAt, SetAt, ClearAt, Place;
    if p / 8 == q / 8 {
      TestAfter(s[p / 8], Place(p % 8), Place(q % 8));
      Distinct(p % 8, q % 8);
      assert p == q <==> p % 8 == q % 8;
    }
  }
}
