/** Page types and their counts. */
module PmmPages {
  const MAX_PAGES: nat := 32768
  const PAGE: nat := 4096
  const U64: nat := 0x1_0000_0000_0000_0000

  datatype PageType = Free | Kernel | PageTable | UserData | UserPageTable | Device | Reserved

  /** A page is in use exactly if its type is not Free. */
  predicate Agree(bits: seq<bool>, kind: seq<PageType>)
  {
    |bits| == |kind| && forall p :: 0 <= p < |bits| ==> (bits[p] <==> kind[p] != Free)
  }

  function Count(kind: seq<PageType>, t: PageType): (n: nat)
    ensures n <= |kind|
  {
    if kind == [] then 0 else Count(kind[..|kind| - 1], t) + (if kind[|kind| - 1] == t then 1 else 0)
  }

  function ClearBits(bits: seq<bool>): nat
  {
    if bits == [] then 0 else ClearBits(bits[..|bits| - 1]) + (if bits[|bits| - 1] then 0 else 1)
  }

  lemma {:induction false} FreeIsClear(bits: seq<bool>, kind: seq<PageType>)
    requires Agree(bits, kind)
    ensures Count(kind, Free) == ClearBits(bits)
  {
    if bits != [] { FreeIsClear(bits[..|bits| - 1], kind[..|kind| - 1]); }
  }

  lemma {:induction false} CountUpdate(kind: seq<PageType>, p: nat, t: PageType, u: PageType)
    requires p < |kind|
    ensures Count(kind[p := t], u) == Count(kind, u) - (if kind[p] == u then 1 else 0) + (if t == u then 1 else 0)
  {
    var n := |kind| - 1;
    if p == n {
      assert kind[p := t][..n] == kind[..n];
    } else {
      assert kind[p := t][..n] == kind[..n][p := t];
      CountUpdate(kind[..n], p, t, u);
    }
  }

  lemma {:induction false} CountAll(kind: seq<PageType>, t: PageType, u: PageType)
    requires forall p :: 0 <= p < |kind| ==> kind[p] == t
    ensures Count(kind, u) == if t == u then |kind| else 0
  {
    if kind != [] { CountAll(kind[..|kind| - 1], t, u); }
  }

  /** Position of a type in the array of counters. */
  function Index(t: PageType): (i: nat)
    ensures i < 7
  {
    match t
    case Free => 0 case Kernel => 1 case PageTable => 2 case UserData => 3
    case UserPageTable => 4 case Device => 5 case Reserved => 6
  }

  /** What a 64-bit counter of n pages reads when `less` of them were never entered. */
  function Reading(n: nat, less: nat): nat { (n - less) % U64 }

  /** Every counter reads the number of pages of its type; `uncounted` reserved pages were never
      entered. */
  predicate Counted(c: seq<nat>, kind: seq<PageType>, uncounted: nat)
  {
    |c| == 7 && forall t: PageType :: c[Index(t)] == Reading(Count(kind, t), if t == Reserved then uncounted else 0)
  }

  function Up(x: nat): nat { (x + 1) % U64 }

  function Down(x: nat): nat { (x - 1) % U64 }

  /** One page leaves the count of one type and enters that of another. */
  function Moved(c: seq<nat>, from: PageType, to: PageType): seq<nat>
    requires |c| == 7
  {
    var d := c[Index(from) := Down(c[Index(from)])];
    d[Index(to) := Up(d[Index(to)])]
  }

  lemma Readings(n: nat, less: nat)
    ensures Up(Reading(n, less)) == Reading(n + 1, less)
    ensures n > 0 ==> Down(Reading(n, less)) == Reading(n - 1, less)
    ensures Up(Down(Reading(n, less))) == Reading(n, less)
    ensures Reading(n + 1, less + 1) == Reading(n, less)
  {
    var q := (n - less) / U64;
    var r := (n - less) % U64;
    assert n - less == q * U64 + r;
    if r + 1 == U64 {
      assert n + 1 - less == (q + 1) * U64;
    } else {
      assert n + 1 - less == q * U64 + (r + 1);
    }
    if r == 0 {
      assert n - 1 - less == (q - 1) * U64 + (U64 - 1);
    } else {
      assert n - 1 - less == q * U64 + (r - 1);
    }
  }

  lemma MovedAt(c: seq<nat>, from: PageType, to: PageType, u: PageType)
    requires |c| == 7
    ensures |Moved(c, from, to)| == 7
    ensures Moved(c, from, to)[Index(u)]
         == if from == u && to == u then Up(Down(c[Index(u)]))
            else if from == u then Down(c[Index(u)])
            else if to == u then Up(c[Index(u)]) else c[Index(u)]
  {
  }

  lemma CountedMoved(c: seq<nat>, kind: seq<PageType>, uncounted: nat, p: nat, t: PageType)
    requires Counted(c, kind, uncounted) && p < |kind|
    ensures |c| == 7 && Counted(Moved(c, kind[p], t), kind[p := t], uncounted)
  {
    hide Reading, Moved, Index, Count, Up, Down;
    forall u: PageType
      ensures |Moved(c, kind[p], t)| == 7
           && Moved(c, kind[p], t)[Index(u)] == Reading(Count(kind[p := t], u), if u == Reserved then uncounted else 0)
    {
      CountUpdate(kind, p, t, u);
      MovedAt(c, kind[p], t, u);
      Readings(Count(kind, u), if u == Reserved then uncounted else 0);
    }
    MovedAt(c, kind[p], t, t);
  }

  lemma CountedFree(c: seq<nat>, kind: seq<PageType>, uncounted: nat)
    requires Counted(c, kind, uncounted) && |kind| < U64
    ensures c[Index(Free)] == Count(kind, Free)
  {
    hide Count;
    SmallReading(Count(kind, Free));
    assert c[Index(Free)] == Reading(Count(kind, Free), 0);
  }

  lemma SmallReading(n: nat)
    requires n < U64
    ensures Reading(n, 0) == n
  {
  }
}
