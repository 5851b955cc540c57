/** The FAT as an allocation map: what create_chain and remove_chain may do to it, and what
    every run of them keeps. */
module FatAlloc {
  import opened FatEntries
  import opened FatGeometry

  /** What an allocation step reads and changes: the table, last_clst and free_clst. */
  datatype Alloc = Alloc(fat: seq<nat>, last: nat, free: nat)

  /** 0xFFFFFFFF cut to the width of an entry. */
  function EndOfChain(t: FatType): nat { EntryRange(t) - 1 }

  predicate InRange(fat: seq<nat>, c: nat) { 2 <= c < |fat| }

  /** Entry c links to another cluster. */
  predicate Links(fat: seq<nat>, c: nat) { InRange(fat, c) && InRange(fat, fat[c]) }

  /** The table is big enough to be one mount_volume accepts for this entry width, so that
      the end-of-chain mark is no cluster number. */
  predicate Sized(t: FatType, fat: seq<nat>) { 3 <= |fat| <= MaxClusters(t) + 2 }

  // ------------------------------------------------------------ counting free clusters

  /** Free entries in [2, hi). */
  function FreeBelow(fat: seq<nat>, hi: nat): nat
    requires hi <= |fat|
  {
    if hi <= 2 then 0 else FreeBelow(fat, hi - 1) + if fat[hi - 1] == 0 then 1 else 0
  }

  function FreeCount(fat: seq<nat>): nat { FreeBelow(fat, |fat|) }

  lemma {:induction false} FreeAfterUpdate(fat: seq<nat>, c: nat, v: nat, hi: nat)
    requires InRange(fat, c) && hi <= |fat|
    ensures FreeBelow(fat[c := v], hi)
         == FreeBelow(fat, hi) + if c < hi then (if v == 0 then 1 else 0) - (if fat[c] == 0 then 1 else 0) else 0
  {
    if hi > 2 { FreeAfterUpdate(fat, c, v, hi - 1); }
  }

  lemma {:induction false} FreeBounds(fat: seq<nat>, hi: nat)
    requires hi <= |fat|
    ensures 0 <= FreeBelow(fat, hi) <= (if hi <= 2 then 0 else hi - 2)
    ensures FreeBelow(fat, hi) == 0 <==> forall c :: 2 <= c < hi ==> fat[c] != 0
  {
    if hi > 2 { FreeBounds(fat, hi - 1); }
  }

  /** A count that is not "unknown" is exact. */
  predicate CountExact(s: Alloc)
  {
    s.free <= |s.fat| - 2 ==> s.free == FreeCount(s.fat)
  }

  // ------------------------------------------------------------ searching

  /** The cluster at which the search for a free one starts. */
  function SearchStart(s: Alloc, clst: nat): nat
  {
    if clst == 0 then (if s.last == 0 || s.last >= |s.fat| then 1 else s.last)
    else if InRange(s.fat, s.last) then s.last else clst
  }

  function NextCluster(fat: seq<nat>, clst: nat): nat { if clst + 1 >= |fat| then 2 else clst + 1 }

  /** r is the first free cluster after `start`, wrapping around at the end of the table. */
  predicate FirstFreeAfter(fat: seq<nat>, start: nat, r: nat)
  {
    && InRange(fat, r) && fat[r] == 0
    && if start < r then forall c :: 2 <= c < |fat| && start < c < r ==> fat[c] != 0
       else forall c :: 2 <= c < |fat| && (start < c || c < r) ==> fat[c] != 0
  }

  /** The cluster create_chain takes: the next one if a chain is stretched and it is free,
      else the first free one from the hint on. */
  predicate Chosen(s: Alloc, clst: nat, r: nat)
  {
    if clst != 0 && 2 < |s.fat| && s.fat[NextCluster(s.fat, clst)] == 0 then r == NextCluster(s.fat, clst)
    else FirstFreeAfter(s.fat, SearchStart(s, clst), r)
  }

  function Linked(t: FatType, fat: seq<nat>, clst: nat, r: nat): (f: seq<nat>)
    requires InRange(fat, r) && (clst == 0 || InRange(fat, clst))
    ensures |f| == |fat|
  {
    var f := fat[r := EndOfChain(t)];
    if clst == 0 then f else f[clst := r]
  }

  /** One call create_chain(clst) on a device that does not fail. */
  ghost predicate CreateStep(t: FatType, s: Alloc, clst: nat, r: nat, s': Alloc)
  {
    if clst != 0 && (!InRange(s.fat, clst) || s.fat[clst] < 2) then r == 1 && s' == s
    else if clst != 0 && s.fat[clst] < |s.fat| then r == s.fat[clst] && s' == s
    else if s.free == 0 then r == 0 && s' == s
    else if r < 2 then
      && s' == s
      && (r == 0 ==> forall c: nat :: InRange(s.fat, c) ==> s.fat[c] != 0)
      && (r == 1 ==> exists c: nat :: InRange(s.fat, c) && s.fat[c] == 1)
    else
      && InRange(s.fat, r) && s.fat[r] == 0 && Chosen(s, clst, r)
      && s' == Alloc(Linked(t, s.fat, clst, r), r, if s.free <= |s.fat| - 2 then s.free - 1 else s.free)
  }

  // ------------------------------------------------------------ releasing

  function NonZero(fat: seq<nat>): nat
  {
    if fat == [] then 0 else NonZero(fat[..|fat| - 1]) + if fat[|fat| - 1] == 0 then 0 else 1
  }

  lemma {:induction false} NonZeroDrops(fat: seq<nat>, c: nat)
    requires c < |fat| && fat[c] != 0
    ensures NonZero(fat[c := 0]) == NonZero(fat) - 1
  {
    var k := |fat| - 1;
    if c == k {
      assert fat[c := 0][..k] == fat[..k];
    } else {
      assert fat[c := 0][..k] == fat[..k][c := 0];
      NonZeroDrops(fat[..k], c);
    }
  }

  /** The table after remove_chain's loop started at c: every entry met is zeroed, the walk
      ends at a value that is no cluster, at a free entry or at an entry holding 1. It ends
      on every table, cyclic or cross-linked ones included. */
  function Unlink(fat: seq<nat>, c: nat): (f: seq<nat>)
    ensures |f| == |fat|
    decreases NonZero(fat)
  {
    if InRange(fat, c) && fat[c] >= 2 then
      NonZeroDrops(fat, c);
      Unlink(fat[c := 0], fat[c])
    else fat
  }

  /** The value on which the walk stops: a cluster number of an entry holding 0 or 1, or no
      cluster at all. */
  function WalkEnd(fat: seq<nat>, c: nat): nat
    decreases NonZero(fat)
  {
    if InRange(fat, c) && fat[c] >= 2 then
      NonZeroDrops(fat, c);
      WalkEnd(fat[c := 0], fat[c])
    else c
  }

  /** The k-th cluster on the walk from c over the table as it is, 0 past its end. */
  function WalkAt(fat: seq<nat>, c: nat, k: nat): nat
  {
    if k == 0 then c
    else
      var p := WalkAt(fat, c, k - 1);
      if InRange(fat, p) && fat[p] >= 2 then fat[p] else 0
  }

  ghost predicate Visited(fat: seq<nat>, c: nat, d: nat)
  {
    exists k: nat :: WalkAt(fat, c, k) == d
  }

  /** What the walk from fat[c] meets once entry c is zeroed is what the walk from c meets. */
  lemma {:induction false} WalkTail(fat: seq<nat>, c: nat, k: nat) returns (m: nat)
    requires InRange(fat, c) && fat[c] >= 2
    requires WalkAt(fat, c, k) != 0 && WalkAt(fat, c, k) != c
    ensures WalkAt(fat[c := 0], fat[c], m) == WalkAt(fat, c, k)
  {
    var q := WalkAt(fat, c, k - 1);
    if q == c {
      m := 0;
    } else {
      m := WalkTail(fat, c, k - 1);
      m := m + 1;
    }
  }

  lemma {:induction false} WalkHead(fat: seq<nat>, c: nat, m: nat)
    requires InRange(fat, c) && fat[c] >= 2
    requires WalkAt(fat[c := 0], fat[c], m) != 0
    ensures WalkAt(fat, c, m + 1) == WalkAt(fat[c := 0], fat[c], m)
  {
    if m > 0 {
      WalkHead(fat, c, m - 1);
    } else {
      assert WalkAt(fat, c, 0) == c;
    }
  }

  lemma VisitedTail(fat: seq<nat>, c: nat, d: nat)
    requires InRange(fat, c) && fat[c] >= 2 && d != c && d != 0
    ensures Visited(fat, c, d) <==> Visited(fat[c := 0], fat[c], d)
  {
    if Visited(fat, c, d) {
      var k: nat :| WalkAt(fat, c, k) == d;
      var m := WalkTail(fat, c, k);
    }
    if Visited(fat[c := 0], fat[c], d) {
      var m: nat :| WalkAt(fat[c := 0], fat[c], m) == d;
      WalkHead(fat, c, m);
    }
  }

  /** remove_chain zeroes exactly the entries on the walk from its start cluster. */
  lemma {:induction false} UnlinkZeroesVisited(fat: seq<nat>, c: nat, d: nat)
    requires d < |fat|
    ensures Unlink(fat, c)[d] == if InRange(fat, d) && fat[d] >= 2 && Visited(fat, c, d) then 0 else fat[d]
    decreases NonZero(fat)
  {
    if InRange(fat, c) && fat[c] >= 2 {
      NonZeroDrops(fat, c);
      UnlinkZeroesVisited(fat[c := 0], fat[c], d);
      assert WalkAt(fat, c, 0) == c;
      if InRange(fat, d) && d != c { VisitedTail(fat, c, d); }
      if d == c { assert Visited(fat, c, d); }
    } else {
      if Visited(fat, c, d) && InRange(fat, d) && fat[d] >= 2 {
        var k: nat :| WalkAt(fat, c, k) == d;
        StuckWalk(fat, c, k);
      }
    }
  }

  lemma {:induction false} StuckWalk(fat: seq<nat>, c: nat, k: nat)
    requires !(InRange(fat, c) && fat[c] >= 2)
    ensures WalkAt(fat, c, k) == if k == 0 then c else 0
  {
    if k > 0 { StuckWalk(fat, c, k - 1); }
  }

  /** free_clst after k clusters were released one by one. */
  function Released(free: nat, k: nat, n: nat): nat
    requires n >= 2
  {
    if free >= n - 2 then free else if free + k <= n - 2 then free + k else n - 2
  }

  function Cut(t: FatType, fat: seq<nat>, pclst: nat): (f: seq<nat>)
    requires pclst == 0 || InRange(fat, pclst)
    ensures |f| == |fat|
  {
    if pclst == 0 then fat else fat[pclst := EndOfChain(t)]
  }

  /** One call remove_chain(clst, pclst) on a device that does not fail. */
  ghost predicate RemoveStep(t: FatType, s: Alloc, clst: nat, pclst: nat, res: FResult, s': Alloc)
  {
    if !InRange(s.fat, clst) || !(pclst == 0 || InRange(s.fat, pclst)) then res == IntErr && s' == s
    else
      var f := Cut(t, s.fat, pclst);
      var end := WalkEnd(f, clst);
      && s'.fat == Unlink(f, clst) && s'.last == s.last
      && FreeCount(f) <= FreeCount(s'.fat)
      && s'.free == Released(s.free, FreeCount(s'.fat) - FreeCount(f), |f|)
      && res == if InRange(f, end) && s'.fat[end] == 1 then IntErr else Ok
  }

  // ------------------------------------------------------------ what every run keeps

  /** Links strictly descend in rank, so there is no cycle. */
  predicate Ranked(fat: seq<nat>, rank: seq<nat>)
  {
    |rank| == |fat| && forall c :: 2 <= c < |fat| && Links(fat, c) ==> rank[fat[c]] < rank[c]
  }

  /** No two entries link to the same cluster. */
  predicate NoSharing(fat: seq<nat>)
  {
    forall c, d :: 2 <= c < |fat| && 2 <= d < |fat| && Links(fat, c) && fat[c] == fat[d] ==> c == d
  }

  /** No entry holds 1 and no entry links to a free cluster. */
  predicate NoDangling(fat: seq<nat>)
  {
    forall c :: 2 <= c < |fat| ==> fat[c] != 1 && (Links(fat, c) ==> fat[fat[c]] != 0)
  }

  /** The table is a set of disjoint, acyclic chains. */
  ghost predicate Chains(fat: seq<nat>)
  {
    NoDangling(fat) && NoSharing(fat) && exists rank: seq<nat> :: Ranked(fat, rank)
  }

  predicate NoLinkTo(fat: seq<nat>, c: nat)
  {
    forall d :: 2 <= d < |fat| ==> fat[d] != c
  }

  /** From any cluster in use the links lead, through clusters in use, to an end-of-chain
      value. */
  lemma {:induction false} ChainEnds(fat: seq<nat>, rank: seq<nat>, c: nat) returns (k: nat)
    requires NoDangling(fat) && Ranked(fat, rank) && InRange(fat, c) && fat[c] != 0
    ensures WalkAt(fat, c, k) >= |fat|
    ensures forall i: nat :: i < k ==> InRange(fat, WalkAt(fat, c, i)) && fat[WalkAt(fat, c, i)] >= 2
    decreases rank[c]
  {
    if Links(fat, c) {
      var m := ChainEnds(fat, rank, fat[c]);
      k := m + 1;
      forall i: nat | i <= k
        ensures WalkAt(fat, c, i) == if i == 0 then c else WalkAt(fat, fat[c], i - 1)
      {
        if i > 0 { WalkFromNext(fat, c, i - 1); }
      }
    } else {
      k := 1;
      assert WalkAt(fat, c, 0) == c && WalkAt(fat, c, 1) == fat[c];
    }
  }

  lemma {:induction false} WalkFromNext(fat: seq<nat>, c: nat, i: nat)
    requires InRange(fat, c) && fat[c] >= 2
    ensures WalkAt(fat, c, i + 1) == WalkAt(fat, fat[c], i)
  {
    if i > 0 { WalkFromNext(fat, c, i - 1); } else { assert WalkAt(fat, c, 0) == c; }
  }

  /** Two chains that share a cluster are one inside the other: chains of different heads
      are disjoint. */
  lemma {:induction false} ChainsDisjoint(fat: seq<nat>, c: nat, i: nat, d: nat, j: nat)
    requires NoSharing(fat) && InRange(fat, c) && InRange(fat, d)
    requires WalkAt(fat, c, i) == WalkAt(fat, d, j) && InRange(fat, WalkAt(fat, c, i))
    requires NoLinkTo(fat, c) && NoLinkTo(fat, d)
    ensures c == d && i == j
  {
    if i > 0 && j > 0 { ChainsDisjoint(fat, c, i - 1, d, j - 1); }
  }

  /** What holds of the table and the two hints in every reachable state. */
  ghost predicate Good(t: FatType, s: Alloc)
  {
    Sized(t, s.fat) && Chains(s.fat) && CountExact(s)
  }

  lemma RankAfterLink(t: FatType, fat: seq<nat>, rank: seq<nat>, clst: nat, r: nat) returns (rank': seq<nat>)
    requires Sized(t, fat) && Ranked(fat, rank) && NoDangling(fat)
    requires InRange(fat, r) && fat[r] == 0
    requires clst == 0 || (InRange(fat, clst) && fat[clst] >= |fat|)
    ensures Ranked(Linked(t, fat, clst, r), rank')
  {
    rank' := seq(|fat|, i requires 0 <= i < |rank| => if i == r then 0 else rank[i] + 1);
  }

  lemma CountAfterLink(t: FatType, fat: seq<nat>, clst: nat, r: nat)
    requires Sized(t, fat) && InRange(fat, r) && fat[r] == 0
    requires clst == 0 || (InRange(fat, clst) && fat[clst] >= |fat|)
    ensures FreeCount(Linked(t, fat, clst, r)) == FreeCount(fat) - 1
  {
    FreeAfterUpdate(fat, r, EndOfChain(t), |fat|);
    if clst != 0 { FreeAfterUpdate(fat[r := EndOfChain(t)], clst, r, |fat|); }
  }

  lemma CreateKeeps(t: FatType, s: Alloc, clst: nat, r: nat, s': Alloc)
    requires Good(t, s) && CreateStep(t, s, clst, r, s')
    ensures Good(t, s')
  {
    hide NoDangling, NoSharing, Linked, Ranked, Chosen, FreeBelow;
    if s' != s {
      var rank :| Ranked(s.fat, rank);
      var rank' := RankAfterLink(t, s.fat, rank, clst, r);
      CountAfterLink(t, s.fat, clst, r);
      LinkKeeps(t, s.fat, clst, r);
    }
  }

  lemma LinkKeeps(t: FatType, fat: seq<nat>, clst: nat, r: nat)
    requires Sized(t, fat) && NoDangling(fat) && NoSharing(fat)
    requires InRange(fat, r) && fat[r] == 0
    requires clst == 0 || (InRange(fat, clst) && fat[clst] >= |fat|)
    ensures NoDangling(Linked(t, fat, clst, r))
    ensures NoSharing(Linked(t, fat, clst, r))
  {
    var f := Linked(t, fat, clst, r);
    assert forall d :: 2 <= d < |f| && Links(f, d) ==> d == clst || (Links(fat, d) && f[d] == fat[d] && f[d] != r);
  }

  /** What a call of create_chain that takes a new cluster r does, in numbers: the entry of r gets all ones
      of its width, the old end links to r, every other entry stays, r is the new hint and a known
      count drops by one. A stretched chain takes the next cluster if it is free; else r is the first
      free one after the hint, without a hint after the end of the chain, and for a new chain the
      lowest free one. */
  lemma CreateMeans(t: FatType, s: Alloc, clst: nat, r: nat, s': Alloc)
    requires Good(t, s) && CreateStep(t, s, clst, r, s') && InRange(s.fat, r) && s.fat[r] == 0
    requires clst == 0 || (InRange(s.fat, clst) && s.fat[clst] >= |s.fat|)
    ensures s'.fat[r] == (match t case FAT12 => 0xFFF case FAT16 => 0xFFFF case FAT32 => 0x0FFF_FFFF)
    ensures clst != 0 ==> s'.fat[clst] == r
    ensures |s'.fat| == |s.fat| && forall c :: 0 <= c < |s.fat| && c != r && c != clst ==> s'.fat[c] == s.fat[c]
    ensures s'.last == r && s'.free == if s.free <= |s.fat| - 2 then s.free - 1 else s.free
    ensures clst != 0 && clst + 1 < |s.fat| && s.fat[clst + 1] == 0 ==> r == clst + 1
    ensures clst != 0 && clst + 1 < |s.fat| && s.fat[clst + 1] != 0 ==>
              FirstFreeAfter(s.fat, if 2 <= s.last < |s.fat| then s.last else clst, r)
    ensures clst == 0 && 2 <= s.last < |s.fat| ==> FirstFreeAfter(s.fat, s.last, r)
    ensures clst == 0 && (s.last <= 1 || s.last >= |s.fat|) ==> forall c :: 2 <= c < r ==> s.fat[c] != 0
  {
    FreeBounds(s.fat, |s.fat|);
  }

  /** What remove_chain does when it is called as its callers do, in numbers: it succeeds, the predecessor
      ends its chain with all ones, the entries on the walk are zero and all others stay. */
  lemma RemoveMeans(t: FatType, s: Alloc, clst: nat, pclst: nat, res: FResult, s': Alloc, d: nat)
    requires Good(t, s) && RemovesChain(s, clst, pclst) && RemoveStep(t, s, clst, pclst, res, s')
    requires InRange(s.fat, d)
    ensures |s'.fat| == |s.fat| && s'.last == s.last
    ensures d == pclst && !Visited(Cut(t, s.fat, pclst), clst, d) ==>
              s'.fat[d] == (match t case FAT12 => 0xFFF case FAT16 => 0xFFFF case FAT32 => 0x0FFF_FFFF)
    ensures d != pclst && !Visited(Cut(t, s.fat, pclst), clst, d) ==> s'.fat[d] == s.fat[d]
    ensures Visited(Cut(t, s.fat, pclst), clst, d) ==> s'.fat[d] == 0
  {
    hide Good, Unlink, WalkEnd;
    var f := Cut(t, s.fat, pclst);
    UnlinkZeroesVisited(f, clst, d);
    NoOnes(t, s, pclst, d);
  }

  lemma NoOnes(t: FatType, s: Alloc, pclst: nat, d: nat)
    requires Good(t, s) && InRange(s.fat, d) && (pclst == 0 || InRange(s.fat, pclst))
    ensures Cut(t, s.fat, pclst)[d] != 1
  {
  }

  /** create_chain reports "no free cluster" exactly when there is none, whatever the hint. */
  lemma NoFreeClusterIffFull(t: FatType, s: Alloc, clst: nat, r: nat, s': Alloc)
    requires Good(t, s) && CreateStep(t, s, clst, r, s')
    requires clst == 0 || (InRange(s.fat, clst) && s.fat[clst] >= |s.fat|)
    ensures r == 0 <==> forall c: nat :: InRange(s.fat, c) ==> s.fat[c] != 0
    ensures r == 0 || InRange(s.fat, r)
  {
    FreeBounds(s.fat, |s.fat|);
  }

  /** Overwriting an entry with 0, or with an end-of-chain value where nothing is lost, keeps
      the chains sound; the cluster it linked to then has no predecessor. */
  lemma OverwriteKeeps(fat: seq<nat>, rank: seq<nat>, c: nat, v: nat)
    requires NoDangling(fat) && NoSharing(fat) && Ranked(fat, rank)
    requires InRange(fat, c) && fat[c] >= 2
    requires v >= |fat| || (v == 0 && NoLinkTo(fat, c))
    ensures NoDangling(fat[c := v])
    ensures NoSharing(fat[c := v])
    ensures Ranked(fat[c := v], rank)
    ensures Links(fat, c) ==> NoLinkTo(fat[c := v], fat[c])
  {
    var f := fat[c := v];
    assert forall d :: 2 <= d < |f| && Links(f, d) ==> d != c && Links(fat, d) && f[d] == fat[d];
  }

  lemma {:induction false} UnlinkKeeps(fat: seq<nat>, rank: seq<nat>, c: nat)
    requires NoDangling(fat) && NoSharing(fat) && Ranked(fat, rank) && NoLinkTo(fat, c)
    ensures NoDangling(Unlink(fat, c)) && NoSharing(Unlink(fat, c)) && Ranked(Unlink(fat, c), rank)
    decreases NonZero(fat)
  {
    if InRange(fat, c) && fat[c] >= 2 {
      NonZeroDrops(fat, c);
      OverwriteKeeps(fat, rank, c, 0);
      if InRange(fat, fat[c]) {
        hide NoDangling, NoSharing, Ranked, NoLinkTo;
        UnlinkKeeps(fat[c := 0], rank, fat[c]);
      }
    }
  }

  lemma {:induction false} UnlinkCounts(fat: seq<nat>, c: nat)
    ensures FreeCount(fat) <= FreeCount(Unlink(fat, c))
    decreases NonZero(fat)
  {
    if InRange(fat, c) && fat[c] >= 2 {
      NonZeroDrops(fat, c);
      FreeAfterUpdate(fat, c, 0, |fat|);
      UnlinkCounts(fat[c := 0], fat[c]);
    }
  }

  /** What the callers of remove_chain see to: the whole chain of a head is removed, or the
      part after the given predecessor. */
  predicate RemovesChain(s: Alloc, clst: nat, pclst: nat)
  {
    InRange(s.fat, clst) && if pclst == 0 then NoLinkTo(s.fat, clst) else InRange(s.fat, pclst) && s.fat[pclst] == clst
  }

  lemma RemoveKeeps(t: FatType, s: Alloc, clst: nat, pclst: nat, res: FResult, s': Alloc)
    requires Good(t, s) && RemovesChain(s, clst, pclst) && RemoveStep(t, s, clst, pclst, res, s')
    ensures Good(t, s')
  {
    hide NoDangling, NoSharing, Ranked, NoLinkTo, Unlink, WalkEnd, FreeBelow;
    var rank :| Ranked(s.fat, rank);
    var f := Cut(t, s.fat, pclst);
    if pclst != 0 {
      OverwriteKeeps(s.fat, rank, pclst, EndOfChain(t));
      FreeAfterUpdate(s.fat, pclst, EndOfChain(t), |f|);
    }
    UnlinkKeeps(f, rank, clst);
    FreeBounds(s'.fat, |f|);
  }

  lemma {:induction false} WalkDescends(fat: seq<nat>, rank: seq<nat>, c: nat, k: nat)
    requires Ranked(fat, rank) && InRange(fat, c) && InRange(fat, WalkAt(fat, c, k))
    ensures rank[WalkAt(fat, c, k)] <= rank[c]
  {
    if k > 0 { WalkDescends(fat, rank, c, k - 1); }
  }

  /** Removing a whole chain from `clst` keeps the chains sound exactly when no entry links to
      `clst`: a tail removed without its predecessor leaves a link to a free cluster. */
  lemma RemoveWholeExact(fat: seq<nat>, clst: nat)
    requires Chains(fat) && InRange(fat, clst)
    ensures Chains(Unlink(fat, clst)) <==> NoLinkTo(fat, clst)
  {
    var rank :| Ranked(fat, rank);
    if NoLinkTo(fat, clst) {
      UnlinkKeeps(fat, rank, clst);
    } else {
      var d: nat :| InRange(fat, d) && fat[d] == clst;
      assert Links(fat, d);
      if Visited(fat, clst, d) {
        var k: nat :| WalkAt(fat, clst, k) == d;
        WalkDescends(fat, rank, clst, k);
      }
      UnlinkZeroesVisited(fat, clst, d);
      UnlinkZeroesVisited(fat, clst, clst);
      assert WalkAt(fat, clst, 0) == clst;
      assert Links(Unlink(fat, clst), d);
    }
  }

  datatype Call = Create(clst: nat, r: nat) | Remove(clst: nat, pclst: nat, res: FResult)

  /** `states` is a run: each call, made as its callers make it, takes one state to the next. */
  ghost predicate IsRun(t: FatType, states: seq<Alloc>, calls: seq<Call>)
  {
    && |states| == |calls| + 1
    && forall i :: 0 <= i < |calls| ==>
         match calls[i]
         case Create(clst, r) => CreateStep(t, states[i], clst, r, states[i + 1])
         case Remove(clst, pclst, res) =>
           RemovesChain(states[i], clst, pclst) && RemoveStep(t, states[i], clst, pclst, res, states[i + 1])
  }

  /** Over every run of create_chain and remove_chain the table stays a set of disjoint
      acyclic chains and a valid free_clst stays the number of free clusters. */
  lemma {:induction false} EveryRunGood(t: FatType, states: seq<Alloc>, calls: seq<Call>, i: nat)
    requires IsRun(t, states, calls) && Good(t, states[0]) && i < |states|
    ensures Good(t, states[i])
  {
    if i > 0 {
      EveryRunGood(t, states, calls, i - 1);
      match calls[i - 1]
      case Create(clst, r) => CreateKeeps(t, states[i - 1], clst, r, states[i]);
      case Remove(clst, pclst, res) => RemoveKeeps(t, states[i - 1], clst, pclst, res, states[i]);
    }
  }
}
