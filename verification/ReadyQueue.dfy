/** The ready queue: processes of the pool linked through their next and prev fields. */
module ReadyQueue {
  import opened ProcTable

  function NextIn(q: seq<int>, i: nat): int { if i + 1 < |q| then q[i + 1] else NONE }

  function PrevIn(q: seq<int>, i: nat): int { if 0 < i <= |q| then q[i - 1] else NONE }

  predicate Distinct(q: seq<int>)
  {
    && (forall i :: 0 <= i < |q| ==> 0 <= q[i] < MAX_PROCESSES)
    && (forall i, j :: 0 <= i < j < |q| ==> q[i] != q[j])
  }

  predicate Ends(head: int, tail: int, q: seq<int>)
  {
    head == (if q == [] then NONE else q[0]) && tail == if q == [] then NONE else q[|q| - 1]
  }

  predicate Links(next: seq<int>, prev: seq<int>, q: seq<int>)
  {
    forall i :: 0 <= i < |q| && 0 <= q[i] < |next| && q[i] < |prev| ==>
      next[q[i]] == NextIn(q, i) && prev[q[i]] == PrevIn(q, i)
  }

  predicate Unlinked(next: seq<int>, prev: seq<int>, q: seq<int>)
  {
    forall p :: 0 <= p < |next| && p < |prev| && p !in q ==> next[p] == NONE && prev[p] == NONE
  }

  /** The links spell out q and every process that is not on it is unlinked. */
  predicate Spells(next: seq<int>, prev: seq<int>, head: int, tail: int, q: seq<int>)
  {
    && |next| == |prev| == MAX_PROCESSES && Distinct(q) && Ends(head, tail, q)
    && Links(next, prev, q) && Unlinked(next, prev, q)
  }

  /** The link fields of all processes, and the two ends. */
  datatype Queue = Queue(next: seq<int>, prev: seq<int>, head: int, tail: int)

  predicate IsLink(p: int) { p == NONE || 0 <= p < MAX_PROCESSES }

  /** Every link is null or a process. */
  predicate Ranged(l: Queue)
  {
    && |l.next| == |l.prev| == MAX_PROCESSES && IsLink(l.head) && IsLink(l.tail)
    && forall p :: 0 <= p < MAX_PROCESSES ==> IsLink(l.next[p]) && IsLink(l.prev[p])
  }

  predicate SpellsOut(l: Queue, q: seq<int>) { Spells(l.next, l.prev, l.head, l.tail, q) }

  /** What add, remove and next do to the links, whatever they are. */
  function Added(l: Queue, p: int): Queue
    requires Ranged(l) && 0 <= p < MAX_PROCESSES
  {
    Queue(AddNext(l.next, l.tail, p), l.prev[p := l.tail], if l.tail != NONE then l.head else p, p)
  }

  function Removed(l: Queue, p: int): Queue
    requires Ranged(l) && 0 <= p < MAX_PROCESSES
  {
    if l.prev[p] == NONE && l.next[p] == NONE && l.head != p then l
    else
      Queue(RemoveNext(l.next, l.prev, p), RemovePrev(l.next, l.prev, p),
            if l.prev[p] != NONE then l.head else l.next[p], if l.next[p] != NONE then l.tail else l.prev[p])
  }

  function Taken(l: Queue): Queue
    requires Ranged(l)
  {
    if l.head == NONE then l
    else
      var p, n := l.head, l.next[l.head];
      Queue(l.next[p := NONE], (if n != NONE then l.prev[n := NONE] else l.prev)[p := NONE], n,
            if n != NONE then l.tail else NONE)
  }

  lemma RangedOn(l: Queue, p: int)
    requires Ranged(l) && 0 <= p < MAX_PROCESSES
    ensures Ranged(Added(l, p)) && Ranged(Removed(l, p)) && Ranged(Taken(l))
  {
  }

  class ReadyQueue {
    const next: array<int>
    const prev: array<int>
    var head: int
    var tail: int

    constructor ()
      ensures Sized() && fresh(next) && fresh(prev)
    {
      next := new int[MAX_PROCESSES];
      prev := new int[MAX_PROCESSES];
      head, tail := NONE, NONE;
    }

    ghost predicate Sized()
    {
      next.Length == MAX_PROCESSES && prev.Length == MAX_PROCESSES && next != prev
    }

    ghost function Links(): Queue
      reads this, next, prev
    {
      Queue(next[..], prev[..], head, tail)
    }

    /** Links in range; they may spell out a queue or not. */
    ghost predicate Linked()
      reads this, next, prev
    {
      Sized() && Ranged(Links())
    }

    /** scheduler_reset: the queue has no ends; the links of the processes stay. */
    method Reset()
      requires Linked()
      modifies this`head, this`tail
      ensures Linked() && Links() == old(Links()).(head := NONE, tail := NONE)
    {
      head, tail := NONE, NONE;
    }

    /** process_init: no process is linked. */
    method Clear()
      requires Sized()
      modifies this, next, prev
      ensures Linked() && SpellsOut(Links(), [])
    {
      var i := 0;
      while i < MAX_PROCESSES
        invariant 0 <= i <= MAX_PROCESSES && forall k :: 0 <= k < i ==> next[k] == NONE && prev[k] == NONE
      {
        next[i], prev[i] := NONE, NONE;
        i := i + 1;
      }
      head, tail := NONE, NONE;
    }

    /** scheduler_ready_queue_add. From a queue: the process joins the end; the links spell out a
        queue afterwards exactly if it was not on it already. */
    method Add(p: int)
      requires Linked() && 0 <= p < MAX_PROCESSES
      modifies this, next, prev
      ensures Linked() && Links() == Added(old(Links()), p)
      ensures forall q :: old(SpellsOut(Links(), q)) && p !in q ==> SpellsOut(Links(), q + [p])
      ensures forall q, r :: old(SpellsOut(Links(), q)) && p in q ==> !SpellsOut(Links(), r)
    {
      hide SpellsOut;
      ghost var l := Links();
      RangedOn(l, p);
      forall q | SpellsOut(l, q) && p !in q ensures SpellsOut(Added(l, p), q + [p]) { AddedOne(l, q, p); }
      forall q, r | SpellsOut(l, q) && p in q ensures !SpellsOut(Added(l, p), r) { AddedAgain(l, q, p, r); }
      next[p] := NONE;
      prev[p] := tail;
      if tail != NONE {
        next[tail] := p;
      } else {
        head := p;
      }
      tail := p;
      assert Links() == Added(l, p);
    }

    /** scheduler_ready_queue_remove. From a queue: the process leaves from wherever it stands; one
        that is not on it changes nothing. */
    method Remove(p: int)
      requires Linked() && 0 <= p < MAX_PROCESSES
      modifies this, next, prev
      ensures Linked() && Links() == Removed(old(Links()), p)
      ensures forall q :: old(SpellsOut(Links(), q)) ==> SpellsOut(Links(), Without(q, p))
    {
      hide SpellsOut;
      ghost var l := Links();
      RangedOn(l, p);
      forall q | SpellsOut(l, q) ensures SpellsOut(Removed(l, p), Without(q, p)) { RemovedOne(l, q, p); }
      if prev[p] == NONE && next[p] == NONE && head != p { return; }
      if prev[p] != NONE {
        next[prev[p]] := next[p];
      } else {
        head := next[p];
      }
      if next[p] != NONE {
        prev[next[p]] := prev[p];
      } else {
        tail := prev[p];
      }
      next[p] := NONE;
      prev[p] := NONE;
      assert Links() == Removed(l, p);
    }

    /** scheduler_ready_queue_next. From a queue: the first process leaves it. */
    method Next() returns (p: int)
      requires Linked()
      modifies this, next, prev
      ensures Linked() && p == old(head) && Links() == Taken(old(Links()))
      ensures forall q :: old(SpellsOut(Links(), q)) ==>
                if q == [] then p == NONE && SpellsOut(Links(), []) else p == q[0] && SpellsOut(Links(), q[1..])
    {
      hide SpellsOut;
      ghost var l := Links();
      RangedOn(l, 0);
      forall q | SpellsOut(l, q) ensures SpellsOut(Taken(l), if q == [] then [] else q[1..]) && l.head == HeadOf(q) {
        TakenOne(l, q);
      }
      if head == NONE { return NONE; }
      p := head;
      head := next[p];
      if head != NONE {
        prev[head] := NONE;
      } else {
        tail := NONE;
      }
      next[p] := NONE;
      prev[p] := NONE;
      assert Links() == Taken(l);
    }
  }

  function HeadOf(q: seq<int>): int { if q == [] then NONE else q[0] }

  // ------------------------------------------------------------ adding

  function AddNext(next: seq<int>, tail: int, p: int): seq<int>
    requires 0 <= p < |next| && (tail == NONE || 0 <= tail < |next|)
  {
    if tail != NONE then next[p := NONE][tail := p] else next[p := NONE]
  }

  lemma TailRange(next: seq<int>, prev: seq<int>, head: int, tail: int, q: seq<int>)
    requires Spells(next, prev, head, tail, q)
    ensures |next| == |prev| == MAX_PROCESSES && (tail == NONE || 0 <= tail < MAX_PROCESSES)
  {
  }

  lemma AddedOne(l: Queue, q: seq<int>, p: int)
    requires Ranged(l) && SpellsOut(l, q) && 0 <= p < MAX_PROCESSES && p !in q
    ensures SpellsOut(Added(l, p), q + [p])
  {
    AddNew(l.next, l.prev, l.head, l.tail, q, p);
  }

  lemma AddNew(next: seq<int>, prev: seq<int>, head: int, tail: int, q: seq<int>, p: int)
    requires Spells(next, prev, head, tail, q) && 0 <= p < MAX_PROCESSES && p !in q
    ensures tail == NONE || 0 <= tail < MAX_PROCESSES
    ensures Spells(AddNext(next, tail, p), prev[p := tail], if tail != NONE then head else p, p, q + [p])
  {
    hide NextIn, PrevIn, Links, Unlinked;
    TailRange(next, prev, head, tail, q);
    AddedLinks(next, prev, head, tail, q, p);
    AddedUnlinked(next, prev, head, tail, q, p);
  }

  lemma AddedUnlinked(next: seq<int>, prev: seq<int>, head: int, tail: int, q: seq<int>, p: int)
    requires Spells(next, prev, head, tail, q) && 0 <= p < MAX_PROCESSES && (tail == NONE || 0 <= tail < MAX_PROCESSES)
    ensures Unlinked(AddNext(next, tail, p), prev[p := tail], q + [p])
  {
    hide Links, Distinct, NextIn, PrevIn;
  }

  lemma AddedLinks(next: seq<int>, prev: seq<int>, head: int, tail: int, q: seq<int>, p: int)
    requires Spells(next, prev, head, tail, q) && 0 <= p < MAX_PROCESSES && p !in q
    requires (tail == NONE || 0 <= tail < MAX_PROCESSES)
    ensures Links(AddNext(next, tail, p), prev[p := tail], q + [p])
  {
    hide NextIn, PrevIn, Unlinked, Links, Distinct;
    var q', n', p' := q + [p], AddNext(next, tail, p), prev[p := tail];
    forall i | 0 <= i < |q'|
      ensures 0 <= q'[i] < MAX_PROCESSES && n'[q'[i]] == NextIn(q', i) && p'[q'[i]] == PrevIn(q', i)
    {
      Neighbours(q', i);
      if i < |q| {
        LinkAt(next, prev, head, tail, q, i);
        Neighbours(q, i);
        Differ(next, prev, head, tail, q, i, |q| - 1);
      }
    }
    assert Links(n', p', q') by { LinksHold(n', p', q'); }
  }

  lemma LinksHold(next: seq<int>, prev: seq<int>, q: seq<int>)
    requires |next| == |prev| == MAX_PROCESSES
    requires forall i :: 0 <= i < |q| ==>
               0 <= q[i] < MAX_PROCESSES && next[q[i]] == NextIn(q, i) && prev[q[i]] == PrevIn(q, i)
    ensures Links(next, prev, q)
  {
  }

  lemma PositionOf(q: seq<int>, p: int) returns (i: nat)
    requires p in q
    ensures i < |q| && q[i] == p
  {
    i :| 0 <= i < |q| && q[i] == p;
  }

  lemma Before(q: seq<int>, i: nat)
    requires Distinct(q) && i < |q|
    ensures forall k :: 0 <= k < i ==> q[k] != q[i] && q[k] != q[|q| - 1]
    ensures i < |q| - 1 ==> q[i] != q[|q| - 1]
  {
  }

  /** Links that spell out a queue point back and forth. */
  lemma BackAndForth(l: Queue, q: seq<int>, x: int)
    requires SpellsOut(l, q) && 0 <= x < MAX_PROCESSES
    ensures l.next[x] != NONE ==> 0 <= l.next[x] < MAX_PROCESSES && l.next[x] != x && l.prev[l.next[x]] == x
    ensures x == l.head ==> l.prev[x] == NONE
  {
    hide NextIn, PrevIn;
    if x in q {
      var i := PositionOf(q, x);
      LinkAt(l.next, l.prev, l.head, l.tail, q, i);
      Neighbours(q, i);
      if i + 1 < |q| {
        LinkAt(l.next, l.prev, l.head, l.tail, q, i + 1);
        Neighbours(q, i + 1);
        Differ(l.next, l.prev, l.head, l.tail, q, i, i + 1);
      }
      if x == l.head { Differ(l.next, l.prev, l.head, l.tail, q, i, 0); }
    }
  }

  /** Several processes added one after another. */
  function AddedAll(l: Queue, xs: seq<int>): (r: Queue)
    requires Ranged(l) && forall k :: 0 <= k < |xs| ==> 0 <= xs[k] < MAX_PROCESSES
    ensures Ranged(r)
  {
    if xs == [] then l
    else
      var m := AddedAll(l, xs[..|xs| - 1]);
      RangedOn(m, xs[|xs| - 1]);
      Added(m, xs[|xs| - 1])
  }

  /** The links after processes were added, queued before or not: the ends, */
  lemma {:induction false} EndsAfter(l: Queue, xs: seq<int>)
    requires Ranged(l) && Distinct(xs)
    ensures var r := AddedAll(l, xs);
      r.tail == (if xs == [] then l.tail else xs[|xs| - 1]) && (l.tail != NONE ==> r.head == l.head)
  {
    hide Added, Ranged, AddedAll;
    AllStep(l, xs);
    if xs != [] {
      EndsAfter(l, xs[..|xs| - 1]);
      AddedFields(AddedAll(l, xs[..|xs| - 1]), xs[|xs| - 1], 0);
    }
  }

  /** who stands before an added process, */
  lemma {:induction false} PrevAfter(l: Queue, xs: seq<int>, k: nat)
    requires Ranged(l) && Distinct(xs) && k < |xs|
    ensures |AddedAll(l, xs).prev| == MAX_PROCESSES
    ensures AddedAll(l, xs).prev[xs[k]] == if k > 0 then xs[k - 1] else l.tail
  {
    hide Added, Ranged, AddedAll;
    AllStep(l, xs);
    Sizes(AddedAll(l, xs));
    var n := |xs| - 1;
    var ys := xs[..n];
    AddedFields(AddedAll(l, ys), xs[n], xs[k]);
    if k == n {
      EndsAfter(l, ys);
      if n > 0 { assert ys[n - 1] == xs[n - 1]; }
    } else {
      PrevAfter(l, ys, k);
      assert ys[k] == xs[k] && xs[k] != xs[n];
      if k > 0 { assert ys[k - 1] == xs[k - 1]; }
    }
  }

  /** and who follows a process that was not added. */
  lemma {:induction false} NextAfter(l: Queue, xs: seq<int>, y: int)
    requires Ranged(l) && Distinct(xs) && 0 <= y < MAX_PROCESSES && y !in xs && y != l.tail
    ensures |AddedAll(l, xs).next| == |l.next| == MAX_PROCESSES && AddedAll(l, xs).next[y] == l.next[y]
  {
    hide Added, Ranged, AddedAll;
    AllStep(l, xs);
    Sizes(l);
    if xs != [] {
      var n := |xs| - 1;
      var ys := xs[..n];
      EndsAfter(l, ys);
      assert y != xs[n] && y !in ys;
      if n > 0 { assert ys[n - 1] in ys; }
      NextAfter(l, ys, y);
      AddedFields(AddedAll(l, ys), xs[n], y);
    }
  }

  lemma Sizes(l: Queue)
    requires Ranged(l)
    ensures |l.next| == |l.prev| == MAX_PROCESSES
  {
  }

  /** One add, seen from process y. */
  lemma AddedFields(l: Queue, p: int, y: int)
    requires Ranged(l) && 0 <= p < MAX_PROCESSES && 0 <= y < MAX_PROCESSES
    ensures var r := Added(l, p);
      && |r.next| == |r.prev| == |l.next| == |l.prev| == MAX_PROCESSES
      && r.tail == p && (l.tail != NONE ==> r.head == l.head)
      && r.prev[y] == (if y == p then l.tail else l.prev[y])
      && (y != p && y != l.tail ==> r.next[y] == l.next[y])
  {
  }

  lemma AllStep(l: Queue, xs: seq<int>)
    requires Ranged(l) && forall k :: 0 <= k < |xs| ==> 0 <= xs[k] < MAX_PROCESSES
    ensures xs == [] ==> AddedAll(l, xs) == l
    ensures xs != [] ==> AddedAll(l, xs) == Added(AddedAll(l, xs[..|xs| - 1]), xs[|xs| - 1])
  {
  }

  /** Adding processes that are not queued appends them. */
  lemma {:induction false} AddedFresh(l: Queue, q: seq<int>, xs: seq<int>)
    requires Ranged(l) && SpellsOut(l, q) && Distinct(xs) && forall x :: x in xs ==> x !in q
    ensures SpellsOut(AddedAll(l, xs), q + xs)
  {
    hide SpellsOut;
    if xs == [] {
      assert q + xs == q;
    } else {
      var n := |xs| - 1;
      AddedFresh(l, q, xs[..n]);
      assert xs[n] !in q + xs[..n];
      AddedOne(AddedAll(l, xs[..n]), q + xs[..n], xs[n]);
      assert q + xs == q + xs[..n] + [xs[n]];
    }
  }

  /** If one of them is queued already, the links spell out no queue at all afterwards. */
  lemma AddedBreaks(l: Queue, q: seq<int>, xs: seq<int>, r: seq<int>)
    requires Ranged(l) && SpellsOut(l, q) && Distinct(xs) && exists x :: x in xs && x in q
    ensures !SpellsOut(AddedAll(l, xs), r)
  {
    hide NextIn, PrevIn, Spells, AddedAll;
    var i := FirstShared(q, xs);
    var k := PositionOf(xs, q[i]);
    EndsAfter(l, xs);
    PrevAfter(l, xs, k);
    EndsOf(l, q);
    Before(q, i);
    if i > 0 { NextAfter(l, xs, q[i - 1]); }
    var l' := AddedAll(l, xs);
    if k > 0 { assert xs[k - 1] in xs && 0 <= xs[k - 1]; }
    if SpellsOut(l', r) {
      BackAndForth(l', r, q[i]);
      if i > 0 {
        LinkAt(l.next, l.prev, l.head, l.tail, q, i - 1);
        Neighbours(q, i - 1);
        BackAndForth(l', r, q[i - 1]);
      }
      assert false;
    }
  }

  lemma EndsOf(l: Queue, q: seq<int>)
    requires SpellsOut(l, q)
    ensures Distinct(q) && (q != [] ==> l.head == q[0] && l.tail == q[|q| - 1])
  {
  }

  lemma {:induction false} FirstShared(q: seq<int>, xs: seq<int>) returns (i: nat)
    requires exists x :: x in xs && x in q
    ensures i < |q| && q[i] in xs && forall k :: 0 <= k < i ==> q[k] !in xs
  {
    if q[0] in xs {
      i := 0;
    } else {
      var x :| x in xs && x in q;
      assert q == [q[0]] + q[1..];
      assert x in q[1..];
      var j := FirstShared(q[1..], xs);
      i := j + 1;
      forall k | 0 <= k < i ensures q[k] !in xs {
        if k > 0 { assert q[k] == q[1..][k - 1]; }
      }
    }
  }

  /** Adding a queued process again leaves links that spell out no queue at all. */
  lemma AddedAgain(l: Queue, q: seq<int>, p: int, r: seq<int>)
    requires Ranged(l) && SpellsOut(l, q) && p in q
    ensures 0 <= p < MAX_PROCESSES && !SpellsOut(Added(l, p), r)
  {
    hide SpellsOut;
    InRangeOf(l, q, p);
    assert [p][..0] == [];
    assert AddedAll(l, [p]) == Added(l, p);
    AddedBreaks(l, q, [p], r);
  }

  lemma InRangeOf(l: Queue, q: seq<int>, p: int)
    requires SpellsOut(l, q) && p in q
    ensures 0 <= p < MAX_PROCESSES
  {
  }

  /** Taking the first process does not repair the links: they spell out a queue only where the
      doubled process was alone, and then it is still on it. */
  lemma TakenAgain(l: Queue, q: seq<int>, p: int, r: seq<int>)
    requires Ranged(l) && SpellsOut(l, q) && p in q && 0 <= p < MAX_PROCESSES
    ensures Ranged(Added(l, p)) && (SpellsOut(Taken(Added(l, p)), r) ==> p in r && Added(l, p).head == p)
    ensures Added(l, p).head == q[0]
  {
    hide NextIn, PrevIn, Links, Unlinked;
    RangedOn(l, p);
    var i := PositionOf(q, p);
    var m := |q| - 1;
    Before(q, i);
    var l2 := Taken(Added(l, p));
    LinkAt(l.next, l.prev, l.head, l.tail, q, 0);
    Neighbours(q, 0);
    if SpellsOut(l2, r) {
      if m == 0 {
        assert l2.head == p;
      } else if i == m {
        BackAndForth(l2, r, p);
        assert false;
      } else {
        var t := q[m];
        BackAndForth(l2, r, t);
        if i > 1 {
          LinkAt(l.next, l.prev, l.head, l.tail, q, i - 1);
          Neighbours(q, i - 1);
          BackAndForth(l2, r, q[i - 1]);
        }
        assert false;
      }
    }
  }

  /** The links tell whether a process is on the queue. */
  lemma OnQueue(l: Queue, q: seq<int>, p: int)
    requires SpellsOut(l, q) && 0 <= p < MAX_PROCESSES
    ensures p in q <==> l.next[p] != NONE || l.prev[p] != NONE || l.head == p
  {
    if p in q {
      var i := PositionOf(q, p);
      LinkAt(l.next, l.prev, l.head, l.tail, q, i);
    }
  }

  // ------------------------------------------------------------ removing

  function Without(q: seq<int>, p: int): seq<int>
  {
    if q == [] then [] else if q[0] == p then q[1..] else [q[0]] + Without(q[1..], p)
  }

  lemma {:induction false} WithoutAt(q: seq<int>, i: nat)
    requires i < |q| && forall k :: 0 <= k < i ==> q[k] != q[i]
    ensures Without(q, q[i]) == q[..i] + q[i + 1..]
  {
    if i > 0 {
      WithoutAt(q[1..], i - 1);
      assert q[..i] + q[i + 1..] == [q[0]] + (q[1..][..i - 1] + q[1..][i..]);
    }
  }

  lemma {:induction false} WithoutNone(q: seq<int>, p: int)
    requires p !in q
    ensures Without(q, p) == q
  {
    if q != [] {
      assert q[0] != p;
      WithoutNone(q[1..], p);
    }
  }

  function RemoveNext(next: seq<int>, prev: seq<int>, p: int): seq<int>
    requires 0 <= p < |next| == |prev| && (prev[p] == NONE || 0 <= prev[p] < |next|)
  {
    (if prev[p] != NONE then next[prev[p] := next[p]] else next)[p := NONE]
  }

  function RemovePrev(next: seq<int>, prev: seq<int>, p: int): seq<int>
    requires 0 <= p < |next| == |prev| && (next[p] == NONE || 0 <= next[p] < |prev|)
  {
    (if next[p] != NONE then prev[next[p] := prev[p]] else prev)[p := NONE]
  }

  /** The defensive test of remove is exact: it tells whether the process is on the queue. */
  lemma RemoveRange(next: seq<int>, prev: seq<int>, head: int, tail: int, q: seq<int>, p: int)
    requires Spells(next, prev, head, tail, q) && 0 <= p < MAX_PROCESSES
    ensures |next| == |prev| == MAX_PROCESSES
    ensures prev[p] == NONE || (0 <= prev[p] < MAX_PROCESSES && prev[p] != p)
    ensures next[p] == NONE || (0 <= next[p] < MAX_PROCESSES && next[p] != p)
    ensures prev[p] == NONE && next[p] == NONE && head != p <==> p !in q
    ensures p !in q ==> Without(q, p) == q
  {
    if p in q {
      var i := PositionOf(q, p);
      assert next[q[i]] == NextIn(q, i) && prev[q[i]] == PrevIn(q, i);
    } else {
      WithoutNone(q, p);
    }
  }

  lemma RemoveSpells(next: seq<int>, prev: seq<int>, head: int, tail: int, q: seq<int>, p: int)
    requires Spells(next, prev, head, tail, q) && 0 <= p < MAX_PROCESSES && p in q
    ensures |next| == |prev| == MAX_PROCESSES
    ensures prev[p] == NONE || 0 <= prev[p] < MAX_PROCESSES
    ensures next[p] == NONE || 0 <= next[p] < MAX_PROCESSES
    ensures Spells(RemoveNext(next, prev, p), RemovePrev(next, prev, p), if prev[p] != NONE then head else next[p],
                   if next[p] != NONE then tail else prev[p], Without(q, p))
  {
    var i := PositionOf(q, p);
    Before(q, i);
    WithoutAt(q, i);
    OwnLinks(next, prev, head, tail, q, i);
    RemoveAt(next, prev, head, tail, q, i);
  }

  lemma LinkAt(next: seq<int>, prev: seq<int>, head: int, tail: int, q: seq<int>, i: nat)
    requires Spells(next, prev, head, tail, q) && i < |q|
    ensures |next| == |prev| == MAX_PROCESSES && 0 <= q[i] < MAX_PROCESSES
    ensures next[q[i]] == NextIn(q, i) && prev[q[i]] == PrevIn(q, i)
  {
  }

  lemma Neighbours(q: seq<int>, i: nat)
    requires i < |q|
    ensures NextIn(q, i) == (if i + 1 < |q| then q[i + 1] else NONE) && PrevIn(q, i) == if i > 0 then q[i - 1] else NONE
  {
  }

  lemma Differ(next: seq<int>, prev: seq<int>, head: int, tail: int, q: seq<int>, i: nat, j: nat)
    requires Spells(next, prev, head, tail, q) && i < |q| && j < |q|
    ensures 0 <= q[i] < MAX_PROCESSES && 0 <= q[j] < MAX_PROCESSES && (q[i] == q[j] <==> i == j)
  {
  }

  /** The links of the removed process. */
  lemma OwnLinks(next: seq<int>, prev: seq<int>, head: int, tail: int, q: seq<int>, i: nat)
    requires Spells(next, prev, head, tail, q) && i < |q|
    ensures |next| == |prev| == MAX_PROCESSES && 0 <= q[i] < MAX_PROCESSES
    ensures var p := q[i];
      && next[p] == (if i + 1 < |q| then q[i + 1] else NONE) && prev[p] == (if i > 0 then q[i - 1] else NONE)
      && (prev[p] == NONE || (0 <= prev[p] < MAX_PROCESSES && prev[p] != p))
      && (next[p] == NONE || (0 <= next[p] < MAX_PROCESSES && next[p] != p))
  {
    hide Spells, NextIn, PrevIn;
    LinkAt(next, prev, head, tail, q, i);
    Neighbours(q, i);
    if i > 0 { Differ(next, prev, head, tail, q, i, i - 1); }
    if i + 1 < |q| { Differ(next, prev, head, tail, q, i, i + 1); }
  }

  lemma RemoveAt(next: seq<int>, prev: seq<int>, head: int, tail: int, q: seq<int>, i: nat)
    requires Spells(next, prev, head, tail, q) && i < |q| && |next| == |prev| == MAX_PROCESSES
    requires 0 <= q[i] < MAX_PROCESSES
    requires prev[q[i]] == NONE || 0 <= prev[q[i]] < MAX_PROCESSES
    requires next[q[i]] == NONE || 0 <= next[q[i]] < MAX_PROCESSES
    ensures var p := q[i];
      Spells(RemoveNext(next, prev, p), RemovePrev(next, prev, p), if prev[p] != NONE then head else next[p],
             if next[p] != NONE then tail else prev[p], q[..i] + q[i + 1..])
  {
    hide Links, Unlinked, Ends, Distinct;
    OwnLinks(next, prev, head, tail, q, i);
    RemovedLinks(next, prev, head, tail, q, i);
    RemovedUnlinked(next, prev, head, tail, q, i);
    RemovedEnds(next, prev, head, tail, q, i);
  }

  lemma RemovedEnds(next: seq<int>, prev: seq<int>, head: int, tail: int, q: seq<int>, i: nat)
    requires Spells(next, prev, head, tail, q) && i < |q| && |next| == |prev| == MAX_PROCESSES
    requires 0 <= q[i] < MAX_PROCESSES
    requires next[q[i]] == (if i + 1 < |q| then q[i + 1] else NONE) && prev[q[i]] == if i > 0 then q[i - 1] else NONE
    ensures Distinct(q[..i] + q[i + 1..])
    ensures Ends(if prev[q[i]] != NONE then head else next[q[i]],
                 if next[q[i]] != NONE then tail else prev[q[i]],
                 q[..i] + q[i + 1..])
  {
    hide Links, Unlinked;
  }

  lemma RemovedUnlinked(next: seq<int>, prev: seq<int>, head: int, tail: int, q: seq<int>, i: nat)
    requires Spells(next, prev, head, tail, q) && i < |q| && |next| == |prev| == MAX_PROCESSES
    requires 0 <= q[i] < MAX_PROCESSES
    requires prev[q[i]] == NONE || (0 <= prev[q[i]] < MAX_PROCESSES && i > 0 && prev[q[i]] == q[i - 1])
    requires next[q[i]] == NONE || (0 <= next[q[i]] < MAX_PROCESSES && i + 1 < |q| && next[q[i]] == q[i + 1])
    ensures Unlinked(RemoveNext(next, prev, q[i]), RemovePrev(next, prev, q[i]), q[..i] + q[i + 1..])
  {
    hide Links, Ends, Distinct;
    var p, q' := q[i], q[..i] + q[i + 1..];
    forall x | 0 <= x < MAX_PROCESSES && x !in q'
      ensures RemoveNext(next, prev, p)[x] == NONE && RemovePrev(next, prev, p)[x] == NONE
    {
      if x != p {
        StillOut(q, i, x);
      }
    }
  }

  lemma StillOut(q: seq<int>, i: nat, x: int)
    requires i < |q| && x !in q[..i] + q[i + 1..] && x != q[i]
    ensures x !in q
  {
    assert q == q[..i] + [q[i]] + q[i + 1..];
  }

  lemma RemovedLinks(next: seq<int>, prev: seq<int>, head: int, tail: int, q: seq<int>, i: nat)
    requires Spells(next, prev, head, tail, q) && i < |q| && |next| == |prev| == MAX_PROCESSES
    requires 0 <= q[i] < MAX_PROCESSES
    requires prev[q[i]] == NONE || 0 <= prev[q[i]] < MAX_PROCESSES
    requires next[q[i]] == NONE || 0 <= next[q[i]] < MAX_PROCESSES
    ensures Links(RemoveNext(next, prev, q[i]), RemovePrev(next, prev, q[i]), q[..i] + q[i + 1..])
  {
    hide Spells, NextIn, PrevIn, RemoveNext, RemovePrev;
    var p, q' := q[i], q[..i] + q[i + 1..];
    forall j | 0 <= j < |q'|
      ensures 0 <= q'[j] < MAX_PROCESSES && |RemoveNext(next, prev, p)| == |RemovePrev(next, prev, p)| == MAX_PROCESSES
           && RemoveNext(next, prev, p)[q'[j]] == NextIn(q', j) && RemovePrev(next, prev, p)[q'[j]] == PrevIn(q', j)
    {
      RemovedLink(next, prev, head, tail, q, i, j);
    }
  }

  lemma RemovedLink(next: seq<int>, prev: seq<int>, head: int, tail: int, q: seq<int>, i: nat, j: nat)
    requires Spells(next, prev, head, tail, q) && i < |q| && j < |q| - 1
    requires |next| == |prev| == MAX_PROCESSES && 0 <= q[i] < MAX_PROCESSES
    requires prev[q[i]] == NONE || 0 <= prev[q[i]] < MAX_PROCESSES
    requires next[q[i]] == NONE || 0 <= next[q[i]] < MAX_PROCESSES
    ensures var p, q' := q[i], q[..i] + q[i + 1..];
      && |RemoveNext(next, prev, p)| == |RemovePrev(next, prev, p)| == MAX_PROCESSES && 0 <= q'[j] < MAX_PROCESSES
      && RemoveNext(next, prev, p)[q'[j]] == NextIn(q', j) && RemovePrev(next, prev, p)[q'[j]] == PrevIn(q', j)
  {
    hide Spells, NextIn, PrevIn;
    var q' := q[..i] + q[i + 1..];
    var k := if j < i then j else j + 1;
    LinkAt(next, prev, head, tail, q, k);
    Neighbours(q, k);
    Neighbours(q', j);
    OwnLinks(next, prev, head, tail, q, i);
    Differ(next, prev, head, tail, q, k, i);
    if i > 0 { Differ(next, prev, head, tail, q, k, i - 1); }
    if i + 1 < |q| { Differ(next, prev, head, tail, q, k, i + 1); }
  }

  lemma RemovedOne(l: Queue, q: seq<int>, p: int)
    requires Ranged(l) && SpellsOut(l, q) && 0 <= p < MAX_PROCESSES
    ensures SpellsOut(Removed(l, p), Without(q, p))
  {
    hide Spells;
    RemoveRange(l.next, l.prev, l.head, l.tail, q, p);
    if p in q { RemoveSpells(l.next, l.prev, l.head, l.tail, q, p); }
  }

  // ------------------------------------------------------------ taking the first

  lemma TakenOne(l: Queue, q: seq<int>)
    requires Ranged(l) && SpellsOut(l, q)
    ensures SpellsOut(Taken(l), if q == [] then [] else q[1..]) && l.head == HeadOf(q)
  {
    hide Spells;
    HeadRange(l.next, l.prev, l.head, l.tail, q);
    if q != [] { NextSpells(l.next, l.prev, l.head, l.tail, q); }
  }

  lemma HeadRange(next: seq<int>, prev: seq<int>, head: int, tail: int, q: seq<int>)
    requires Spells(next, prev, head, tail, q)
    ensures |next| == |prev| == MAX_PROCESSES && (head == NONE <==> q == [])
    ensures head != NONE ==> 0 <= head < MAX_PROCESSES && head == q[0]
  {
  }

  lemma NextSpells(next: seq<int>, prev: seq<int>, head: int, tail: int, q: seq<int>)
    requires Spells(next, prev, head, tail, q) && q != []
    ensures |next| == |prev| == MAX_PROCESSES && 0 <= head < MAX_PROCESSES && head == q[0]
    ensures next[head] == NONE || (0 <= next[head] < MAX_PROCESSES && next[head] != head)
    ensures Spells(next[head := NONE],
                   (if next[head] != NONE then prev[next[head] := NONE] else prev)[head := NONE],
                   next[head],
                   if next[head] != NONE then tail else NONE, q[1..])
  {
    hide Links, Unlinked, Distinct;
    OwnLinks(next, prev, head, tail, q, 0);
    assert q[..0] + q[1..] == q[1..];
    RemoveAt(next, prev, head, tail, q, 0);
  }
}
