/** Byte ranges: sorting them and comparing neighbours finds every overlap. */
module Ranges {

  // ----- Byte ranges -----

  /** The bytes of one tensor in its shard's data. */
  datatype Range = Range(start: nat, end: nat)

  predicate Apart(a: Range, b: Range) {
    a.end <= b.start || b.end <= a.start
  }

  ghost predicate PairwiseApart(ranges: seq<Range>) {
    forall i, j :: 0 <= i < j < |ranges| ==> Apart(ranges[i], ranges[j])
  }

  predicate Owns(r: Range, x: nat) {
    r.start <= x < r.end
  }

  /** Some byte belongs to both. */
  ghost predicate Shares(a: Range, b: Range) {
    exists x: nat :: Owns(a, x) && Owns(b, x)
  }

  /** An empty range with bytes of the other on both sides. */
  predicate EmptyInside(a: Range, b: Range) {
    a.start == a.end && b.start < a.start < b.end
  }

  /** What the code's test comes to: a byte in common, or an empty range strictly inside another. */
  lemma {:induction false} ApartExactlyWhen(a: Range, b: Range)
    requires a.start <= a.end && b.start <= b.end
    ensures Apart(a, b) <==> !Shares(a, b) && !EmptyInside(a, b) && !EmptyInside(b, a)
  {
    if !Apart(a, b) && a.start < a.end && b.start < b.end {
      var x := if a.start < b.start then b.start else a.start;
      assert Owns(a, x) && Owns(b, x);
    }
  }

  predicate Forward(ranges: seq<Range>) {
    forall i :: 0 <= i < |ranges| ==> ranges[i].start <= ranges[i].end
  }

  /** The order of pairs, first components first. */
  predicate Before(a: Range, b: Range) {
    a.start < b.start || (a.start == b.start && a.end <= b.end)
  }

  function Insert(r: Range, sorted: seq<Range>): seq<Range> {
    if sorted == [] || Before(r, sorted[0]) then [r] + sorted else [sorted[0]] + Insert(r, sorted[1..])
  }

  function Sorted(ranges: seq<Range>): seq<Range> {
    if ranges == [] then [] else Insert(ranges[0], Sorted(ranges[1..]))
  }

  predicate Ascending(ranges: seq<Range>) {
    forall i :: 0 < i < |ranges| ==> Before(ranges[i - 1], ranges[i])
  }

  /** Each range starts where its predecessor has ended. */
  predicate Chained(ranges: seq<Range>) {
    forall i :: 0 < i < |ranges| ==> ranges[i - 1].end <= ranges[i].start
  }

  ghost predicate ClearOf(r: Range, ranges: seq<Range>) {
    forall x :: x in ranges ==> Apart(r, x)
  }

  lemma {:induction false} PairwiseByHead(h: Range, t: seq<Range>)
    ensures PairwiseApart([h] + t) <==> (ClearOf(h, t) && PairwiseApart(t))
  {
    hide Apart;
    var all := [h] + t;
    if PairwiseApart(all) {
      forall x | x in t
        ensures Apart(h, x)
      {
        var i :| 0 <= i < |t| && t[i] == x;
        assert Apart(all[0], all[i + 1]);
      }
      forall i, j | 0 <= i < j < |t|
        ensures Apart(t[i], t[j])
      {
        assert Apart(all[i + 1], all[j + 1]);
      }
    }
  }

  lemma {:induction false} ClearByHead(r: Range, h: Range, t: seq<Range>)
    ensures ClearOf(r, [h] + t) <==> (Apart(h, r) && ClearOf(r, t))
  {
    assert h in [h] + t;
    assert forall x :: x in [h] + t <==> (x == h || x in t);
  }

  lemma {:induction false} InsertSorts(r: Range, sorted: seq<Range>)
    requires Ascending(sorted)
    ensures Insert(r, sorted) != [] && Ascending(Insert(r, sorted))
    ensures Insert(r, sorted)[0] == if sorted == [] || Before(r, sorted[0]) then r else sorted[0]
  {
    if sorted == [] || Before(r, sorted[0]) {
      AscendingByHead(r, sorted);
    } else {
      var h, t := sorted[0], sorted[1..];
      assert sorted == [h] + t;
      AscendingByHead(h, t);
      hide Ascending;
      InsertSorts(r, t);
      AscendingByHead(h, Insert(r, t));
    }
  }

  lemma {:induction false} AscendingByHead(h: Range, t: seq<Range>)
    ensures Ascending([h] + t) <==> ((t != [] ==> Before(h, t[0])) && Ascending(t))
  {
    hide Before;
    var all := [h] + t;
    if Ascending(all) {
      forall i | 0 < i < |t|
        ensures Before(t[i - 1], t[i])
      {
        assert Before(all[i], all[i + 1]);
      }
      if t != [] {
        assert Before(all[0], all[1]);
      }
    }
  }

  lemma {:induction false} InsertPermutes(r: Range, sorted: seq<Range>)
    ensures multiset(Insert(r, sorted)) == multiset(sorted) + multiset{r}
  {
    if sorted != [] && !Before(r, sorted[0]) {
      assert sorted == [sorted[0]] + sorted[1..];
      InsertPermutes(r, sorted[1..]);
    }
  }

  lemma {:induction false} InsertHas(r: Range, sorted: seq<Range>, x: Range)
    ensures x in Insert(r, sorted) <==> (x == r || x in sorted)
  {
    if sorted != [] && !Before(r, sorted[0]) {
      assert sorted == [sorted[0]] + sorted[1..];
      InsertHas(r, sorted[1..], x);
    }
  }

  lemma {:induction false} ClearOfInsert(q: Range, r: Range, sorted: seq<Range>)
    ensures ClearOf(q, Insert(r, sorted)) <==> (Apart(q, r) && ClearOf(q, sorted))
  {
    forall x: Range
      ensures x in Insert(r, sorted) <==> (x == r || x in sorted)
    {
      InsertHas(r, sorted, x);
    }
    hide Insert, Apart;
    InsertHas(r, sorted, r);
  }

  lemma {:induction false} InsertApart(r: Range, sorted: seq<Range>)
    ensures PairwiseApart(Insert(r, sorted)) <==> (ClearOf(r, sorted) && PairwiseApart(sorted))
  {
    if sorted == [] || Before(r, sorted[0]) {
      hide PairwiseApart, ClearOf;
      PairwiseByHead(r, sorted);
    } else {
      var h, t := sorted[0], sorted[1..];
      assert sorted == [h] + t;
      ClearByHead(r, h, t);
      hide PairwiseApart, ClearOf, Apart;
      InsertApart(r, t);
      PairwiseByHead(h, t);
      PairwiseByHead(h, Insert(r, t));
      ClearOfInsert(h, r, t);
    }
  }

  /** Sorting permutes the ranges into order, and does not change which of them overlap. */
  lemma {:induction false} SortSorts(ranges: seq<Range>)
    ensures Ascending(Sorted(ranges)) && multiset(Sorted(ranges)) == multiset(ranges)
    ensures PairwiseApart(Sorted(ranges)) <==> PairwiseApart(ranges)
    ensures |Sorted(ranges)| == |ranges|
  {
    if ranges != [] {
      var h, t := ranges[0], ranges[1..];
      assert ranges == [h] + t;
      SortSorts(t);
      hide Insert, Ascending, PairwiseApart, ClearOf;
      InsertSorts(h, Sorted(t));
      InsertPermutes(h, Sorted(t));
      InsertApart(h, Sorted(t));
      PairwiseByHead(h, t);
      SameClear(h, Sorted(t), t);
    }
    assert |multiset(Sorted(ranges))| == |multiset(ranges)|;
  }

  lemma {:induction false} SameClear(r: Range, a: seq<Range>, b: seq<Range>)
    requires multiset(a) == multiset(b)
    ensures ClearOf(r, a) <==> ClearOf(r, b)
  {
    assert forall x :: x in a <==> x in multiset(a);
    assert forall x :: x in b <==> x in multiset(b);
  }

  /** Among ordered ranges, checking neighbours is checking all pairs. */
  lemma {:induction false} NeighboursSuffice(sorted: seq<Range>)
    requires Ascending(sorted) && Forward(sorted)
    ensures Chained(sorted) <==> PairwiseApart(sorted)
  {
    if Chained(sorted) {
      forall i, j | 0 <= i < j < |sorted|
        ensures Apart(sorted[i], sorted[j])
      {
        ChainReaches(sorted, i, j);
      }
    }
    if PairwiseApart(sorted) {
      forall i | 0 < i < |sorted|
        ensures sorted[i - 1].end <= sorted[i].start
      {
        assert Apart(sorted[i - 1], sorted[i]);
      }
    }
  }

  lemma {:induction false} ChainReaches(sorted: seq<Range>, i: nat, j: nat)
    requires Chained(sorted) && Forward(sorted) && i < j < |sorted|
    ensures sorted[i].end <= sorted[j].start
  {
    if i + 1 < j {
      ChainReaches(sorted, i, j - 1);
    }
  }

  // ----- Bytes -----

  function Bytes(ranges: seq<Range>, n: nat): int
    requires n <= |ranges|
  {
    if n == 0 then 0 else Bytes(ranges, n - 1) + (ranges[n - 1].end - ranges[n - 1].start)
  }

  lemma {:induction false} BytesByHead(h: Range, t: seq<Range>, n: nat)
    requires n <= |t|
    ensures Bytes([h] + t, n + 1) == h.end - h.start + Bytes(t, n)
  {
    if n == 0 {
      assert Bytes([h] + t, 0) == 0;
    } else {
      BytesByHead(h, t, n - 1);
    }
  }

  lemma {:induction false} BytesInserted(r: Range, sorted: seq<Range>)
    ensures var all := Insert(r, sorted); Bytes(all, |all|) == r.end - r.start + Bytes(sorted, |sorted|)
  {
    if sorted == [] || Before(r, sorted[0]) {
      BytesByHead(r, sorted, |sorted|);
    } else {
      var h, t := sorted[0], sorted[1..];
      assert sorted == [h] + t;
      BytesInserted(r, t);
      BytesByHead(h, t, |t|);
      BytesByHead(h, Insert(r, t), |Insert(r, t)|);
    }
  }

  lemma {:induction false} BytesSorted(ranges: seq<Range>)
    ensures Bytes(Sorted(ranges), |Sorted(ranges)|) == Bytes(ranges, |ranges|)
  {
    if ranges != [] {
      var h, t := ranges[0], ranges[1..];
      assert ranges == [h] + t;
      hide Insert;
      BytesSorted(t);
      BytesInserted(h, Sorted(t));
      BytesByHead(h, t, |t|);
    }
  }

  lemma {:induction false} ChainFits(sorted: seq<Range>, lo: nat, n: nat)
    requires Chained(sorted) && Forward(sorted) && 0 < n <= |sorted| && lo <= sorted[0].start
    ensures Bytes(sorted, n) <= sorted[n - 1].end - lo
  {
    if n > 1 {
      ChainFits(sorted, lo, n - 1);
    }
  }

  predicate Inside(ranges: seq<Range>, lo: nat, hi: nat) {
    forall r :: r in ranges ==> lo <= r.start && r.end <= hi
  }

  /** Ranges that do not overlap take no more bytes than the span they lie in. */
  lemma {:induction false} BytesWithinSpan(ranges: seq<Range>, lo: nat, hi: nat)
    requires PairwiseApart(ranges) && Forward(ranges) && Inside(ranges, lo, hi) && lo <= hi
    ensures Bytes(ranges, |ranges|) <= hi - lo
  {
    var sorted := Sorted(ranges);
    SortSorts(ranges);
    ForwardSorted(ranges);
    BytesSorted(ranges);
    hide Sorted, PairwiseApart, Ascending, Apart;
    NeighboursSuffice(sorted);
    if |sorted| > 0 {
      var first, last := sorted[0], sorted[|sorted| - 1];
      assert first in multiset(ranges) && last in multiset(ranges);
      ChainFits(sorted, lo, |sorted|);
    }
  }

  lemma {:induction false} ForwardSorted(ranges: seq<Range>)
    ensures Forward(Sorted(ranges)) <==> Forward(ranges)
  {
    SortSorts(ranges);
    var sorted := Sorted(ranges);
    hide Sorted, PairwiseApart, Ascending;
    if Forward(sorted) {
      SameForward(sorted, ranges);
    }
    if Forward(ranges) {
      SameForward(ranges, sorted);
    }
  }

  lemma {:induction false} SameForward(a: seq<Range>, b: seq<Range>)
    requires multiset(a) == multiset(b) && Forward(a)
    ensures Forward(b)
  {
    forall i | 0 <= i < |b|
      ensures b[i].start <= b[i].end
    {
      assert b[i] in multiset(a);
    }
  }
}
