/** Merging of address intervals, and coverage decided on the merged list. */
module Intervals {
  import opened Ipv4Blocks

  ghost predicate Covers(s: seq<Interval>, a: int) {
    exists k :: 0 <= k < |s| && In(a, s[k])
  }

  ghost predicate SameAddresses(s: seq<Interval>, t: seq<Interval>) {
    forall a :: Covers(s, a) <==> Covers(t, a)
  }

  ghost predicate NonEmpty(s: seq<Interval>) {
    forall k :: 0 <= k < |s| ==> s[k].start <= s[k].end
  }

  /** Ascending, and at least one uncovered address between neighbours. */
  ghost predicate Separated(s: seq<Interval>) {
    && NonEmpty(s)
    && forall j, k :: 0 <= j < k < |s| ==> s[j].end + 1 < s[k].start
  }

  ghost predicate SortedByStart(s: seq<Interval>) {
    forall j, k :: 0 <= j < k < |s| ==> s[j].start <= s[k].start
  }

  // ---------------------------------------------------------------- sorting

  function InsertByStart(x: Interval, s: seq<Interval>): (r: seq<Interval>)
    requires SortedByStart(s)
    ensures SortedByStart(r) && multiset(r) == multiset(s) + multiset{x}
  {
    if s == [] || x.start <= s[0].start then
      var r := [x] + s;
      assert multiset(r) == multiset{x} + multiset(s);
      r
    else
      var rest := InsertByStart(x, s[1..]);
      assert s == [s[0]] + s[1..];
      var r := [s[0]] + rest;
      assert forall k :: 0 <= k < |rest| ==> s[0].start <= rest[k].start by {
        forall k | 0 <= k < |rest| ensures s[0].start <= rest[k].start {
          assert rest[k] in multiset(rest);
          if rest[k] != x { assert rest[k] in s[1..]; }
        }
      }
      r
  }

  /** The stable sort of the intervals by their start. */
  function SortByStart(s: seq<Interval>): (r: seq<Interval>)
    ensures SortedByStart(r) && multiset(r) == multiset(s)
  {
    if s == [] then []
    else
      assert s == [s[0]] + s[1..];
      InsertByStart(s[0], SortByStart(s[1..]))
  }

  lemma PermutationCovers(s: seq<Interval>, t: seq<Interval>)
    requires multiset(s) == multiset(t)
    ensures SameAddresses(s, t)
    ensures NonEmpty(s) <==> NonEmpty(t)
  {
    assert forall x :: x in s <==> x in multiset(s);
    assert forall x :: x in t <==> x in multiset(t);
    forall a ensures Covers(s, a) <==> Covers(t, a) {
      assert Covers(s, a) <==> exists x :: x in s && In(a, x);
      assert Covers(t, a) <==> exists x :: x in t && In(a, x);
    }
    assert NonEmpty(s) <==> forall x :: x in s ==> x.start <= x.end;
    assert NonEmpty(t) <==> forall x :: x in t ==> x.start <= x.end;
  }

  // ---------------------------------------------------------------- merging

  function Max(a: int, b: int): int {
    if a < b then b else a
  }

  /** Extends the last interval when `x` overlaps or touches it, else appends `x`. */
  function MergeInto(merged: seq<Interval>, x: Interval): seq<Interval> {
    var n := |merged|;
    if n > 0 && x.start <= merged[n - 1].end + 1 then
      merged[n - 1 := Interval(merged[n - 1].start, Max(merged[n - 1].end, x.end))]
    else
      merged + [x]
  }

  function MergeSorted(s: seq<Interval>): seq<Interval> {
    if s == [] then [] else MergeInto(MergeSorted(s[..|s| - 1]), s[|s| - 1])
  }

  function Merge(s: seq<Interval>): seq<Interval> {
    MergeSorted(SortByStart(s))
  }

  lemma CoversLast(s: seq<Interval>, a: int)
    requires s != []
    ensures Covers(s, a) <==> Covers(s[..|s| - 1], a) || In(a, s[|s| - 1])
  {
    var init := s[..|s| - 1];
    if k :| 0 <= k < |init| && In(a, init[k]) {
      assert In(a, s[k]);
    }
    if k :| 0 <= k < |s| - 1 && In(a, s[k]) {
      assert In(a, init[k]);
    }
  }

  lemma MergeIntoCovers(merged: seq<Interval>, x: Interval, a: int)
    requires forall k :: 0 <= k < |merged| ==> merged[k].start <= x.start
    ensures Covers(MergeInto(merged, x), a) <==> Covers(merged, a) || In(a, x)
  {
    var r, n := MergeInto(merged, x), |merged|;
    CoversLast(r, a);
    if |r| == n {
      CoversLast(merged, a);
      assert r[..n - 1] == merged[..n - 1];
    } else {
      assert r[..n] == merged;
    }
  }

  lemma {:induction false} MergeSortedStarts(s: seq<Interval>, x: int)
    requires forall j :: 0 <= j < |s| ==> s[j].start <= x
    ensures forall k :: 0 <= k < |MergeSorted(s)| ==> MergeSorted(s)[k].start <= x
  {
    if s != [] {
      MergeSortedStarts(s[..|s| - 1], x);
    }
  }

  lemma {:induction false} MergeSortedCovers(s: seq<Interval>)
    requires SortedByStart(s)
    ensures SameAddresses(MergeSorted(s), s)
  {
    if s != [] {
      var init, last := s[..|s| - 1], s[|s| - 1];
      MergeSortedCovers(init);
      MergeSortedStarts(init, last.start);
      forall a ensures Covers(MergeSorted(s), a) <==> Covers(s, a) {
        MergeIntoCovers(MergeSorted(init), last, a);
        CoversLast(s, a);
        assert Covers(MergeSorted(init), a) <==> Covers(init, a);
      }
    }
  }

  lemma {:induction false} MergeSortedSeparates(s: seq<Interval>)
    requires NonEmpty(s)
    ensures Separated(MergeSorted(s))
  {
    if s != [] {
      MergeSortedSeparates(s[..|s| - 1]);
    }
  }

  /** Merging keeps exactly the addresses, whatever the intervals. */
  lemma MergeKeepsAddresses(s: seq<Interval>)
    ensures SameAddresses(Merge(s), s)
  {
    MergeSortedCovers(SortByStart(s));
    PermutationCovers(SortByStart(s), s);
    forall a ensures Covers(Merge(s), a) <==> Covers(s, a) {
      assert Covers(Merge(s), a) <==> Covers(SortByStart(s), a);
    }
  }

  lemma MergeSeparates(s: seq<Interval>)
    requires NonEmpty(s)
    ensures Separated(Merge(s))
  {
    PermutationCovers(SortByStart(s), s);
    MergeSortedSeparates(SortByStart(s));
  }

  lemma StartIsCovered(s: seq<Interval>)
    requires NonEmpty(s)
    ensures s != [] ==> Covers(s, s[0].start)
    ensures s == [] ==> forall a :: !Covers(s, a)
  {
    if s != [] { assert In(s[0].start, s[0]); }
  }

  lemma GapIsNotCovered(s: seq<Interval>, k: nat)
    requires Separated(s) && k < |s|
    ensures !Covers(s, s[k].end + 1)
  {
  }

  /** A separated list is determined by its addresses. */
  lemma {:induction false} SeparatedIsUnique(s: seq<Interval>, t: seq<Interval>)
    requires Separated(s) && Separated(t) && SameAddresses(s, t)
    ensures s == t
  {
    StartIsCovered(s);
    StartIsCovered(t);
    if s != [] && t != [] {
      SameHead(s, t);
      SameHead(t, s);
      assert s[0] == t[0];
      forall a ensures Covers(s[1..], a) <==> Covers(t[1..], a) {
        WithoutHead(s, a);
        WithoutHead(t, a);
        assert Covers(s, a) <==> Covers(t, a);
      }
      SeparatedIsUnique(s[1..], t[1..]);
    }
  }

  lemma WithoutHead(s: seq<Interval>, a: int)
    requires Separated(s) && s != []
    ensures Covers(s[1..], a) <==> Covers(s, a) && !In(a, s[0])
  {
    if Covers(s[1..], a) {
      var k :| 0 <= k < |s| - 1 && In(a, s[1..][k]);
      assert In(a, s[k + 1]);
    }
    if Covers(s, a) && !In(a, s[0]) {
      var k :| 0 <= k < |s| && In(a, s[k]);
      assert s[1..][k - 1] == s[k];
    }
  }

  lemma SameHead(s: seq<Interval>, t: seq<Interval>)
    requires Separated(s) && Separated(t) && s != [] && t != [] && SameAddresses(s, t)
    ensures t[0].start <= s[0].start && s[0].end <= t[0].end
  {
    StartIsCovered(s);
    StartIsCovered(t);
    assert Covers(t, s[0].start) && Covers(s, t[0].start);
    var b := t[0].end + 1;
    GapIsNotCovered(t, 0);
    assert In(b, s[0]) ==> Covers(s, b) && Covers(t, b);
  }

  /** Lists merge to the same one exactly when they cover the same addresses, whatever their order or overlaps. */
  lemma MergeIsCanonical(s: seq<Interval>, t: seq<Interval>)
    requires NonEmpty(s) && NonEmpty(t)
    ensures Merge(s) == Merge(t) <==> SameAddresses(s, t)
  {
    MergeKeepsAddresses(s);
    MergeKeepsAddresses(t);
    MergeSeparates(s);
    MergeSeparates(t);
    forall a
      ensures Covers(Merge(s), a) <==> Covers(s, a)
      ensures Covers(Merge(t), a) <==> Covers(t, a)
    {
    }
    if SameAddresses(s, t) {
      forall a ensures Covers(Merge(s), a) <==> Covers(Merge(t), a) {
        assert Covers(s, a) <==> Covers(t, a);
      }
      SeparatedIsUnique(Merge(s), Merge(t));
    }
  }

  /** The loop, in place over the sorted list: it computes `Merge`, whose result covers the same addresses with gaps in between. */
  method MergeIntervals(intervals: seq<Interval>) returns (merged: seq<Interval>)
    ensures merged == Merge(intervals)
    ensures SameAddresses(merged, intervals)
    ensures NonEmpty(intervals) ==> Separated(merged)
  {
    var sorted := SortByStart(intervals);
    merged := [];
    for i := 0 to |sorted|
      invariant merged == MergeSorted(sorted[..i])
    {
      var interval := sorted[i];
      assert sorted[..i + 1][..i] == sorted[..i];
      var last := |merged| - 1;
      if 0 <= last && interval.start <= merged[last].end + 1 {
        merged := merged[last := Interval(merged[last].start, Max(merged[last].end, interval.end))];
      } else {
        merged := merged + [interval];
      }
    }
    assert sorted[..|sorted|] == sorted;
    MergeKeepsAddresses(intervals);
    if NonEmpty(intervals) { MergeSeparates(intervals); }
  }

  // ---------------------------------------------------------------- coverage

  /** Whether one merged interval holds all of `inner`. */
  predicate IntervalCovered(inner: Interval, outer: seq<Interval>) {
    var merged := Merge(outer);
    exists k :: 0 <= k < |merged| && merged[k].start <= inner.start && inner.end <= merged[k].end
  }

  /** The test on the merged list decides coverage address by address. */
  lemma CoveredIffEveryAddressIs(inner: Interval, outer: seq<Interval>)
    requires inner.start <= inner.end && NonEmpty(outer)
    ensures IntervalCovered(inner, outer) <==> forall a :: In(a, inner) ==> Covers(outer, a)
  {
    var merged := Merge(outer);
    MergeKeepsAddresses(outer);
    MergeSeparates(outer);
    if IntervalCovered(inner, outer) {
      var k :| 0 <= k < |merged| && merged[k].start <= inner.start && inner.end <= merged[k].end;
      forall a | In(a, inner) ensures Covers(outer, a) {
        assert In(a, merged[k]);
        assert Covers(merged, a);
      }
    }
    if forall a :: In(a, inner) ==> Covers(outer, a) {
      assert In(inner.start, inner) && Covers(merged, inner.start);
      var k :| 0 <= k < |merged| && In(inner.start, merged[k]);
      GapIsNotCovered(merged, k);
      var gap := merged[k].end + 1;
      assert In(gap, inner) ==> Covers(merged, gap);
    }
  }

  predicate IntervalsOverlap(left: Interval, right: Interval) {
    left.start <= right.end && right.start <= left.end
  }

  lemma OverlapIffSharedAddress(left: Interval, right: Interval)
    requires left.start <= left.end && right.start <= right.end
    ensures IntervalsOverlap(left, right) <==> exists a :: In(a, left) && In(a, right)
  {
    if IntervalsOverlap(left, right) {
      var a := Max(left.start, right.start);
      assert In(a, left) && In(a, right);
    }
  }
}
