/** The audit log's sequence check: which values between the first and the last are gone. */
module SequenceGaps {
  import opened Names

  datatype Range = Range(start: int, end: int)

  datatype Report = Report(first: Option<int>, last: Option<int>, present: nat, expected: int, missing: int,
                           ranges: seq<Range>, duplicates: nat, unsequenced: nat, tailMissing: int)

  // --- The reference reading ---

  function Seen(values: seq<Option<int>>): set<int> {
    set v | v in values && v.Some? :: v.value
  }

  /** How many values from `lo` to `hi` were not seen. */
  function AbsentCount(seen: set<int>, lo: int, hi: int): nat
    decreases hi - lo + 1
  {
    if lo > hi then 0 else (if lo in seen then 0 else 1) + AbsentCount(seen, lo + 1, hi)
  }

  ghost predicate Covered(ranges: seq<Range>, v: int) {
    exists k :: 0 <= k < |ranges| && ranges[k].start <= v <= ranges[k].end
  }

  /** The maximal runs of absent values from `lo` to `hi`: in order, with a present value
      between any two, and covering exactly what is absent. */
  ghost predicate GapList(ranges: seq<Range>, seen: set<int>, lo: int, hi: int) {
    && (forall k :: 0 <= k < |ranges| ==> lo <= ranges[k].start <= ranges[k].end <= hi)
    && (forall j, k :: 0 <= j < k < |ranges| ==> ranges[j].end + 1 < ranges[k].start)
    && (forall v :: lo <= v <= hi ==> (v !in seen <==> Covered(ranges, v)))
  }

  function Total(ranges: seq<Range>): int {
    if ranges == [] then 0 else ranges[0].end - ranges[0].start + 1 + Total(ranges[1..])
  }

  ghost predicate IsLeast(x: int, s: set<int>) {
    x in s && forall y :: y in s ==> x <= y
  }

  ghost predicate IsGreatest(x: int, s: set<int>) {
    x in s && forall y :: y in s ==> y <= x
  }

  ghost predicate IsReport(r: Report, values: seq<Option<int>>, lastValue: Option<int>) {
    var seen := Seen(values);
    && r.present == |seen|
    && r.unsequenced == multiset(values)[None]
    && r.present + r.duplicates + r.unsequenced == |values|
    && if seen == {} then r.first == r.last == None && r.expected == r.missing == r.tailMissing == 0 && r.ranges == []
       else
         && r.first.Some? && IsLeast(r.first.value, seen) && r.last.Some? && IsGreatest(r.last.value, seen)
         && r.expected == r.last.value - r.first.value + 1
         && r.missing == Total(r.ranges) == AbsentCount(seen, r.first.value, r.last.value) == r.expected - r.present
         && GapList(r.ranges, seen, r.first.value, r.last.value)
         && r.tailMissing ==
            if lastValue.Some? && lastValue.value > r.last.value then lastValue.value - r.last.value else 0
  }

  // --- Gap lists are unique and add up ---

  lemma TailOfGaps(ranges: seq<Range>, seen: set<int>, lo: int, hi: int)
    requires ranges != [] && GapList(ranges, seen, lo, hi)
    ensures GapList(ranges[1..], seen, ranges[0].end + 1, hi)
    ensures forall v :: lo <= v < ranges[0].start ==> v in seen
    ensures forall v :: ranges[0].start <= v <= ranges[0].end ==> v !in seen
  {
    var rest := ranges[1..];
    assert forall k :: 0 <= k < |rest| ==> rest[k] == ranges[k + 1];
    forall v | ranges[0].end + 1 <= v <= hi
      ensures v !in seen <==> Covered(rest, v)
    {
      if Covered(ranges, v) {
        var k :| 0 <= k < |ranges| && ranges[k].start <= v <= ranges[k].end;
        assert rest[k - 1] == ranges[k];
      }
    }
    forall v | lo <= v < ranges[0].start
      ensures !Covered(ranges, v)
    {
      forall k | 0 <= k < |ranges| ensures !(ranges[k].start <= v) {
        if k > 0 { assert ranges[0].end + 1 < ranges[k].start; }
      }
    }
  }

  lemma SameFirstGap(a: seq<Range>, b: seq<Range>, seen: set<int>, lo: int, hi: int)
    requires a != [] && GapList(a, seen, lo, hi) && GapList(b, seen, lo, hi)
    ensures b != [] && b[0].start <= a[0].start
  {
    assert Covered(a, a[0].start);
    assert Covered(b, a[0].start);
    var k :| 0 <= k < |b| && b[k].start <= a[0].start <= b[k].end;
    if k > 0 { assert b[0].end + 1 < b[k].start; }
  }

  lemma NotJustAfterFirst(a: seq<Range>, v: int)
    requires a != [] && v == a[0].end + 1 && forall j, k :: 0 <= j < k < |a| ==> a[j].end + 1 < a[k].start
    ensures !Covered(a, v)
  {
    forall k | 0 <= k < |a|
      ensures !(a[k].start <= v <= a[k].end)
    {
      if k > 0 { assert a[0].end + 1 < a[k].start; }
    }
  }

  lemma SameFirstEnd(a: seq<Range>, b: seq<Range>, seen: set<int>, lo: int, hi: int)
    requires a != [] && b != [] && a[0].start == b[0].start
    requires GapList(a, seen, lo, hi) && GapList(b, seen, lo, hi)
    ensures b[0].end <= a[0].end
  {
    var v := a[0].end + 1;
    if v <= b[0].end {
      assert Covered(b, v);
      assert Covered(a, v);
      NotJustAfterFirst(a, v);
      assert false;
    }
  }

  lemma {:induction false} GapListUnique(a: seq<Range>, b: seq<Range>, seen: set<int>, lo: int, hi: int)
    requires GapList(a, seen, lo, hi) && GapList(b, seen, lo, hi)
    ensures a == b
    decreases |a|
  {
    if a == [] {
      if b != [] { SameFirstGap(b, a, seen, lo, hi); }
    } else {
      SameFirstGap(a, b, seen, lo, hi);
      SameFirstGap(b, a, seen, lo, hi);
      SameFirstEnd(a, b, seen, lo, hi);
      SameFirstEnd(b, a, seen, lo, hi);
      assert a[0] == b[0];
      TailOfGaps(a, seen, lo, hi);
      TailOfGaps(b, seen, lo, hi);
      GapListUnique(a[1..], b[1..], seen, a[0].end + 1, hi);
      assert a == [a[0]] + a[1..] && b == [b[0]] + b[1..];
    }
  }

  lemma AnyOf<T>(s: set<T>) returns (x: T)
    requires s != {}
    ensures x in s
  {
    x :| x in s;
  }

  lemma {:induction false} SkipPresent(seen: set<int>, lo: int, m: int, hi: int)
    requires lo <= m <= hi + 1 && forall v :: lo <= v < m ==> v in seen
    ensures AbsentCount(seen, lo, hi) == AbsentCount(seen, m, hi)
    decreases m - lo
  {
    if lo < m { SkipPresent(seen, lo + 1, m, hi); }
  }

  lemma {:induction false} SkipAbsent(seen: set<int>, lo: int, m: int, hi: int)
    requires lo <= m <= hi + 1 && forall v :: lo <= v < m ==> v !in seen
    ensures AbsentCount(seen, lo, hi) == m - lo + AbsentCount(seen, m, hi)
    decreases m - lo
  {
    if lo < m { SkipAbsent(seen, lo + 1, m, hi); }
  }

  /** The lengths of the ranges add up to the number of absent values. */
  lemma {:induction false} GapsAddUp(ranges: seq<Range>, seen: set<int>, lo: int, hi: int)
    requires GapList(ranges, seen, lo, hi) && lo <= hi + 1
    ensures Total(ranges) == AbsentCount(seen, lo, hi)
    decreases |ranges|
  {
    if ranges == [] {
      NoGaps(ranges, seen, lo, hi);
    } else {
      TailOfGaps(ranges, seen, lo, hi);
      GapsAddUp(ranges[1..], seen, ranges[0].end + 1, hi);
      FirstGap(seen, lo, ranges[0].start, ranges[0].end, hi);
    }
  }

  lemma NoGaps(ranges: seq<Range>, seen: set<int>, lo: int, hi: int)
    requires ranges == [] && GapList(ranges, seen, lo, hi) && lo <= hi + 1
    ensures AbsentCount(seen, lo, hi) == 0
  {
    assert forall v :: lo <= v <= hi ==> !Covered(ranges, v);
    SkipPresent(seen, lo, hi + 1, hi);
  }

  lemma FirstGap(seen: set<int>, lo: int, start: int, end: int, hi: int)
    requires lo <= start <= end <= hi
    requires (forall v :: lo <= v < start ==> v in seen) && forall v :: start <= v <= end ==> v !in seen
    ensures AbsentCount(seen, lo, hi) == end - start + 1 + AbsentCount(seen, end + 1, hi)
  {
    SkipPresent(seen, lo, start, hi);
    SkipAbsent(seen, start, end + 1, hi);
  }

  lemma {:induction false} SameAbsent(a: set<int>, b: set<int>, lo: int, hi: int)
    requires forall v :: lo <= v <= hi ==> (v in a <==> v in b)
    ensures AbsentCount(a, lo, hi) == AbsentCount(b, lo, hi)
    decreases hi - lo + 1
  {
    if lo <= hi { SameAbsent(a, b, lo + 1, hi); }
  }

  lemma {:induction false} AbsentSize(seen: set<int>, lo: int, hi: int)
    requires lo <= hi + 1 && forall v :: v in seen ==> lo <= v <= hi
    ensures AbsentCount(seen, lo, hi) == hi - lo + 1 - |seen|
    decreases hi - lo + 1
  {
    if lo > hi {
      if seen != {} { var v := AnyOf(seen); }
    } else if lo in seen {
      AbsentSize(seen - {lo}, lo + 1, hi);
      SameAbsent(seen, seen - {lo}, lo + 1, hi);
    } else {
      AbsentSize(seen, lo + 1, hi);
    }
  }

  lemma {:induction false} NoneAbsent(seen: set<int>, lo: int, hi: int, v: int)
    requires AbsentCount(seen, lo, hi) == 0 && lo <= v <= hi
    ensures v in seen
    decreases hi - lo + 1
  {
    if v > lo { NoneAbsent(seen, lo + 1, hi, v); }
  }

  lemma SeenByMultiset(a: seq<Option<int>>, b: seq<Option<int>>)
    requires multiset(a) == multiset(b)
    ensures Seen(a) == Seen(b) && |a| == |b|
  {
    assert forall v :: v in a <==> v in multiset(a);
    assert forall v :: v in b <==> v in multiset(b);
    assert |multiset(a)| == |a| && |multiset(b)| == |b|;
  }

  /** The report depends on which rows there are, not on the order they come in. */
  lemma ReportIgnoresOrder(a: seq<Option<int>>, b: seq<Option<int>>, lastValue: Option<int>, r: Report, q: Report)
    requires multiset(a) == multiset(b) && IsReport(r, a, lastValue) && IsReport(q, b, lastValue)
    ensures r == q
  {
    SeenByMultiset(a, b);
    SameReport(r, q, a, b, Seen(a), lastValue);
  }

  lemma SameReport(r: Report, q: Report, a: seq<Option<int>>, b: seq<Option<int>>, seen: set<int>,
                   lastValue: Option<int>)
    requires Seen(a) == Seen(b) == seen && |a| == |b| && multiset(a)[None] == multiset(b)[None]
    requires IsReport(r, a, lastValue) && IsReport(q, b, lastValue)
    ensures r == q
  {
    if seen != {} {
      SameBounds(r, q, a, b, seen, lastValue);
      SameRanges(r, q, seen);
    }
  }

  lemma SameBounds(r: Report, q: Report, a: seq<Option<int>>, b: seq<Option<int>>, seen: set<int>,
                   lastValue: Option<int>)
    requires Seen(a) == Seen(b) == seen && seen != {}
    requires IsReport(r, a, lastValue) && IsReport(q, b, lastValue)
    ensures r.first.Some? && r.last.Some? && r.first == q.first && r.last == q.last
  {
    BoundsUnique(r.first.value, q.first.value, r.last.value, q.last.value, seen);
  }

  lemma BoundsUnique(x: int, y: int, u: int, v: int, s: set<int>)
    requires IsLeast(x, s) && IsLeast(y, s) && IsGreatest(u, s) && IsGreatest(v, s)
    ensures x == y && u == v
  {
  }

  lemma SameRanges(r: Report, q: Report, seen: set<int>)
    requires r.first.Some? && r.last.Some? && r.first == q.first && r.last == q.last
    requires GapList(r.ranges, seen, r.first.value, r.last.value)
    requires GapList(q.ranges, seen, q.first.value, q.last.value)
    ensures r.ranges == q.ranges
  {
    GapListUnique(r.ranges, q.ranges, seen, r.first.value, r.last.value);
  }

  // --- audit_integrity.sequence_gaps ---

  method Bounds(seen: set<int>) returns (first: int, last: int)
    requires seen != {}
    ensures IsLeast(first, seen) && IsGreatest(last, seen)
  {
    ghost var some := AnyOf(seen);
    var x: int :| x in seen;
    first, last := x, x;
    var rest := seen - {x};
    while rest != {}
      invariant rest <= seen && first in seen && last in seen
      invariant forall y :: y in seen ==> y in rest || first <= y <= last
      decreases |rest|
    {
      ghost var another := AnyOf(rest);
      var y: int :| y in rest;
      if y < first { first := y; }
      if y > last { last := y; }
      rest := rest - {y};
    }
  }

  /** The runs of absent values; after the last value, which is present, none is open. */
  method Runs(seen: set<int>, first: int, last: int) returns (ranges: seq<Range>)
    requires IsLeast(first, seen) && IsGreatest(last, seen)
    ensures GapList(ranges, seen, first, last)
  {
    ranges := [];
    var runStart: Option<int> := None;
    for value := first to last + 1
      invariant runStart.None? ==> GapList(ranges, seen, first, value - 1) && (value == first || value - 1 in seen)
      invariant runStart.Some? ==> OpenRun(ranges, seen, first, runStart.value, value)
    {
      if value in seen {
        if runStart.Some? {
          CloseRun(ranges, seen, first, runStart.value, value);
          ranges := ranges + [Range(runStart.value, value - 1)];
          runStart := None;
        } else {
          ExtendPresent(ranges, seen, first, value);
        }
      } else if runStart.None? {
        runStart := Some(value);
      }
    }
    if runStart.Some? {
      assert false;
    }
  }

  ghost predicate OpenRun(ranges: seq<Range>, seen: set<int>, first: int, start: int, value: int) {
    && first < start < value && start - 1 in seen
    && GapList(ranges, seen, first, start - 1)
    && forall v :: start <= v < value ==> v !in seen
  }

  lemma ExtendPresent(ranges: seq<Range>, seen: set<int>, first: int, value: int)
    requires GapList(ranges, seen, first, value - 1) && value in seen && first <= value
    ensures GapList(ranges, seen, first, value)
  {
    assert !Covered(ranges, value);
  }

  lemma CloseRun(ranges: seq<Range>, seen: set<int>, first: int, start: int, value: int)
    requires OpenRun(ranges, seen, first, start, value) && value in seen
    ensures GapList(ranges + [Range(start, value - 1)], seen, first, value)
  {
    var longer := ranges + [Range(start, value - 1)];
    assert !Covered(ranges, start - 1);
    forall k | 0 <= k < |ranges|
      ensures ranges[k].end + 1 < start
    {
      assert ranges[k].start <= start - 1 <= ranges[k].end ==> Covered(ranges, start - 1);
    }
    forall v | first <= v <= value
      ensures v !in seen <==> Covered(longer, v)
    {
      if Covered(ranges, v) {
        var k :| 0 <= k < |ranges| && ranges[k].start <= v <= ranges[k].end;
        assert longer[k] == ranges[k];
      }
      assert longer[|ranges|] == Range(start, value - 1);
      if Covered(longer, v) && !(start <= v < value) {
        var k :| 0 <= k < |longer| && longer[k].start <= v <= longer[k].end;
        assert longer[k] == ranges[k];
        assert Covered(ranges, v);
      }
    }
  }

  method Tally(values: seq<Option<int>>) returns (seen: set<int>, duplicates: nat, unsequenced: nat)
    ensures seen == Seen(values) && unsequenced == multiset(values)[None]
    ensures |seen| + duplicates + unsequenced == |values|
  {
    seen, duplicates, unsequenced := {}, 0, 0;
    for i := 0 to |values|
      invariant seen == Seen(values[..i]) && unsequenced == multiset(values[..i])[None]
      invariant |seen| + duplicates + unsequenced == i
    {
      assert values[..i + 1] == values[..i] + [values[i]];
      match values[i]
      case None => unsequenced := unsequenced + 1;
      case Some(v) =>
        assert Seen(values[..i + 1]) == Seen(values[..i]) + {v};
        if v in seen {
          duplicates := duplicates + 1;
        } else {
          seen := seen + {v};
        }
    }
    assert values[..|values|] == values;
  }

  method SequenceReport(values: seq<Option<int>>, lastValue: Option<int>) returns (r: Report)
    ensures IsReport(r, values, lastValue)
  {
    var seen, duplicates, unsequenced := Tally(values);
    if seen == {} {
      return Report(None, None, 0, 0, 0, [], duplicates, unsequenced, 0);
    }
    var first, last := Bounds(seen);
    var expected, present := last - first + 1, |seen|;
    AbsentSize(seen, first, last);
    var ranges := [];
    if present < expected {
      ranges := Runs(seen, first, last);
    } else {
      NothingAbsent(seen, first, last);
    }
    GapsAddUp(ranges, seen, first, last);
    var tail := if lastValue.Some? && lastValue.value - last > 0 then lastValue.value - last else 0;
    return Report(Some(first), Some(last), present, expected, expected - present, ranges, duplicates, unsequenced,
                  tail);
  }

  lemma NothingAbsent(seen: set<int>, first: int, last: int)
    requires AbsentCount(seen, first, last) == 0
    ensures GapList([], seen, first, last)
  {
    forall v | first <= v <= last
      ensures v in seen
    {
      NoneAbsent(seen, first, last, v);
    }
  }
}
