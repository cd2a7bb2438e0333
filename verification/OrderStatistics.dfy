/** Summary statistics of a sample, over exact numbers. */
module OrderStatistics {
  import opened Basics
  import opened Wrappers

  predicate Ascending(s: seq<real>) {
    forall i, j :: 0 <= i < j < |s| ==> s[i] <= s[j]
  }

  // ----- sorted ------------------------------------------------------------------------------

  function Insert(v: real, s: seq<real>): seq<real> {
    if s == [] || v <= s[0] then [v] + s else [s[0]] + Insert(v, s[1..])
  }

  function Sorted(s: seq<real>): seq<real> {
    if s == [] then [] else Insert(s[0], Sorted(s[1..]))
  }

  predicate AtLeast(low: real, s: seq<real>) {
    forall i :: 0 <= i < |s| ==> low <= s[i]
  }

  lemma AscendingCons(v: real, s: seq<real>)
    requires AtLeast(v, s) && Ascending(s)
    ensures Ascending([v] + s)
  {
    var t := [v] + s;
    forall i, j | 0 <= i < j < |t|
      ensures t[i] <= t[j]
    {
      assert t[j] == s[j - 1];
      assert i > 0 ==> t[i] == s[i - 1];
    }
  }

  lemma {:induction false} InsertKeepsBound(v: real, s: seq<real>, low: real)
    requires low <= v && AtLeast(low, s)
    ensures AtLeast(low, Insert(v, s))
  {
    if s != [] && v > s[0] {
      InsertKeepsBound(v, s[1..], low);
    }
  }

  lemma {:induction false} InsertIsAscending(v: real, s: seq<real>)
    requires Ascending(s)
    ensures Ascending(Insert(v, s))
  {
    if s != [] && v > s[0] {
      InsertIsAscending(v, s[1..]);
      InsertKeepsBound(v, s[1..], s[0]);
      AscendingCons(s[0], Insert(v, s[1..]));
    } else {
      AscendingCons(v, s);
    }
  }

  lemma {:induction false} InsertAdds(v: real, s: seq<real>)
    ensures multiset(Insert(v, s)) == multiset(s) + multiset{v}
  {
    if s != [] && v > s[0] {
      InsertAdds(v, s[1..]);
      assert s == [s[0]] + s[1..];
    }
  }

  lemma {:induction false} SortedIsSorted(s: seq<real>)
    ensures Ascending(Sorted(s)) && multiset(Sorted(s)) == multiset(s) && |Sorted(s)| == |s|
  {
    if s != [] {
      SortedIsSorted(s[1..]);
      InsertIsAscending(s[0], Sorted(s[1..]));
      InsertAdds(s[0], Sorted(s[1..]));
      assert s == [s[0]] + s[1..];
    }
    assert |multiset(Sorted(s))| == |multiset(s)|;
  }

  lemma SortedAscends(s: seq<real>)
    ensures Ascending(Sorted(s)) && |Sorted(s)| == |s|
  {
    SortedIsSorted(s);
  }

  lemma SortedMembers(s: seq<real>, v: real)
    ensures v in Sorted(s) <==> v in s
  {
    SortedIsSorted(s);
    assert v in multiset(s) <==> v in multiset(Sorted(s));
  }

  lemma FirstIsLeast(s: seq<real>, t: seq<real>)
    requires s != [] && t != [] && Ascending(s) && multiset(s) == multiset(t)
    ensures s[0] <= t[0]
  {
    assert t[0] in multiset(s);
    assert t[0] in s;
    var j :| 0 <= j < |s| && s[j] == t[0];
  }

  lemma RestOfBag(s: seq<real>)
    requires s != []
    ensures multiset(s[1..]) == multiset(s) - multiset{s[0]}
  {
    assert s == [s[0]] + s[1..];
  }

  /** There is only one way to put a bag of numbers in order. */
  lemma {:induction false} AscendingIsUnique(s: seq<real>, t: seq<real>)
    requires Ascending(s) && Ascending(t) && multiset(s) == multiset(t)
    ensures s == t
  {
    assert |s| == |t| by {
      assert |multiset(s)| == |multiset(t)|;
    }
    if s != [] {
      FirstIsLeast(s, t);
      FirstIsLeast(t, s);
      RestOfBag(s);
      RestOfBag(t);
      AscendingIsUnique(s[1..], t[1..]);
      assert s == [s[0]] + s[1..] && t == [t[0]] + t[1..];
    }
  }

  // ----- The statistics ------------------------------------------------------------------------

  function Median(ordered: seq<real>): real
    requires ordered != []
  {
    var n := |ordered|;
    if n % 2 == 1 then ordered[n / 2] else (ordered[n / 2 - 1] + ordered[n / 2]) / 2.0
  }

  /** Nearest rank, as the source computes it. */
  function Percentile(ordered: seq<real>, percent: nat): real
    requires ordered != [] && percent <= 100
  {
    Rank(|ordered|, percent);
    ordered[(|ordered| - 1) * percent / 100]
  }

  lemma Rank(n: nat, percent: nat)
    requires n > 0 && percent <= 100
    ensures 0 <= (n - 1) * percent / 100 < n
  {
    ScaledUp(0, percent, n - 1);
    ScaledUp(percent, 100, n - 1);
    assert (n - 1) * percent == percent * (n - 1);
  }

  function Distance(a: real, b: real): (d: real)
    ensures d >= 0.0 && (a + d == b || b + d == a)
  {
    if a < b then b - a else a - b
  }

  function Deviations(s: seq<real>, center: real): seq<real> {
    seq(|s|, i requires 0 <= i < |s| => Distance(s[i], center))
  }

  datatype Summary = Summary(count: nat, min: real, median: real, p95: real, max: real, mad: real)

  function SummaryOf(ordered: seq<real>): Summary
    requires ordered != []
  {
    Summary(|ordered|, ordered[0], Median(ordered), Percentile(ordered, 95), ordered[|ordered| - 1],
            Deviation(ordered, Median(ordered)))
  }

  /** The median distance from the center. */
  function Deviation(s: seq<real>, center: real): real
    requires s != []
  {
    SortedIsSorted(Deviations(s, center));
    Median(Sorted(Deviations(s, center)))
  }

  function Summarize(values: seq<real>): Result<Summary, string> {
    SortedIsSorted(values);
    if values == [] then Failure("cannot summarize an empty sample") else Success(SummaryOf(Sorted(values)))
  }

  /** The summary depends on the numbers, not on their order. */
  lemma OrderIsIrrelevant(s: seq<real>, t: seq<real>)
    requires multiset(s) == multiset(t)
    ensures Summarize(s) == Summarize(t)
  {
    SortedOfBag(s, t);
    assert |multiset(s)| == |multiset(t)|;
  }

  lemma SortedOfBag(s: seq<real>, t: seq<real>)
    requires multiset(s) == multiset(t)
    ensures Sorted(s) == Sorted(t)
  {
    SortedIsSorted(s);
    SortedIsSorted(t);
    AscendingIsUnique(Sorted(s), Sorted(t));
  }

  lemma MedianBetween(ordered: seq<real>)
    requires ordered != [] && Ascending(ordered)
    ensures ordered[0] <= Median(ordered) <= ordered[|ordered| - 1]
    ensures Median(ordered) <= ordered[|ordered| / 2]
    ensures ordered[(|ordered| - 1) / 2] <= Median(ordered)
  {
  }

  lemma PercentileBetween(ordered: seq<real>)
    requires ordered != [] && Ascending(ordered)
    ensures ordered[0] <= Percentile(ordered, 95) <= ordered[|ordered| - 1]
    ensures |ordered| != 2 ==> Median(ordered) <= Percentile(ordered, 95)
    ensures |ordered| == 2 ==> Percentile(ordered, 95) == ordered[0]
  {
    Rank(|ordered|, 95);
    MedianBetween(ordered);
    var n, k := |ordered|, (|ordered| - 1) * 95 / 100;
    assert n != 2 ==> k >= n / 2;
  }

  lemma DeviationIsNatural(s: seq<real>, center: real)
    requires s != []
    ensures Deviation(s, center) >= 0.0
  {
    var d := Deviations(s, center);
    SortedIsSorted(d);
    MedianBetween(Sorted(d));
    SortedMembers(d, Sorted(d)[0]);
    DistancesAreNatural(s, center, Sorted(d)[0]);
  }

  lemma DistancesAreNatural(s: seq<real>, center: real, v: real)
    requires v in Deviations(s, center)
    ensures v >= 0.0
  {
    var i :| 0 <= i < |s| && Deviations(s, center)[i] == v;
  }

  lemma SortedPairIsEqual(values: seq<real>)
    requires |values| == 2
    ensures |Sorted(values)| == 2
    ensures Sorted(values)[0] == Sorted(values)[1] <==> values[0] == values[1]
  {
    SortedIsSorted(values);
    var t := Sorted(values);
    PairOfBag(values, t);
    PairOfBag(t, values);
  }

  lemma PairOfBag(s: seq<real>, t: seq<real>)
    requires |s| == 2 && |t| == 2 && multiset(s) == multiset(t)
    ensures s[0] == s[1] ==> t[0] == t[1]
  {
    assert t[0] in multiset(s) && t[1] in multiset(s);
    assert t[0] in s && t[1] in s;
  }

  /** The statistics are in order, except that with two different values the 95th percentile is the
      smaller one. */
  lemma StatisticsAreOrdered(values: seq<real>)
    requires values != []
    ensures Summarize(values).Success?
    ensures var s := Summarize(values).value;
      && s.count == |values| && s.min <= s.median <= s.max && s.min <= s.p95 <= s.max && s.mad >= 0.0
      && (s.median <= s.p95 <==> |values| != 2 || values[0] == values[1])
  {
    var ordered := Sorted(values);
    SortedIsSorted(values);
    MedianBetween(ordered);
    PercentileBetween(ordered);
    DeviationIsNatural(ordered, Median(ordered));
    if |values| == 2 {
      SortedPairIsEqual(values);
    }
  }

  /** Two different values: the 95th percentile is the smaller one and lies below the median. */
  lemma PairIsOutOfOrder()
    ensures Summarize([1.0, 2.0]).Success?
    ensures Summarize([1.0, 2.0]).value.p95 < Summarize([1.0, 2.0]).value.median
  {
    StatisticsAreOrdered([1.0, 2.0]);
  }

  predicate Within(values: seq<real>, low: real, high: real) {
    forall v :: v in values ==> low <= v <= high
  }

  lemma SummaryPicks(values: seq<real>)
    requires values != []
    ensures Summarize(values).Success? && |Sorted(values)| == |values|
    ensures var s, n := Summarize(values).value, |values|;
      && s.min == Sorted(values)[0] && s.max == Sorted(values)[n - 1]
      && 0 <= (n - 1) * 95 / 100 < n && s.p95 == Sorted(values)[(n - 1) * 95 / 100]
  {
    SortedAscends(values);
  }

  lemma SortedIsWithin(values: seq<real>)
    requires values != []
    ensures |Sorted(values)| == |values| && Within(values, Sorted(values)[0], Sorted(values)[|values| - 1])
  {
    SortedAscends(values);
    forall v | v in values
      ensures Sorted(values)[0] <= v <= Sorted(values)[|values| - 1]
    {
      SortedBounds(values, v);
    }
  }

  /** The least and the greatest value are values of the sample that bound all of it. */
  lemma ExtremesBound(values: seq<real>)
    requires values != []
    ensures Summarize(values).Success?
    ensures var s := Summarize(values).value;
      s.min in values && s.p95 in values && s.max in values && Within(values, s.min, s.max)
  {
    SummaryPicks(values);
    SortedIsWithin(values);
    SortedElement(values, 0);
    SortedElement(values, (|values| - 1) * 95 / 100);
    SortedElement(values, |values| - 1);
  }

  lemma SortedElement(values: seq<real>, k: nat)
    requires k < |values|
    ensures |Sorted(values)| == |values| && Sorted(values)[k] in values
  {
    SortedAscends(values);
    SortedMembers(values, Sorted(values)[k]);
  }

  lemma SortedBounds(values: seq<real>, v: real)
    requires v in values
    ensures |Sorted(values)| == |values| && Sorted(values)[0] <= v <= Sorted(values)[|values| - 1]
  {
    SortedAscends(values);
    SortedMembers(values, v);
    var k :| 0 <= k < |Sorted(values)| && Sorted(values)[k] == v;
  }

  // ----- Median absolute deviation -----------------------------------------------------------------

  function CountAtMost(s: seq<real>, x: real): nat {
    if s == [] then 0 else (if s[0] <= x then 1 else 0) + CountAtMost(s[1..], x)
  }

  lemma {:induction false} CountInsert(v: real, s: seq<real>, x: real)
    ensures CountAtMost(Insert(v, s), x) == CountAtMost(s, x) + (if v <= x then 1 else 0)
  {
    if s == [] || v <= s[0] {
      assert ([v] + s)[1..] == s;
    } else {
      CountInsert(v, s[1..], x);
      assert ([s[0]] + Insert(v, s[1..]))[1..] == Insert(v, s[1..]);
    }
  }

  lemma {:induction false} CountSorted(s: seq<real>, x: real)
    ensures CountAtMost(Sorted(s), x) == CountAtMost(s, x)
  {
    if s != [] {
      CountSorted(s[1..], x);
      CountInsert(s[0], Sorted(s[1..]), x);
    }
  }

  lemma {:induction false} CountPrefix(s: seq<real>, x: real, k: nat)
    requires k <= |s| && forall i :: 0 <= i < k ==> s[i] <= x
    ensures CountAtMost(s, x) >= k
  {
    if k > 0 {
      CountPrefix(s[1..], x, k - 1);
    }
  }

  function CountBelow(s: seq<real>, x: real): nat {
    if s == [] then 0 else (if s[0] < x then 1 else 0) + CountBelow(s[1..], x)
  }

  lemma {:induction false} CountBelowInsert(v: real, s: seq<real>, x: real)
    ensures CountBelow(Insert(v, s), x) == CountBelow(s, x) + (if v < x then 1 else 0)
  {
    if s == [] || v <= s[0] {
      assert ([v] + s)[1..] == s;
    } else {
      CountBelowInsert(v, s[1..], x);
      assert ([s[0]] + Insert(v, s[1..]))[1..] == Insert(v, s[1..]);
    }
  }

  lemma {:induction false} CountBelowSorted(s: seq<real>, x: real)
    ensures CountBelow(Sorted(s), x) == CountBelow(s, x)
  {
    if s != [] {
      CountBelowSorted(s[1..], x);
      CountBelowInsert(s[0], Sorted(s[1..]), x);
    }
  }

  lemma {:induction false} CountBelowPrefix(s: seq<real>, x: real, k: nat)
    requires k <= |s| && forall i :: k <= i < |s| ==> x <= s[i]
    ensures CountBelow(s, x) <= k
  {
    if s != [] {
      CountBelowPrefix(s[1..], x, if k > 0 then k - 1 else 0);
    }
  }

  /** The percentile is the value of the nearest rank: more than `percent` hundredths of the steps
      through the sample end at or below it, and no more than that are strictly below it. */
  lemma PercentileIsRank(values: seq<real>, percent: nat)
    requires values != [] && percent <= 100
    ensures Sorted(values) != []
    ensures var p := Percentile(Sorted(values), percent);
      CountBelow(values, p) * 100 <= (|values| - 1) * percent < CountAtMost(values, p) * 100
  {
    SortedAscends(values);
    PercentileAt(Sorted(values), percent, (|values| - 1) * percent);
    RankedValue(values, (|values| - 1) * percent);
  }

  lemma PercentileAt(ordered: seq<real>, percent: nat, product: int)
    requires ordered != [] && percent <= 100 && product == (|ordered| - 1) * percent
    ensures product >= 0 && product / 100 < |ordered| && Percentile(ordered, percent) == ordered[product / 100]
  {
    Rank(|ordered|, percent);
  }

  lemma RankedValue(values: seq<real>, product: nat)
    requires product / 100 < |values|
    ensures |Sorted(values)| == |values|
    ensures var p := Sorted(values)[product / 100];
      CountBelow(values, p) * 100 <= product < CountAtMost(values, p) * 100
  {
    ElementRank(values, product / 100);
    var p := Sorted(values)[product / 100];
    RankIsShare(product, CountBelow(values, p), CountAtMost(values, p));
  }

  lemma RankIsShare(product: nat, below: nat, atMost: nat)
    requires below <= product / 100 < atMost
    ensures below * 100 <= product < atMost * 100
  {
  }

  lemma ElementRank(values: seq<real>, k: nat)
    requires k < |values|
    ensures |Sorted(values)| == |values|
    ensures CountBelow(values, Sorted(values)[k]) <= k < CountAtMost(values, Sorted(values)[k])
  {
    SortedAscends(values);
    var ordered := Sorted(values);
    var p := ordered[k];
    CountPrefix(ordered, p, k + 1);
    CountBelowPrefix(ordered, p, k);
    CountSorted(values, p);
    CountBelowSorted(values, p);
  }

  /** How many values lie within `radius` of `center`. */
  function CountWithin(s: seq<real>, center: real, radius: real): nat {
    if s == [] then 0
    else (if Distance(s[0], center) <= radius then 1 else 0) + CountWithin(s[1..], center, radius)
  }

  lemma {:induction false} CountWithinDeviations(s: seq<real>, center: real, radius: real)
    ensures CountWithin(s, center, radius) == CountAtMost(Deviations(s, center), radius)
  {
    if s != [] {
      CountWithinDeviations(s[1..], center, radius);
      assert Deviations(s, center)[1..] == Deviations(s[1..], center);
    }
  }

  lemma {:induction false} CountWithinInsert(v: real, s: seq<real>, center: real, radius: real)
    ensures CountWithin(Insert(v, s), center, radius) ==
            CountWithin(s, center, radius) + (if Distance(v, center) <= radius then 1 else 0)
  {
    if s == [] || v <= s[0] {
      assert ([v] + s)[1..] == s;
    } else {
      CountWithinInsert(v, s[1..], center, radius);
      assert ([s[0]] + Insert(v, s[1..]))[1..] == Insert(v, s[1..]);
    }
  }

  lemma {:induction false} CountWithinSorted(s: seq<real>, center: real, radius: real)
    ensures CountWithin(Sorted(s), center, radius) == CountWithin(s, center, radius)
  {
    if s != [] {
      CountWithinSorted(s[1..], center, radius);
      CountWithinInsert(s[0], Sorted(s[1..]), center, radius);
    }
  }

  lemma HalfAtMostMedian(ordered: seq<real>)
    requires ordered != [] && Ascending(ordered)
    ensures 2 * CountAtMost(ordered, Median(ordered)) >= |ordered|
  {
    MedianBetween(ordered);
    CountPrefix(ordered, Median(ordered), (|ordered| + 1) / 2);
  }

  /** At least half of the values lie within the median absolute deviation of the median. */
  lemma HalfWithinDeviation(values: seq<real>)
    requires values != []
    ensures Summarize(values).Success?
    ensures var s := Summarize(values).value; 2 * CountWithin(values, s.median, s.mad) >= |values|
  {
    var ordered := Sorted(values);
    SortedIsSorted(values);
    var center := Median(ordered);
    var radius := Deviation(ordered, center);
    var deviations := Deviations(ordered, center);
    SortedIsSorted(deviations);
    HalfAtMostMedian(Sorted(deviations));
    CountSorted(deviations, radius);
    CountWithinDeviations(ordered, center, radius);
    CountWithinSorted(values, center, radius);
  }

  // ----- Exactly which values ----------------------------------------------------------------------

  /** `v` is the value with `k` values in front of it when the sample is put in order. */
  predicate IsRanked(values: seq<real>, k: int, v: real) {
    v in values && CountBelow(values, v) <= k < CountAtMost(values, v)
  }

  lemma {:induction false} SmallerCountsLess(s: seq<real>, v: real, w: real)
    requires v < w
    ensures CountAtMost(s, v) <= CountBelow(s, w)
  {
    if s != [] {
      SmallerCountsLess(s[1..], v, w);
    }
  }

  lemma RankIsUnique(values: seq<real>, k: int, v: real, w: real)
    requires IsRanked(values, k, v) && IsRanked(values, k, w)
    ensures v == w
  {
    if v < w {
      SmallerCountsLess(values, v, w);
    } else if w < v {
      SmallerCountsLess(values, w, v);
    }
  }

  lemma SortedIsRanked(values: seq<real>, k: nat)
    requires k < |values|
    ensures |Sorted(values)| == |values| && IsRanked(values, k, Sorted(values)[k])
  {
    ElementRank(values, k);
    SortedElement(values, k);
  }

  /** Halfway between the two values in the middle, which are the same one when their number is odd. */
  ghost predicate IsMedian(values: seq<real>, m: real) {
    exists lo, hi :: InMiddle(values, lo, hi) && m + m == lo + hi
  }

  predicate InMiddle(values: seq<real>, lo: real, hi: real) {
    IsRanked(values, (|values| - 1) / 2, lo) && IsRanked(values, |values| / 2, hi)
  }

  lemma MedianIsMedian(values: seq<real>, m: real)
    requires values != []
    ensures |Sorted(values)| == |values|
    ensures m == Median(Sorted(values)) <==> IsMedian(values, m)
  {
    SortedAscends(values);
    var ordered, a, b := Sorted(values), (|values| - 1) / 2, |values| / 2;
    SortedIsRanked(values, a);
    SortedIsRanked(values, b);
    MiddleOf(ordered);
    assert InMiddle(values, ordered[a], ordered[b]);
    if IsMedian(values, m) {
      var lo, hi :| InMiddle(values, lo, hi) && m + m == lo + hi;
      RankIsUnique(values, a, lo, ordered[a]);
      RankIsUnique(values, b, hi, ordered[b]);
    }
  }

  lemma MiddleOf(ordered: seq<real>)
    requires ordered != []
    ensures Median(ordered) + Median(ordered) == ordered[(|ordered| - 1) / 2] + ordered[|ordered| / 2]
  {
  }

  /** The distances of the sorted values are those of the values. */
  lemma {:induction false} DeviationsInsert(v: real, s: seq<real>, center: real)
    ensures multiset(Deviations(Insert(v, s), center)) == multiset(Deviations(s, center))
        + multiset{Distance(v, center)}
  {
    if s == [] || v <= s[0] {
      assert Deviations([v] + s, center) == [Distance(v, center)] + Deviations(s, center);
    } else {
      DeviationsInsert(v, s[1..], center);
      var d := Distance(s[0], center);
      assert Deviations([s[0]] + Insert(v, s[1..]), center) == [d] + Deviations(Insert(v, s[1..]), center);
      assert Deviations(s, center) == [d] + Deviations(s[1..], center);
    }
  }

  lemma {:induction false} DeviationsSorted(s: seq<real>, center: real)
    ensures multiset(Deviations(Sorted(s), center)) == multiset(Deviations(s, center))
  {
    if s != [] {
      DeviationsSorted(s[1..], center);
      DeviationsInsert(s[0], Sorted(s[1..]), center);
      assert Deviations(s, center) == [Distance(s[0], center)] + Deviations(s[1..], center);
    }
  }

  lemma DeviationIsMedian(values: seq<real>, center: real, mad: real)
    requires values != []
    ensures |Sorted(values)| == |values|
    ensures mad == Deviation(Sorted(values), center) <==> IsMedian(Deviations(values, center), mad)
  {
    SortedAscends(values);
    DeviationsSorted(values, center);
    SortedOfBag(Deviations(Sorted(values), center), Deviations(values, center));
    MedianIsMedian(Deviations(values, center), mad);
  }

  lemma RankedIs(values: seq<real>, k: nat, v: real)
    requires k < |values|
    ensures |Sorted(values)| == |values|
    ensures v == Sorted(values)[k] <==> IsRanked(values, k, v)
  {
    SortedIsRanked(values, k);
    if IsRanked(values, k, v) {
      RankIsUnique(values, k, v, Sorted(values)[k]);
    }
  }

  /** Each statistic by its rank: the first, the last, the one 95 hundredths of the way, the middle of the
      values and the middle of their distances from it. */
  ghost predicate IsSummary(values: seq<real>, s: Summary) {
    var n := |values|;
    && s.count == n
    && IsRanked(values, 0, s.min) && IsRanked(values, n - 1, s.max)
    && IsRanked(values, (n - 1) * 95 / 100, s.p95)
    && IsMedian(values, s.median)
    && IsMedian(Deviations(values, s.median), s.mad)
  }

  /** The summary is the one with these ranks, and there is none only of an empty sample. */
  lemma SummaryIsExact(values: seq<real>, s: Summary)
    ensures Summarize(values) == Success(s) <==> values != [] && IsSummary(values, s)
  {
    if values != [] {
      var n := |values|;
      SortedAscends(values);
      Rank(n, 95);
      RankedIs(values, 0, s.min);
      RankedIs(values, n - 1, s.max);
      RankedIs(values, (n - 1) * 95 / 100, s.p95);
      MedianIsMedian(values, s.median);
      DeviationIsMedian(values, s.median, s.mad);
      SummaryFields(Sorted(values), s);
    }
  }

  lemma SummaryFields(ordered: seq<real>, s: Summary)
    requires ordered != []
    ensures 0 <= (|ordered| - 1) * 95 / 100 < |ordered|
    ensures s == SummaryOf(ordered) <==>
      && s.count == |ordered| && s.min == ordered[0] && s.max == ordered[|ordered| - 1]
      && s.p95 == ordered[(|ordered| - 1) * 95 / 100]
      && s.median == Median(ordered) && s.mad == Deviation(ordered, s.median)
  {
    Rank(|ordered|, 95);
  }

  // ----- Mirror images -------------------------------------------------------------------------------

  function Negated(s: seq<real>): seq<real> {
    seq(|s|, i requires 0 <= i < |s| => -s[i])
  }

  function Backward(s: seq<real>): seq<real> {
    seq(|s|, i requires 0 <= i < |s| => s[|s| - 1 - i])
  }

  lemma {:induction false} BackwardKeepsBag(s: seq<real>)
    ensures multiset(Backward(s)) == multiset(s)
  {
    if s != [] {
      BackwardKeepsBag(s[1..]);
      assert Backward(s) == Backward(s[1..]) + [s[0]];
      assert s == [s[0]] + s[1..];
    }
  }

  lemma {:induction false} NegatedBag(s: seq<real>, v: real)
    ensures multiset(Negated(s))[v] == multiset(s)[-v]
  {
    if s != [] {
      NegatedBag(s[1..], v);
      assert Negated(s) == [-s[0]] + Negated(s[1..]);
      assert s == [s[0]] + s[1..];
    }
  }

  lemma NegatedKeepsBags(s: seq<real>, t: seq<real>)
    requires multiset(s) == multiset(t)
    ensures multiset(Negated(s)) == multiset(Negated(t))
  {
    forall v
      ensures multiset(Negated(s))[v] == multiset(Negated(t))[v]
    {
      NegatedBag(s, v);
      NegatedBag(t, v);
    }
  }

  lemma MirrorIsAscending(s: seq<real>)
    requires Ascending(s)
    ensures Ascending(Negated(Backward(s)))
  {
    var t := Negated(Backward(s));
    forall i, j | 0 <= i < j < |t|
      ensures t[i] <= t[j]
    {
      assert s[|s| - 1 - j] <= s[|s| - 1 - i];
    }
  }

  lemma SortedMirror(values: seq<real>)
    ensures Sorted(Negated(values)) == Negated(Backward(Sorted(values)))
  {
    var ordered := Sorted(values);
    SortedIsSorted(values);
    SortedIsSorted(Negated(values));
    BackwardKeepsBag(ordered);
    NegatedKeepsBags(Backward(ordered), values);
    MirrorIsAscending(ordered);
    AscendingIsUnique(Sorted(Negated(values)), Negated(Backward(ordered)));
  }

  lemma MedianMirrors(s: seq<real>)
    requires s != []
    ensures Median(Negated(Backward(s))) == -Median(s)
  {
    var n := |s|;
    assert n % 2 == 1 ==> n - 1 - n / 2 == n / 2;
    assert n % 2 == 0 ==> n - 1 - n / 2 == n / 2 - 1;
  }

  lemma DistancesMirror(s: seq<real>, center: real)
    ensures Deviations(Negated(Backward(s)), -center) == Backward(Deviations(s, center))
  {
  }

  lemma DeviationMirrors(s: seq<real>, center: real)
    requires s != []
    ensures Deviation(Negated(Backward(s)), -center) == Deviation(s, center)
  {
    DistancesMirror(s, center);
    BackwardKeepsBag(Deviations(s, center));
    SortedOfBag(Deviations(s, center), Backward(Deviations(s, center)));
  }

  lemma OrderedMirrors(ordered: seq<real>)
    requires ordered != []
    ensures var s, t := SummaryOf(ordered), SummaryOf(Negated(Backward(ordered)));
      t.median == -s.median && t.min == -s.max && t.max == -s.min && t.mad == s.mad && t.count == s.count
  {
    MedianMirrors(ordered);
    DeviationMirrors(ordered, Median(ordered));
  }

  /** Negating every value negates the median, exchanges the extremes and keeps the deviation. */
  lemma SummaryMirrors(values: seq<real>)
    requires values != []
    ensures Summarize(values).Success? && Summarize(Negated(values)).Success?
    ensures var s, t := Summarize(values).value, Summarize(Negated(values)).value;
      t.median == -s.median && t.min == -s.max && t.max == -s.min && t.mad == s.mad && t.count == s.count
  {
    SortedIsSorted(values);
    SortedMirror(values);
    OrderedMirrors(Sorted(values));
  }
}
