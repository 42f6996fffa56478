/** Sorting, order statistics and the two p95 definitions in use. */
module OrderStatistics {
  import opened Wrappers

  predicate Ascending(s: seq<real>) {
    forall i, j :: 0 <= i <= j < |s| ==> s[i] <= s[j]
  }

  function Insert(s: seq<real>, x: real): (r: seq<real>)
    ensures |r| == |s| + 1
  {
    if s == [] || s[|s| - 1] <= x then s + [x]
    else Insert(s[..|s| - 1], x) + [s[|s| - 1]]
  }

  function Sort(s: seq<real>): (r: seq<real>)
    ensures |r| == |s|
  {
    if s == [] then [] else Insert(Sort(s[..|s| - 1]), s[|s| - 1])
  }

  lemma {:induction false} InsertContents(s: seq<real>, x: real)
    ensures multiset(Insert(s, x)) == multiset(s) + multiset{x}
  {
    if s != [] && s[|s| - 1] > x {
      assert s == s[..|s| - 1] + [s[|s| - 1]];
      InsertContents(s[..|s| - 1], x);
    }
  }

  lemma {:induction false} InsertAscends(s: seq<real>, x: real)
    requires Ascending(s)
    ensures Ascending(Insert(s, x))
    ensures forall y :: y in Insert(s, x) <==> y == x || y in s
  {
    if s != [] && s[|s| - 1] > x {
      var front, last := s[..|s| - 1], s[|s| - 1];
      assert s == front + [last];
      InsertAscends(front, x);
      var r := Insert(front, x);
      forall i | 0 <= i < |r| ensures r[i] <= last {
        assert r[i] in r;
      }
    }
  }

  /** Sort returns the same values, in order. */
  lemma {:induction false} SortIsSorting(s: seq<real>)
    ensures Ascending(Sort(s)) && multiset(Sort(s)) == multiset(s)
  {
    if s != [] {
      var front, last := s[..|s| - 1], s[|s| - 1];
      assert s == front + [last];
      SortIsSorting(front);
      InsertContents(Sort(front), last);
      InsertAscends(Sort(front), last);
    }
  }

  /** How many values are at most x. */
  function CountAtMost(s: seq<real>, x: real): (n: nat)
    ensures n <= |s|
  {
    if s == [] then 0 else CountAtMost(s[..|s| - 1], x) + if s[|s| - 1] <= x then 1 else 0
  }

  lemma {:induction false} CountOfConcat(a: seq<real>, b: seq<real>, x: real)
    ensures CountAtMost(a + b, x) == CountAtMost(a, x) + CountAtMost(b, x)
  {
    if b == [] {
      assert a + b == a;
    } else {
      assert (a + b)[..|a + b| - 1] == a + b[..|b| - 1];
      CountOfConcat(a, b[..|b| - 1], x);
    }
  }

  lemma {:induction false} CountOfInsert(s: seq<real>, y: real, x: real)
    ensures CountAtMost(Insert(s, y), x) == CountAtMost(s, x) + if y <= x then 1 else 0
  {
    if s != [] && s[|s| - 1] > y {
      CountOfInsert(s[..|s| - 1], y, x);
      CountOfConcat(Insert(s[..|s| - 1], y), [s[|s| - 1]], x);
    } else {
      CountOfConcat(s, [y], x);
    }
  }

  lemma {:induction false} CountOfSort(s: seq<real>, x: real)
    ensures CountAtMost(Sort(s), x) == CountAtMost(s, x)
  {
    if s != [] {
      CountOfSort(s[..|s| - 1], x);
      CountOfInsert(Sort(s[..|s| - 1]), s[|s| - 1], x);
    }
  }

  lemma {:induction false} CountInAscending(s: seq<real>, k: nat, x: real)
    requires Ascending(s) && k < |s|
    ensures s[k] <= x <==> CountAtMost(s, x) >= k + 1
  {
    var front := s[..|s| - 1];
    if k < |s| - 1 {
      CountInAscending(front, k, x);
      if s[|s| - 1] <= x {
        assert s[k] <= x;
      }
    } else if s[k] <= x {
      AllCounted(s, x);
    }
  }

  lemma {:induction false} AllCounted(s: seq<real>, x: real)
    requires forall i :: 0 <= i < |s| ==> s[i] <= x
    ensures CountAtMost(s, x) == |s|
  {
    if s != [] {
      AllCounted(s[..|s| - 1], x);
    }
  }

  /** The k-th smallest value is at most x exactly when more than k values are. */
  lemma OrderStatisticIff(s: seq<real>, k: nat, x: real)
    requires k < |s|
    ensures Sort(s)[k] <= x <==> CountAtMost(s, x) >= k + 1
  {
    SortIsSorting(s);
    CountOfSort(s, x);
    CountInAscending(Sort(s), k, x);
  }

  predicate PointwiseAtMost(a: seq<real>, b: seq<real>) {
    |a| == |b| && forall i :: 0 <= i < |a| ==> a[i] <= b[i]
  }

  lemma {:induction false} CountIsAntitone(a: seq<real>, b: seq<real>, x: real)
    requires PointwiseAtMost(a, b)
    ensures CountAtMost(a, x) >= CountAtMost(b, x)
  {
    if a != [] {
      CountIsAntitone(a[..|a| - 1], b[..|b| - 1], x);
    }
  }

  /** Raising samples raises every order statistic. */
  lemma OrderStatisticIsMonotone(a: seq<real>, b: seq<real>, k: nat)
    requires PointwiseAtMost(a, b) && k < |a|
    ensures Sort(a)[k] <= Sort(b)[k]
  {
    var x := Sort(b)[k];
    OrderStatisticIff(b, k, x);
    CountIsAntitone(a, b, x);
    OrderStatisticIff(a, k, x);
  }

  lemma SameContents(a: seq<real>, b: seq<real>)
    requires multiset(a) == multiset(b)
    ensures |a| == |b|
    ensures forall x :: x in a ==> x in b
  {
    assert |multiset(a)| == |a| && |multiset(b)| == |b|;
    forall x | x in a ensures x in b {
      assert x in multiset(a);
    }
  }

  lemma DropSame(a: seq<real>, b: seq<real>)
    requires a != [] && b != [] && multiset(a) == multiset(b) && a[|a| - 1] == b[|b| - 1]
    ensures multiset(a[..|a| - 1]) == multiset(b[..|b| - 1])
  {
    assert a == a[..|a| - 1] + [a[|a| - 1]] && b == b[..|b| - 1] + [b[|b| - 1]];
    assert multiset(a[..|a| - 1]) == multiset(a) - multiset{a[|a| - 1]};
    assert multiset(b[..|b| - 1]) == multiset(b) - multiset{b[|b| - 1]};
  }

  /** Two ascending sequences with the same values are the same sequence. */
  lemma {:induction false} AscendingIsUnique(a: seq<real>, b: seq<real>)
    requires Ascending(a) && Ascending(b) && multiset(a) == multiset(b)
    ensures a == b
  {
    SameContents(a, b);
    SameContents(b, a);
    if a != [] {
      var n := |a| - 1;
      assert a[n] in b && b[n] in a;
      DropSame(a, b);
      AscendingIsUnique(a[..n], b[..n]);
      assert a == a[..n] + [a[n]] && b == b[..n] + [b[n]];
    }
  }

  lemma SortOfPermutation(a: seq<real>, b: seq<real>)
    requires multiset(a) == multiset(b)
    ensures Sort(a) == Sort(b)
  {
    SortIsSorting(a);
    SortIsSorting(b);
    AscendingIsUnique(Sort(a), Sort(b));
  }

  // ----- the two percentiles -----

  /** The index just below rank 0.95 (n - 1), the one above it, and how far between them the rank lies. */
  function Lower(n: nat): int {
    ((n - 1) as real * 0.95).Floor
  }

  function Upper(n: nat): int {
    if Lower(n) + 1 < n then Lower(n) + 1 else n - 1
  }

  function Fraction(n: nat): real {
    (n - 1) as real * 0.95 - Lower(n) as real
  }

  function Interpolate(a: real, b: real, t: real): real {
    a + (b - a) * t
  }

  function NearestIndex(n: nat): int {
    Ceil(0.95 * n as real) - 1
  }

  lemma RankFacts(n: nat)
    requires n > 0
    ensures 0 <= Lower(n) <= Upper(n) < n
    ensures Upper(n) <= Lower(n) + 1
    ensures 0.0 <= Fraction(n) < 1.0
    ensures 0 <= NearestIndex(n) < n
    ensures 20 * NearestIndex(n) < 19 * n <= 20 * (NearestIndex(n) + 1)
    ensures 20 * Lower(n) <= 19 * (n - 1) < 20 * (Lower(n) + 1)
    ensures Fraction(n) == 0.0 <==> 19 * (n - 1) == 20 * Lower(n)
  {
  }

  /** The interpolated p95 of the per-request evidence; None for no samples. */
  function Percentile95(values: seq<real>): Option<real> {
    var ordered := Sort(values);
    if ordered == [] then None
    else
      RankFacts(|ordered|);
      Some(Interpolate(ordered[Lower(|ordered|)], ordered[Upper(|ordered|)], Fraction(|ordered|)))
  }

  /** The nearest-rank p95 of the integration workloads; None for no samples. */
  function NearestRankP95(values: seq<real>): Option<real> {
    var ordered := Sort(values);
    if ordered == [] then None
    else
      RankFacts(|ordered|);
      Some(ordered[NearestIndex(|ordered|)])
  }

  lemma ProductNonNegative(a: real, b: real)
    requires a >= 0.0 && b >= 0.0
    ensures a * b >= 0.0
  {
  }

  lemma InterpolateIsBetween(a: real, b: real, t: real)
    requires a <= b && 0.0 <= t <= 1.0
    ensures a <= Interpolate(a, b, t) <= b
  {
    ProductNonNegative(b - a, t);
    ProductNonNegative(b - a, 1.0 - t);
    assert b - Interpolate(a, b, t) == (b - a) * (1.0 - t);
  }

  lemma InterpolateIsMonotone(a: real, b: real, c: real, d: real, t: real)
    requires a <= c && b <= d && 0.0 <= t <= 1.0
    ensures Interpolate(a, b, t) <= Interpolate(c, d, t)
  {
    ProductNonNegative(c - a, 1.0 - t);
    ProductNonNegative(d - b, t);
    assert Interpolate(c, d, t) - Interpolate(a, b, t) == (c - a) * (1.0 - t) + (d - b) * t;
  }

  lemma PercentileByParts(values: seq<real>)
    requires values != []
    ensures var n := |values|;
            && 0 <= Lower(n) <= Upper(n) < n && 0 <= NearestIndex(n) < n
            && Percentile95(values) == Some(Interpolate(Sort(values)[Lower(n)], Sort(values)[Upper(n)], Fraction(n)))
            && NearestRankP95(values) == Some(Sort(values)[NearestIndex(n)])
  {
    hide Interpolate, Lower, Upper, Fraction, NearestIndex;
    RankFacts(|values|);
  }

  /** The interpolated value lies between its two neighbouring order statistics. */
  lemma PercentileIsBetween(values: seq<real>)
    requires values != []
    ensures var n := |values|;
            && 0 <= Lower(n) <= Upper(n) < n
            && Percentile95(values).Some?
            && Sort(values)[Lower(n)] <= Percentile95(values).value <= Sort(values)[Upper(n)]
  {
    hide Interpolate, Lower, Upper, Fraction, NearestIndex, Percentile95, NearestRankP95;
    var n := |values|;
    RankFacts(n);
    SortIsSorting(values);
    PercentileByParts(values);
    InterpolateIsBetween(Sort(values)[Lower(n)], Sort(values)[Upper(n)], Fraction(n));
  }

  /** Neither percentile depends on the order of the samples. */
  lemma PercentilesIgnoreOrder(a: seq<real>, b: seq<real>)
    requires multiset(a) == multiset(b)
    ensures Percentile95(a) == Percentile95(b)
    ensures NearestRankP95(a) == NearestRankP95(b)
  {
    hide Interpolate, Lower, Upper, Fraction, NearestIndex;
    SortOfPermutation(a, b);
  }

  /** Slower requests never lower either percentile. */
  lemma PercentilesAreMonotone(a: seq<real>, b: seq<real>)
    requires a != [] && PointwiseAtMost(a, b)
    ensures Percentile95(a).Some? && Percentile95(b).Some? && Percentile95(a).value <= Percentile95(b).value
    ensures NearestRankP95(a).Some? && NearestRankP95(b).Some? && NearestRankP95(a).value <= NearestRankP95(b).value
  {
    hide Interpolate, Lower, Upper, Fraction, NearestIndex, Percentile95, NearestRankP95;
    var n := |a|;
    RankFacts(n);
    PercentileByParts(a);
    PercentileByParts(b);
    OrderStatisticIsMonotone(a, b, Lower(n));
    OrderStatisticIsMonotone(a, b, Upper(n));
    OrderStatisticIsMonotone(a, b, NearestIndex(n));
    InterpolateIsMonotone(Sort(a)[Lower(n)], Sort(a)[Upper(n)], Sort(b)[Lower(n)], Sort(b)[Upper(n)], Fraction(n));
  }

  /** The nearest-rank result is the least value that at least 95 percent of the samples do not exceed. */
  lemma NearestRankIsLeast(values: seq<real>, x: real)
    requires values != []
    ensures NearestRankP95(values).Some?
    ensures NearestRankP95(values).value <= x <==> 20 * CountAtMost(values, x) >= 19 * |values|
  {
    hide Interpolate, Lower, Upper, Fraction, NearestIndex, Percentile95, NearestRankP95;
    RankFacts(|values|);
    PercentileByParts(values);
    OrderStatisticIff(values, NearestIndex(|values|), x);
  }

  /** Unless 20 divides the sample count, the interpolated p95 never exceeds the nearest-rank p95. */
  lemma InterpolatedAtMostNearestRank(values: seq<real>)
    requires values != [] && |values| % 20 != 0
    ensures Percentile95(values).Some? && NearestRankP95(values).Some?
    ensures Percentile95(values).value <= NearestRankP95(values).value
  {
    hide Lower, Upper, Fraction, NearestIndex, Percentile95, NearestRankP95;
    var n := |values|;
    RankFacts(n);
    SortIsSorting(values);
    PercentileByParts(values);
    PercentileIsBetween(values);
    NotAMultiple(n, NearestIndex(n) + 1);
    if Lower(n) >= NearestIndex(n) {
      assert Fraction(n) == 0.0 && Lower(n) == NearestIndex(n);
    }
  }

  lemma NotAMultiple(n: nat, k: int)
    requires n % 20 != 0
    ensures 19 * n != 20 * k
  {
  }

  /** When 20 divides the count, the nearest rank is the lower neighbour, a twentieth below the interpolated rank. */
  lemma RanksAtMultiples(n: nat)
    requires n > 0 && n % 20 == 0
    ensures NearestIndex(n) == Lower(n) && Upper(n) == Lower(n) + 1 && Fraction(n) == 0.05
  {
    var m := n / 20;
    assert n == 20 * m && 0.95 * n as real == 19.0 * m as real;
    assert (n - 1) as real * 0.95 == 19.0 * m as real - 0.95;
    assert Lower(n) == 19 * m - 1;
  }

  /**
   When 20 divides it, the nearest-rank value is the lower of the two interpolated
   neighbours: never above the interpolated p95, and equal exactly when the two
   neighbours are equal.
   */
  lemma NearestRankAtMostInterpolated(values: seq<real>)
    requires values != [] && |values| % 20 == 0
    ensures Percentile95(values).Some? && NearestRankP95(values).Some?
    ensures NearestRankP95(values).value <= Percentile95(values).value
    ensures 0 <= Lower(|values|) < Lower(|values|) + 1 < |values|
    ensures Percentile95(values).value <= NearestRankP95(values).value <==>
            Sort(values)[Lower(|values|)] == Sort(values)[Lower(|values|) + 1]
  {
    hide Lower, Upper, Fraction, NearestIndex, Percentile95, NearestRankP95, Interpolate, Sort;
    var n := |values|;
    RanksAtMultiples(n);
    PercentileByParts(values);
    SortIsSorting(values);
    var sorted, k := Sort(values), Lower(n);
    InterpolateTwentieth(sorted[k], sorted[k + 1]);
  }

  lemma InterpolateTwentieth(a: real, b: real)
    requires a <= b
    ensures a <= Interpolate(a, b, 0.05)
    ensures Interpolate(a, b, 0.05) <= a <==> a == b
  {
  }

  /**
   On evenly spaced samples, in whatever order they came, the interpolated p95 is
   exactly the point 95 percent of the way from the least to the greatest.
   */
  lemma PercentileOfEvenlySpaced(values: seq<real>, a: real, d: real, rank: real)
    requires values != [] && forall k :: 0 <= k < |values| ==> Sort(values)[k] == a + d * k as real
    requires 100.0 * rank == 95.0 * (|values| - 1) as real
    ensures Percentile95(values) == Some(a + d * rank)
  {
    hide Lower, Upper, Fraction, NearestIndex, Percentile95, NearestRankP95, Sort, Interpolate;
    var n := |values|;
    RankFacts(n);
    PercentileByParts(values);
    UpperIsNext(n);
    SortIsSorting(values);
    var sorted, lower, upper := Sort(values), Lower(n), Upper(n);
    FractionIs(n, rank);
    InterpolateOnLine(a, d, lower, upper, Fraction(n), rank, sorted[lower], sorted[upper]);
  }

  lemma UpperIsNext(n: nat)
    requires n > 0
    ensures if n == 1 then Lower(n) == Upper(n) == 0 && Fraction(n) == 0.0 else Upper(n) == Lower(n) + 1
  {
  }

  lemma FractionIs(n: nat, rank: real)
    requires n > 0 && 100.0 * rank == 95.0 * (n - 1) as real
    ensures rank == Lower(n) as real + Fraction(n)
  {
  }

  lemma InterpolateOnLine(a: real, d: real, lower: int, upper: int, t: real, rank: real, x: real, y: real)
    requires upper == lower + 1 || (upper == lower && t == 0.0)
    requires rank == lower as real + t && x == a + d * lower as real && y == a + d * upper as real
    ensures Interpolate(x, y, t) == a + d * rank
  {
    assert upper == lower + 1 ==> y - x == d;
  }
}
