/** Completeness of the per-request log, and its ten-second windows. */
module RequestTimings {
  import opened Wrappers
  import opened Grouping
  import opened OrderStatistics
  import opened Workload

  /** One timed request; `at` is seconds after load start. */
  datatype Timing = Timing(at: real, step: string, sequence: int, duration: real, status: int)

  function Expected(steps: seq<Step>): set<(string, int)> {
    set k, i | 0 <= k < |steps| && 0 <= i < steps[k].expected :: (steps[k].name, i)
  }

  function Observed(timings: seq<Timing>): set<(string, int)> {
    set t | t in timings :: (t.step, t.sequence)
  }

  /** The acceptance test: the right number of entries and the right set of pairs. */
  predicate TimingsComplete(timings: seq<Timing>, steps: seq<Step>) {
    |timings| == |Expected(steps)| && Observed(timings) == Expected(steps)
  }

  function Pairs(timings: seq<Timing>): (pairs: seq<(string, int)>)
    ensures |pairs| == |timings|
    ensures forall i :: 0 <= i < |timings| ==> pairs[i] == (timings[i].step, timings[i].sequence)
  {
    seq(|timings|, i requires 0 <= i < |timings| => (timings[i].step, timings[i].sequence))
  }

  /** Pigeonhole: a sequence is free of repetitions exactly when it has as many elements as entries. */
  lemma {:induction false} DistinctIffSize<T>(s: seq<T>)
    ensures |Elements(s)| <= |s|
    ensures |Elements(s)| == |s| <==> Distinct(s)
  {
    if s != [] {
      var front, last := s[..|s| - 1], s[|s| - 1];
      assert s == front + [last];
      DistinctIffSize(front);
      assert Elements(s) == Elements(front) + {last};
      if last in front {
        assert Elements(s) == Elements(front);
        assert !Distinct(s);
      } else {
        assert Distinct(s) <==> Distinct(front);
      }
    }
  }

  lemma ObservedIsElements(timings: seq<Timing>)
    ensures Observed(timings) == Elements(Pairs(timings))
  {
    forall x | x in Observed(timings) ensures x in Elements(Pairs(timings)) {
      var t :| t in timings && x == (t.step, t.sequence);
      var i :| 0 <= i < |timings| && timings[i] == t;
      assert Pairs(timings)[i] == x;
    }
    forall x | x in Elements(Pairs(timings)) ensures x in Observed(timings) {
      var i :| 0 <= i < |timings| && Pairs(timings)[i] == x;
      assert timings[i] in timings;
    }
  }

  /** Accepted exactly when each scheduled pair occurs once and nothing else occurs. */
  lemma CompleteMeansExactlyOnce(timings: seq<Timing>, steps: seq<Step>)
    ensures TimingsComplete(timings, steps) <==>
            && Distinct(Pairs(timings))
            && forall x :: x in Pairs(timings) <==> x in Expected(steps)
  {
    ObservedIsElements(timings);
    DistinctIffSize(Pairs(timings));
    assert forall x :: x in Pairs(timings) <==> x in Elements(Pairs(timings));
    if forall x :: x in Pairs(timings) <==> x in Expected(steps) {
      assert Elements(Pairs(timings)) == Expected(steps);
    }
  }

  // ----- ten-second windows -----

  datatype WindowSummary = WindowSummary(start: real, samples: nat, p95: Option<real>, errors: nat)

  function Bucket(t: Timing): real {
    10.0 * ((t.at / 10.0).Floor as real)
  }

  function Bucketed(timings: seq<Timing>): (pairs: seq<(real, Timing)>)
    ensures |pairs| == |timings|
    ensures forall i :: 0 <= i < |timings| ==> pairs[i] == (Bucket(timings[i]), timings[i])
  {
    seq(|timings|, i requires 0 <= i < |timings| => (Bucket(timings[i]), timings[i]))
  }

  function Durations(items: seq<Timing>): seq<real> {
    seq(|items|, i requires 0 <= i < |items| => items[i].duration)
  }

  function Errors(items: seq<Timing>): (n: nat)
    ensures n <= |items|
  {
    if items == [] then 0
    else Errors(items[..|items| - 1]) + if items[|items| - 1].status != 201 then 1 else 0
  }

  function Summary(start: real, items: seq<Timing>): WindowSummary {
    WindowSummary(start, |items|, Percentile95(Durations(items)), Errors(items))
  }

  function SampleSum(windows: seq<WindowSummary>): nat {
    if windows == [] then 0 else SampleSum(windows[..|windows| - 1]) + windows[|windows| - 1].samples
  }

  function ErrorSum(windows: seq<WindowSummary>): nat {
    if windows == [] then 0 else ErrorSum(windows[..|windows| - 1]) + windows[|windows| - 1].errors
  }

  /** One summary per occupied bucket, in ascending order. */
  ghost predicate Summarizes(windows: seq<WindowSummary>, timings: seq<Timing>) {
    && |windows| == |Keys(Bucketed(timings))|
    && forall k :: 0 <= k < |windows| ==>
         var start := Sort(Keys(Bucketed(timings)))[k];
         windows[k] == Summary(start, Values(Bucketed(timings), start))
  }

  /** Group by bucket and summarize the buckets in ascending order. */
  method TimingWindows(timings: seq<Timing>) returns (windows: seq<WindowSummary>)
    ensures Summarizes(windows, timings)
    ensures SampleSum(windows) == |timings| && ErrorSum(windows) == Errors(timings)
    ensures forall i, j :: 0 <= i < j < |windows| ==> windows[i].start < windows[j].start
    ensures forall k :: 0 <= k < |windows| ==> Describes(windows[k], timings)
    ensures forall t <- timings :: exists k :: 0 <= k < |windows| && windows[k].start <= t.at < windows[k].start + 10.0
  {
    hide Sort, Summary, Percentile95, Keys, Values, SampleSum, ErrorSum, Errors, Describes;
    var order, groups := GroupBy(Bucketed(timings));
    var sorted := Sort(order);
    windows := [];
    for n := 0 to |sorted|
      invariant |windows| == n
      invariant forall k :: 0 <= k < n ==> windows[k] == Summary(sorted[k], Values(Bucketed(timings), sorted[k]))
    {
      SortHasSameElements(order, sorted[n]);
      windows := windows + [Summary(sorted[n], groups[sorted[n]])];
    }
    WindowsConserveCounts(windows, timings);
    WindowsDescribe(windows, timings);
  }

  // ----- what a window says about its ten seconds -----

  /** The timings taken in the ten seconds from this second on. */
  function Within(timings: seq<Timing>, from: real): seq<Timing> {
    if timings == [] then []
    else
      var front, last := timings[..|timings| - 1], timings[|timings| - 1];
      Within(front, from) + if from <= last.at && last.at < from + 10.0 then [last] else []
  }

  /** The positions of the requests that were not answered with 201. */
  function NotCreated(items: seq<Timing>): set<int> {
    set i | 0 <= i < |items| && items[i].status != 201
  }

  /** The window starts at a multiple of ten seconds and summarizes exactly the requests of its ten seconds. */
  ghost predicate Describes(w: WindowSummary, timings: seq<Timing>) {
    var items := Within(timings, w.start);
    && w.start == 10.0 * ((w.start / 10.0).Floor as real)
    && items != [] && w.samples == |items|
    && w.errors == |NotCreated(items)|
    && exists durations: seq<real> ::
         && |durations| == |items| && (forall i :: 0 <= i < |items| ==> durations[i] == items[i].duration)
         && w.p95 == Percentile95(durations)
  }

  lemma BucketIff(t: Timing, m: int)
    ensures Bucket(t) == 10.0 * m as real <==> 10.0 * m as real <= t.at < 10.0 * m as real + 10.0
  {
    FloorIff(t.at / 10.0, m);
    assert t.at == 10.0 * (t.at / 10.0);
  }

  lemma FloorIff(x: real, m: int)
    ensures x.Floor == m <==> m as real <= x < m as real + 1.0
  {
  }

  lemma {:induction false} ValuesAreWithin(timings: seq<Timing>, m: int)
    ensures Values(Bucketed(timings), 10.0 * m as real) == Within(timings, 10.0 * m as real)
  {
    if timings != [] {
      var front, last := timings[..|timings| - 1], timings[|timings| - 1];
      ValuesAreWithin(front, m);
      BucketIff(last, m);
      assert Bucketed(timings)[..|timings| - 1] == Bucketed(front);
    }
  }

  lemma {:induction false} ErrorsAreNotCreated(items: seq<Timing>)
    ensures Errors(items) == |NotCreated(items)|
  {
    if items != [] {
      var n := |items| - 1;
      ErrorsAreNotCreated(items[..n]);
      assert NotCreated(items) == NotCreated(items[..n]) + if items[n].status != 201 then {n} else {};
    }
  }

  lemma StartIsMultiple(timings: seq<Timing>, start: real) returns (m: int)
    requires start in Keys(Bucketed(timings))
    ensures start == 10.0 * m as real && (start / 10.0).Floor == m && Within(timings, start) != []
  {
    KeyHasValues(Bucketed(timings), start);
    var i := KeyIsUsed(Bucketed(timings), start);
    m := (timings[i].at / 10.0).Floor;
    ValuesAreWithin(timings, m);
    FloorIff(start / 10.0, m);
  }

  lemma {:induction false} KeyIsUsed<K, V>(pairs: seq<(K, V)>, k: K) returns (i: nat)
    requires k in Keys(pairs)
    ensures i < |pairs| && pairs[i].0 == k
  {
    var n := |pairs| - 1;
    if pairs[n].0 == k {
      i := n;
    } else {
      i := KeyIsUsed(pairs[..n], k);
    }
  }

  lemma SummaryDescribes(timings: seq<Timing>, start: real)
    requires start in Keys(Bucketed(timings))
    ensures Describes(Summary(start, Values(Bucketed(timings), start)), timings)
  {
    hide Percentile95, Bucketed, Keys, Values, Within, Errors;
    var m := StartIsMultiple(timings, start);
    ValuesAreWithin(timings, m);
    var items := Within(timings, start);
    ErrorsAreNotCreated(items);
    assert |Durations(items)| == |items|;
  }

  /** Every request lies in one of the listed windows, and each window describes its own ten seconds. */
  lemma WindowsDescribe(windows: seq<WindowSummary>, timings: seq<Timing>)
    requires Summarizes(windows, timings)
    ensures forall k :: 0 <= k < |windows| ==> Describes(windows[k], timings)
    ensures forall t <- timings :: exists k :: 0 <= k < |windows| && windows[k].start <= t.at < windows[k].start + 10.0
  {
    hide Sort, Summary, Keys, Values, Describes, Bucket;
    var starts := Sort(Keys(Bucketed(timings)));
    SortIsSorting(Keys(Bucketed(timings)));
    forall k | 0 <= k < |windows| ensures Describes(windows[k], timings) && windows[k].start == starts[k] {
      SortHasSameElements(Keys(Bucketed(timings)), starts[k]);
      SummaryDescribes(timings, starts[k]);
      SummaryStarts(starts[k], Values(Bucketed(timings), starts[k]));
    }
    forall t | t in timings
      ensures exists k :: 0 <= k < |windows| && windows[k].start <= t.at < windows[k].start + 10.0
    {
      var i :| 0 <= i < |timings| && timings[i] == t;
      BucketIsListed(timings, i);
      var k :| 0 <= k < |starts| && starts[k] == Bucket(t);
      BucketHolds(t);
      assert windows[k].start == starts[k];
    }
  }

  lemma SummaryStarts(start: real, items: seq<Timing>)
    ensures Summary(start, items).start == start
  {
  }

  lemma BucketHolds(t: Timing)
    ensures Bucket(t) <= t.at < Bucket(t) + 10.0
  {
    BucketIff(t, (t.at / 10.0).Floor);
  }

  lemma BucketIsListed(timings: seq<Timing>, i: nat)
    requires i < |timings|
    ensures Bucket(timings[i]) in Sort(Keys(Bucketed(timings)))
  {
    hide Sort;
    SortHasSameElements(Keys(Bucketed(timings)), Bucket(timings[i]));
    KeysAreDistinct(Bucketed(timings));
    assert Bucketed(timings)[i] in Bucketed(timings);
  }

  lemma SortHasSameElements(s: seq<real>, x: real)
    ensures x in Sort(s) <==> x in s
  {
    SortIsSorting(s);
    assert x in multiset(Sort(s)) <==> x in multiset(s);
  }

  lemma {:induction false} DistinctFromMultiset(s: seq<real>)
    requires Distinct(s)
    ensures forall x :: multiset(s)[x] <= 1
  {
    if s != [] {
      var front, last := s[..|s| - 1], s[|s| - 1];
      assert s == front + [last];
      DistinctFromMultiset(front);
      assert last !in front;
    }
  }

  lemma RepeatedIsCounted(s: seq<real>, i: nat, j: nat)
    requires i < j < |s| && s[i] == s[j]
    ensures multiset(s)[s[i]] >= 2
  {
    assert s == s[..j] + [s[j]] + s[j + 1..];
    assert s[i] in s[..j];
    assert s[i] in multiset(s[..j]);
  }

  /** Buckets are strictly increasing: sorted, and never repeated. */
  lemma WindowsStrictlyIncrease(timings: seq<Timing>)
    ensures var starts := Sort(Keys(Bucketed(timings)));
            Distinct(starts) && forall i, j :: 0 <= i < j < |starts| ==> starts[i] < starts[j]
  {
    var keys := Keys(Bucketed(timings));
    var starts := Sort(keys);
    SortIsSorting(keys);
    KeysAreDistinct(Bucketed(timings));
    DistinctFromMultiset(keys);
    forall i, j | 0 <= i < j < |starts| ensures starts[i] < starts[j] {
      if starts[i] == starts[j] {
        RepeatedIsCounted(starts, i, j);
      }
    }
  }

  function ErrorTotal(pairs: seq<(real, Timing)>, keys: seq<real>): nat {
    if keys == [] then 0
    else ErrorTotal(pairs, keys[..|keys| - 1]) + Errors(Values(pairs, keys[|keys| - 1]))
  }

  lemma ErrorsOfAppend(front: seq<(real, Timing)>, p: (real, Timing), k: real)
    ensures Errors(Values(front + [p], k)) == Errors(Values(front, k)) + if p.0 == k && p.1.status != 201 then 1 else 0
  {
    assert (front + [p])[..|front|] == front;
    var before := Values(front, k);
    if p.0 == k {
      assert (before + [p.1])[..|before|] == before;
    } else {
      assert Values(front + [p], k) == before;
    }
  }

  lemma {:induction false} ErrorTotalOfAppend(front: seq<(real, Timing)>, p: (real, Timing), keys: seq<real>)
    requires Distinct(keys)
    ensures ErrorTotal(front + [p], keys) == ErrorTotal(front, keys) + if p.0 in keys && p.1.status != 201 then 1 else 0
  {
    hide Errors, Values;
    if keys != [] {
      var n := |keys| - 1;
      ErrorTotalOfAppend(front, p, keys[..n]);
      ErrorsOfAppend(front, p, keys[n]);
      assert keys == keys[..n] + [keys[n]];
    }
  }

  lemma {:induction false} ErrorTotalOfNothing(pairs: seq<(real, Timing)>, keys: seq<real>)
    requires pairs == []
    ensures ErrorTotal(pairs, keys) == 0
  {
    if keys != [] {
      ErrorTotalOfNothing(pairs, keys[..|keys| - 1]);
    }
  }

  lemma {:induction false} ErrorTotalIsEverything(timings: seq<Timing>, keys: seq<real>)
    requires Distinct(keys) && forall t :: t in timings ==> Bucket(t) in keys
    ensures ErrorTotal(Bucketed(timings), keys) == Errors(timings)
  {
    if timings == [] {
      ErrorTotalOfNothing(Bucketed(timings), keys);
    } else {
      var front, last := timings[..|timings| - 1], timings[|timings| - 1];
      assert timings == front + [last];
      assert Bucketed(timings) == Bucketed(front) + [(Bucket(last), last)];
      ErrorTotalIsEverything(front, keys);
      ErrorTotalOfAppend(Bucketed(front), (Bucket(last), last), keys);
    }
  }

  lemma BucketsConserveCounts(timings: seq<Timing>)
    ensures var starts := Sort(Keys(Bucketed(timings)));
            && Total(Bucketed(timings), starts) == |timings|
            && ErrorTotal(Bucketed(timings), starts) == Errors(timings)
  {
    var pairs := Bucketed(timings);
    var starts := Sort(Keys(pairs));
    WindowsStrictlyIncrease(timings);
    KeysAreDistinct(pairs);
    forall p | p in pairs ensures p.0 in starts {
      SortHasSameElements(Keys(pairs), p.0);
    }
    forall t | t in timings ensures Bucket(t) in starts {
      var i :| 0 <= i < |timings| && timings[i] == t;
      assert pairs[i] in pairs;
    }
    TotalIsEverything(pairs, starts);
    ErrorTotalIsEverything(timings, starts);
  }

  lemma {:induction false} SumsAreTotals(windows: seq<WindowSummary>, pairs: seq<(real, Timing)>, starts: seq<real>)
    requires |windows| == |starts|
    requires forall k :: 0 <= k < |windows| ==> windows[k] == Summary(starts[k], Values(pairs, starts[k]))
    ensures SampleSum(windows) == Total(pairs, starts) && ErrorSum(windows) == ErrorTotal(pairs, starts)
  {
    hide Percentile95, Durations, Values;
    if windows != [] {
      var n := |windows| - 1;
      SumsAreTotals(windows[..n], pairs, starts[..n]);
      assert windows[n] == Summary(starts[n], Values(pairs, starts[n]));
    }
  }

  /**
   Conservation: the sample and error counts of the returned windows add up to those
   of the log, and no two windows describe the same ten seconds.
   */
  lemma WindowsConserveCounts(windows: seq<WindowSummary>, timings: seq<Timing>)
    requires Summarizes(windows, timings)
    ensures SampleSum(windows) == |timings| && ErrorSum(windows) == Errors(timings)
    ensures forall i, j :: 0 <= i < j < |windows| ==> windows[i].start < windows[j].start
  {
    var starts := Sort(Keys(Bucketed(timings)));
    hide Sort, Percentile95, Keys, Values;
    BucketsConserveCounts(timings);
    SumsAreTotals(windows, Bucketed(timings), starts);
    WindowsStrictlyIncrease(timings);
    forall k | 0 <= k < |windows| ensures windows[k].start == starts[k] {
      assert windows[k] == Summary(starts[k], Values(Bucketed(timings), starts[k]));
    }
  }
}
