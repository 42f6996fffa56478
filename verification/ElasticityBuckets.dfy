/** The native minute buckets of a treatment window, and which series are accepted for them. */
module ElasticityBuckets {
  import opened Wrappers
  import opened OrderStatistics

  function FloorMinute(t: real): real {
    60.0 * ((t / 60.0).Floor as real)
  }

  function CeilMinute(t: real): real {
    60.0 * (Ceil(t / 60.0) as real)
  }

  /** Bucket starts from the floor of the window's start up to the ceiling of its end; None for an empty window. */
  function ExpectedBucketStarts(from: real, to: real): Option<seq<real>> {
    if to <= from then None
    else
      var first, count := (from / 60.0).Floor, Ceil(to / 60.0) - (from / 60.0).Floor;
      if count < 0 then None
      else Some(seq(count, k requires 0 <= k < count => 60.0 * ((first + k) as real)))
  }

  /** The bucket [60 q, 60 q + 60) shares an instant with the window [from, to). */
  predicate Meets(q: int, from: real, to: real) {
    60.0 * (q as real) < to && from < 60.0 * ((q + 1) as real)
  }

  lemma BucketRange(from: real, to: real)
    requires from < to
    ensures ExpectedBucketStarts(from, to).Some?
    ensures var starts := ExpectedBucketStarts(from, to).value;
            && |starts| == Ceil(to / 60.0) - (from / 60.0).Floor
            && starts != []
            && starts[0] == FloorMinute(from)
            && starts[|starts| - 1] == CeilMinute(to) - 60.0
            && forall k :: 0 <= k < |starts| ==> starts[k] == 60.0 * (((from / 60.0).Floor + k) as real)
  {
  }

  /** The list names exactly the buckets that meet the window, in order and a minute apart. */
  lemma BucketsMeetWindow(from: real, to: real, q: int)
    requires from < to
    ensures var starts := ExpectedBucketStarts(from, to).value;
            && (60.0 * (q as real) in starts <==> Meets(q, from, to))
            && (forall k :: 0 < k < |starts| ==> starts[k] == starts[k - 1] + 60.0)
  {
    BucketRange(from, to);
    var starts := ExpectedBucketStarts(from, to).value;
    var first := (from / 60.0).Floor;
    if Meets(q, from, to) {
      assert first <= q < Ceil(to / 60.0);
      assert starts[q - first] == 60.0 * (q as real);
    }
    if 60.0 * (q as real) in starts {
      var k :| 0 <= k < |starts| && starts[k] == 60.0 * (q as real);
      assert q == first + k;
    }
  }

  /** Every instant of the window lies in exactly one listed bucket. */
  lemma EveryInstantInOneBucket(from: real, to: real, x: real) returns (k: nat)
    requires from <= x < to
    ensures var starts := ExpectedBucketStarts(from, to).value;
            && k < |starts|
            && starts[k] <= x < starts[k] + 60.0
            && forall j :: 0 <= j < |starts| && starts[j] <= x < starts[j] + 60.0 ==> j == k
  {
    BucketRange(from, to);
    var first := (from / 60.0).Floor;
    var q := (x / 60.0).Floor;
    assert first <= q < Ceil(to / 60.0);
    k := q - first;
    var starts := ExpectedBucketStarts(from, to).value;
    forall j | 0 <= j < |starts| && starts[j] <= x < starts[j] + 60.0 ensures j == k {
      assert ((first + j) as real) <= x / 60.0 < ((first + j + 1) as real);
    }
  }

  /** The acceptance test of one published series. */
  predicate SeriesAccepted(complete: bool, timestamps: seq<real>, values: seq<real>, expected: seq<real>) {
    complete && |timestamps| == |values| && Sort(timestamps) == expected
  }

  /**
   A series is accepted exactly when it is complete and its timestamps are the
   expected buckets in some order: none missing, none extra, none twice.
   */
  lemma AcceptedIffPermutation(complete: bool, timestamps: seq<real>, values: seq<real>, from: real, to: real)
    requires from < to
    ensures var expected := ExpectedBucketStarts(from, to).value;
            SeriesAccepted(complete, timestamps, values, expected) <==>
            complete && |timestamps| == |values| && multiset(timestamps) == multiset(expected)
  {
    BucketRange(from, to);
    var expected := ExpectedBucketStarts(from, to).value;
    SortIsSorting(timestamps);
    if multiset(timestamps) == multiset(expected) {
      AscendingIsUnique(Sort(timestamps), expected);
    }
  }
}
