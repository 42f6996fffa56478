/** Whether published native buckets cover a load window, with their recorded overlaps. */
module CloudWatchCoverage {
  import opened Wrappers

  const TOLERANCE := 0.001

  /** One published bucket: its start and the overlap with the load window it claims. */
  datatype Point = Point(start: real, overlap: real)

  datatype Series = Series(period: real, points: seq<Point>) {
    /** Unique, ordered starts and a positive period: the series validator. */
    predicate Valid() {
      && period > 0.0
      && forall i, j :: 0 <= i < j < |points| ==> points[i].start < points[j].start
    }
  }

  datatype LoadWindow = LoadWindow(start: real, end: real)

  function OverlapSeconds(from: real, to: real, w: LoadWindow): real {
    Max(0.0, Min(to, w.end) - Max(from, w.start))
  }

  function ClippedStart(p: Point, w: LoadWindow): real {
    Max(p.start, w.start)
  }

  function ClippedEnd(s: Series, p: Point, w: LoadWindow): real {
    Min(p.start + s.period, w.end)
  }

  /** How far the first n buckets reach. */
  function Cursor(s: Series, w: LoadWindow, n: nat): real
    requires n <= |s.points|
  {
    if n == 0 then w.start else Max(Cursor(s, w, n - 1), ClippedEnd(s, s.points[n - 1], w))
  }

  /** The ranges the scan has given up on after n buckets. */
  function GapsBefore(s: Series, w: LoadWindow, n: nat): seq<(real, real)>
    requires n <= |s.points|
  {
    if n == 0 then []
    else
      var p, cursor := s.points[n - 1], Cursor(s, w, n - 1);
      GapsBefore(s, w, n - 1) +
      if ClippedEnd(s, p, w) > cursor && ClippedStart(p, w) > cursor then [(cursor, ClippedStart(p, w))] else []
  }

  function Gaps(s: Series, w: LoadWindow): seq<(real, real)> {
    var cursor := Cursor(s, w, |s.points|);
    GapsBefore(s, w, |s.points|) + if cursor < w.end then [(cursor, w.end)] else []
  }

  /** Scan the buckets once, collecting the uncovered ranges. */
  method CoverageGaps(s: Series, w: LoadWindow) returns (gaps: seq<(real, real)>)
    ensures gaps == Gaps(s, w)
  {
    var cursor := w.start;
    gaps := [];
    for n := 0 to |s.points|
      invariant cursor == Cursor(s, w, n) && gaps == GapsBefore(s, w, n)
    {
      var start := Max(s.points[n].start, w.start);
      var end := Min(s.points[n].start + s.period, w.end);
      if end <= cursor {
        continue;
      }
      if start > cursor {
        gaps := gaps + [(cursor, start)];
      }
      cursor := Max(cursor, end);
    }
    if cursor < w.end {
      gaps := gaps + [(cursor, w.end)];
    }
  }

  // ----- what the gaps mean -----

  /** Instant x lies in one of the first n buckets. */
  predicate Covered(s: Series, n: nat, x: real) {
    n <= |s.points| && exists k :: 0 <= k < n && s.points[k].start <= x < s.points[k].start + s.period
  }

  predicate InGaps(gaps: seq<(real, real)>, x: real) {
    exists k :: 0 <= k < |gaps| && gaps[k].0 <= x < gaps[k].1
  }

  /** Nonempty ranges inside [low, high], in order and apart from each other. */
  predicate OrderedRanges(gaps: seq<(real, real)>, low: real, high: real) {
    && (forall k :: 0 <= k < |gaps| ==> low <= gaps[k].0 < gaps[k].1 <= high)
    && (forall i, j :: 0 <= i < j < |gaps| ==> gaps[i].1 < gaps[j].0)
  }

  /** Every bucket starts before the window ends, as every overlapping bucket does. */
  predicate StartsInside(s: Series, w: LoadWindow) {
    forall k :: 0 <= k < |s.points| ==> s.points[k].start < w.end
  }

  lemma {:induction false} CursorBounds(s: Series, w: LoadWindow, n: nat)
    requires n <= |s.points| && w.start < w.end
    ensures w.start <= Cursor(s, w, n) <= w.end
    ensures forall k :: 0 <= k < n ==> ClippedEnd(s, s.points[k], w) <= Cursor(s, w, n)
  {
    if n > 0 {
      CursorBounds(s, w, n - 1);
    }
  }

  lemma {:induction false} CursorIsReached(s: Series, w: LoadWindow, n: nat)
    requires n <= |s.points| && w.start < w.end && s.Valid()
    ensures Cursor(s, w, n) == w.start || exists k :: 0 <= k < n && ClippedEnd(s, s.points[k], w) == Cursor(s, w, n)
  {
    if n > 0 {
      CursorIsReached(s, w, n - 1);
    }
  }

  /** Nothing at or beyond the cursor is covered yet. */
  lemma UncoveredBeyondCursor(s: Series, w: LoadWindow, n: nat, x: real)
    requires n <= |s.points| && w.start < w.end
    requires Cursor(s, w, n) <= x < w.end
    ensures !Covered(s, n, x)
  {
    CursorBounds(s, w, n);
  }

  /** One more bucket: the range it leaves open, if any, and how far it reaches. */
  lemma NextBucket(s: Series, w: LoadWindow, n: nat)
    requires 0 < n <= |s.points|
    ensures var cursor, start, end := Cursor(s, w, n - 1), ClippedStart(s.points[n - 1], w), ClippedEnd(s, s.points[n - 1], w);
            && Cursor(s, w, n) == Max(cursor, end)
            && GapsBefore(s, w, n)
               == GapsBefore(s, w, n - 1) + if end > cursor && start > cursor then [(cursor, start)] else []
  {
  }

  lemma AppendRange(gaps: seq<(real, real)>, from: real, to: real, low: real, high: real)
    requires OrderedRanges(gaps, low, high) && low <= from < to <= high
    requires forall k :: 0 <= k < |gaps| ==> gaps[k].1 < from
    ensures OrderedRanges(gaps + [(from, to)], low, high)
  {
  }

  /** The gaps so far lie before the cursor and end where some scanned bucket starts. */
  lemma {:induction false} GapsBeforeShape(s: Series, w: LoadWindow, n: nat)
    requires n <= |s.points| && w.start < w.end && s.Valid() && StartsInside(s, w)
    ensures OrderedRanges(GapsBefore(s, w, n), w.start, w.end)
    ensures forall k :: 0 <= k < |GapsBefore(s, w, n)| ==>
              n > 0 && GapsBefore(s, w, n)[k].1 <= s.points[n - 1].start && GapsBefore(s, w, n)[k].1 < Cursor(s, w, n)
  {
    if n > 0 {
      GapsBeforeShape(s, w, n - 1);
      CursorBounds(s, w, n - 1);
      NextBucket(s, w, n);
      assert s.points[n - 1].start < w.end && (n > 1 ==> s.points[n - 2].start < s.points[n - 1].start);
      hide GapsBefore, Cursor, OrderedRanges, StartsInside, Series.Valid;
      var cursor, start := Cursor(s, w, n - 1), ClippedStart(s.points[n - 1], w);
      if ClippedEnd(s, s.points[n - 1], w) > cursor && start > cursor {
        AppendRange(GapsBefore(s, w, n - 1), cursor, start, w.start, w.end);
      } else {
        assert GapsBefore(s, w, n) == GapsBefore(s, w, n - 1);
      }
    }
  }

  lemma CoveredStep(s: Series, n: nat, x: real)
    requires 0 < n <= |s.points|
    ensures Covered(s, n, x) <==>
            Covered(s, n - 1, x) || s.points[n - 1].start <= x < s.points[n - 1].start + s.period
  {
  }

  lemma InGapsAppend(gaps: seq<(real, real)>, more: seq<(real, real)>, x: real)
    ensures InGaps(gaps + more, x) <==> InGaps(gaps, x) || InGaps(more, x)
  {
    if InGaps(gaps, x) {
      var k :| 0 <= k < |gaps| && gaps[k].0 <= x < gaps[k].1;
      assert (gaps + more)[k] == gaps[k];
    }
    if InGaps(more, x) {
      var k :| 0 <= k < |more| && more[k].0 <= x < more[k].1;
      assert (gaps + more)[|gaps| + k] == more[k];
    }
  }

  lemma InOneGap(from: real, to: real, x: real)
    ensures InGaps([(from, to)], x) <==> from <= x < to
    ensures !InGaps([], x)
  {
    assert [(from, to)][0] == (from, to);
  }

  /** An instant in a gap lies before the cursor and before every bucket still to come. */
  lemma GapsEndEarlier(s: Series, w: LoadWindow, n: nat, x: real)
    requires n <= |s.points| && w.start < w.end && s.Valid() && StartsInside(s, w)
    requires InGaps(GapsBefore(s, w, n), x)
    ensures x < Cursor(s, w, n) && (n < |s.points| ==> x < s.points[n].start)
  {
    GapsBeforeShape(s, w, n);
    hide GapsBefore, Cursor, OrderedRanges;
    var k :| 0 <= k < |GapsBefore(s, w, n)| && GapsBefore(s, w, n)[k].0 <= x < GapsBefore(s, w, n)[k].1;
  }

  /** Before the cursor, an instant is in a gap exactly when no scanned bucket covers it. */
  lemma {:induction false} GapsBeforeExact(s: Series, w: LoadWindow, n: nat, x: real)
    requires n <= |s.points| && w.start < w.end && s.Valid() && StartsInside(s, w)
    requires w.start <= x < Cursor(s, w, n)
    ensures InGaps(GapsBefore(s, w, n), x) <==> !Covered(s, n, x)
  {
    if n > 0 {
      NextBucket(s, w, n);
      CoveredStep(s, n, x);
      hide GapsBefore, Cursor, Covered, InGaps, StartsInside, Series.Valid;
      var cursor, start := Cursor(s, w, n - 1), ClippedStart(s.points[n - 1], w);
      var opens := ClippedEnd(s, s.points[n - 1], w) > cursor && start > cursor;
      InOneGap(cursor, start, x);
      InGapsAppend(GapsBefore(s, w, n - 1), if opens then [(cursor, start)] else [], x);
      if InGaps(GapsBefore(s, w, n - 1), x) {
        GapsEndEarlier(s, w, n - 1, x);
      }
      if x < cursor {
        GapsBeforeExact(s, w, n - 1, x);
      } else {
        CursorBounds(s, w, n - 1);
        UncoveredBeyondCursor(s, w, n - 1, x);
      }
    }
  }

  /** The gap list is the ordered, disjoint complement of the buckets in the window. */
  lemma GapsAreComplement(s: Series, w: LoadWindow, x: real)
    requires w.start < w.end && s.Valid() && StartsInside(s, w)
    ensures OrderedRanges(Gaps(s, w), w.start, w.end)
    ensures w.start <= x < w.end ==> (InGaps(Gaps(s, w), x) <==> !Covered(s, |s.points|, x))
  {
    var n := |s.points|;
    var cursor := Cursor(s, w, n);
    CursorBounds(s, w, n);
    GapsBeforeShape(s, w, n);
    hide GapsBefore, Cursor, OrderedRanges, InGaps, Covered, StartsInside, Series.Valid;
    if cursor < w.end {
      AppendRange(GapsBefore(s, w, n), cursor, w.end, w.start, w.end);
    } else {
      assert Gaps(s, w) == GapsBefore(s, w, n);
    }
    if w.start <= x < w.end {
      InOneGap(cursor, w.end, x);
      InGapsAppend(GapsBefore(s, w, n), if cursor < w.end then [(cursor, w.end)] else [], x);
      if x < cursor {
        GapsBeforeExact(s, w, n, x);
      } else {
        UncoveredBeyondCursor(s, w, n, x);
        if InGaps(GapsBefore(s, w, n), x) {
          GapsEndEarlier(s, w, n, x);
        }
      }
    }
  }

  // ----- the coverage check -----

  predicate InvalidOverlap(s: Series, w: LoadWindow, n: nat)
    requires n < |s.points|
  {
    var p := s.points[n];
    var expected := OverlapSeconds(p.start, p.start + s.period, w);
    expected <= 0.0 || Abs(p.overlap - expected) > TOLERANCE
  }

  predicate OverlapsEarlier(s: Series, w: LoadWindow, n: nat)
    requires n < |s.points|
  {
    var p := s.points[n];
    && ClippedEnd(s, p, w) > w.start
    && ClippedStart(p, w) < w.end
    && Cursor(s, w, n) - ClippedStart(p, w) > TOLERANCE
  }

  ghost predicate CompleteEvidence(s: Series, w: LoadWindow) {
    && (forall n: nat :: n < |s.points| ==> !InvalidOverlap(s, w, n))
    && (forall n: nat :: n < |s.points| ==> !OverlapsEarlier(s, w, n))
    && Gaps(s, w) == []
  }

  // ----- exactly which series are accepted -----

  /** The bucket meets the window, and the overlap it records is the length they share, to a millisecond. */
  predicate RecordsItsOverlap(s: Series, p: Point, w: LoadWindow) {
    && p.start < w.end && w.start < p.start + s.period
    && var shared := Min(p.start + s.period, w.end) - Max(p.start, w.start);
       shared - 0.001 <= p.overlap <= shared + 0.001
  }

  /** Buckets j and k share at most a millisecond of the window. */
  predicate Apart(s: Series, w: LoadWindow, j: nat, k: nat)
    requires j < k < |s.points|
  {
    Min(s.points[j].start + s.period, w.end) - Max(s.points[k].start, w.start) <= 0.001
  }

  ghost predicate CoversWindow(s: Series, w: LoadWindow) {
    forall x: real :: w.start <= x < w.end ==> Covered(s, |s.points|, x)
  }

  /** Evidence described on the endpoints alone. */
  ghost predicate FaithfulCoverage(s: Series, w: LoadWindow) {
    && (forall p <- s.points :: RecordsItsOverlap(s, p, w))
    && (forall j: nat, k: nat :: j < k < |s.points| ==> Apart(s, w, j, k))
    && CoversWindow(s, w)
  }

  lemma RecordedIff(s: Series, w: LoadWindow, n: nat)
    requires n < |s.points| && w.start < w.end && s.period > 0.0
    ensures RecordsItsOverlap(s, s.points[n], w) <==> !InvalidOverlap(s, w, n)
  {
  }

  lemma ApartIff(s: Series, w: LoadWindow, n: nat)
    requires n < |s.points| && w.start < w.end && s.Valid() && RecordsItsOverlap(s, s.points[n], w)
    ensures (forall j: nat :: j < n ==> Apart(s, w, j, n)) <==> !OverlapsEarlier(s, w, n)
  {
    CursorBounds(s, w, n);
    CursorIsReached(s, w, n);
    if OverlapsEarlier(s, w, n) {
      var j :| 0 <= j < n && ClippedEnd(s, s.points[j], w) == Cursor(s, w, n);
      assert !Apart(s, w, j, n);
    }
  }

  lemma NoGapsIff(s: Series, w: LoadWindow)
    requires w.start < w.end && s.Valid() && StartsInside(s, w)
    ensures Gaps(s, w) == [] <==> CoversWindow(s, w)
  {
    hide Gaps, Covered, StartsInside, Series.Valid;
    if Gaps(s, w) == [] {
      forall x: real | w.start <= x < w.end ensures Covered(s, |s.points|, x) {
        GapsAreComplement(s, w, x);
      }
    } else {
      var x := Gaps(s, w)[0].0;
      GapsAreComplement(s, w, x);
      assert InGaps(Gaps(s, w), x);
    }
  }

  /**
   A series is complete evidence exactly when every bucket meets the window and
   records its own share of it, no two buckets share more than a millisecond of the
   window, and every instant of the window lies in some bucket.
   */
  lemma CompleteEvidenceIff(s: Series, w: LoadWindow)
    requires w.start < w.end && s.Valid()
    ensures CompleteEvidence(s, w) <==> FaithfulCoverage(s, w)
  {
    forall n: nat | n < |s.points|
      ensures RecordsItsOverlap(s, s.points[n], w) <==> !InvalidOverlap(s, w, n)
      ensures RecordsItsOverlap(s, s.points[n], w) ==>
                ((forall j: nat :: j < n ==> Apart(s, w, j, n)) <==> !OverlapsEarlier(s, w, n))
    {
      RecordedIff(s, w, n);
      if RecordsItsOverlap(s, s.points[n], w) {
        ApartIff(s, w, n);
      }
    }
    if forall p <- s.points :: RecordsItsOverlap(s, p, w) {
      NoGapsIff(s, w);
    }
    hide Gaps, InvalidOverlap, OverlapsEarlier, Apart, CoversWindow, Series.Valid;
    assert (forall p <- s.points :: RecordsItsOverlap(s, p, w)) <==>
           (forall n: nat :: n < |s.points| ==> RecordsItsOverlap(s, s.points[n], w));
  }

  /** The first instant of bucket k and the buckets' common length, one after the other. */
  lemma {:induction false} AdjacentStart(s: Series, k: nat, n: nat)
    requires k <= n < |s.points| && s.period > 0.0
    requires forall i :: 0 <= i < |s.points| - 1 ==> s.points[i + 1].start == s.points[i].start + s.period
    ensures k < n ==> s.points[k].start + s.period <= s.points[n].start
  {
    if k < n {
      AdjacentStart(s, k, n - 1);
    }
  }

  lemma {:induction false} AdjacentCovers(s: Series, n: nat, x: real)
    requires n < |s.points| && s.period > 0.0
    requires forall i :: 0 <= i < |s.points| - 1 ==> s.points[i + 1].start == s.points[i].start + s.period
    requires s.points[0].start <= x < s.points[n].start + s.period
    ensures Covered(s, |s.points|, x)
  {
    if x < s.points[n].start {
      AdjacentCovers(s, n - 1, x);
    }
  }

  /** What the native metrics normally look like is accepted, whether or not the window starts on a bucket. */
  lemma AdjacentBucketsAreAccepted(s: Series, w: LoadWindow)
    requires w.start < w.end && s.period > 0.0 && s.points != []
    requires forall i :: 0 <= i < |s.points| - 1 ==> s.points[i + 1].start == s.points[i].start + s.period
    requires s.points[0].start <= w.start && w.end <= s.points[|s.points| - 1].start + s.period
    requires forall p <- s.points :: RecordsItsOverlap(s, p, w)
    ensures s.Valid() && CompleteEvidence(s, w)
  {
    forall j: nat, k: nat | j < k < |s.points|
      ensures Apart(s, w, j, k) && s.points[j].start < s.points[k].start
    {
      AdjacentStart(s, j, k);
    }
    forall x: real | w.start <= x < w.end ensures Covered(s, |s.points|, x) {
      AdjacentCovers(s, |s.points| - 1, x);
    }
    CompleteEvidenceIff(s, w);
  }

  /** The three kinds of problems found in one series, as bucket indices and ranges. */
  method SeriesProblems(s: Series, w: LoadWindow)
    returns (invalid: seq<nat>, overlapping: seq<nat>, gaps: seq<(real, real)>)
    ensures forall n: nat :: n in invalid <==> n < |s.points| && InvalidOverlap(s, w, n)
    ensures forall n: nat :: n in overlapping <==> n < |s.points| && OverlapsEarlier(s, w, n)
    ensures gaps == Gaps(s, w)
    ensures w.start < w.end && s.Valid() ==> ProblemsMean(s, w, invalid, overlapping, gaps)
  {
    hide ProblemsMean;
    var coverage := w.start;
    invalid, overlapping := [], [];
    for n := 0 to |s.points|
      invariant coverage == Cursor(s, w, n)
      invariant forall k: nat :: k in invalid <==> k < n && InvalidOverlap(s, w, k)
      invariant forall k: nat :: k in overlapping <==> k < n && OverlapsEarlier(s, w, k)
    {
      var p := s.points[n];
      var start, end := Max(p.start, w.start), Min(p.start + s.period, w.end);
      var expected := OverlapSeconds(p.start, p.start + s.period, w);
      if expected <= 0.0 || Abs(p.overlap - expected) > TOLERANCE {
        invalid := invalid + [n];
      }
      if end > w.start && start < w.end && coverage - start > TOLERANCE {
        overlapping := overlapping + [n];
      }
      coverage := Max(coverage, end);
    }
    gaps := CoverageGaps(s, w);
    if w.start < w.end && s.Valid() {
      ProblemsFound(s, w, invalid, overlapping, gaps);
    }
  }

  /**
   On the endpoints: invalid are the buckets that do not record their own share of the
   window; of the others, overlapping are those that share more than a millisecond of
   it with an earlier one; and there are gaps when something is left uncovered.
   */
  ghost predicate ProblemsMean(s: Series, w: LoadWindow, invalid: seq<nat>, overlapping: seq<nat>, gaps: seq<(real, real)>) {
    && (forall n: nat :: n < |s.points| ==> (n in invalid <==> !RecordsItsOverlap(s, s.points[n], w)))
    && (forall n: nat :: n < |s.points| && n !in invalid ==>
          (n in overlapping <==> !forall j: nat :: j < n ==> Apart(s, w, j, n)))
    && (invalid == [] ==> (gaps == [] <==> CoversWindow(s, w)))
  }

  lemma ProblemsFound(s: Series, w: LoadWindow, invalid: seq<nat>, overlapping: seq<nat>, gaps: seq<(real, real)>)
    requires w.start < w.end && s.Valid()
    requires forall n: nat :: n in invalid <==> n < |s.points| && InvalidOverlap(s, w, n)
    requires forall n: nat :: n in overlapping <==> n < |s.points| && OverlapsEarlier(s, w, n)
    requires gaps == Gaps(s, w)
    ensures ProblemsMean(s, w, invalid, overlapping, gaps)
  {
    forall n: nat | n < |s.points|
      ensures RecordsItsOverlap(s, s.points[n], w) <==> !InvalidOverlap(s, w, n)
      ensures RecordsItsOverlap(s, s.points[n], w) ==>
                ((forall j: nat :: j < n ==> Apart(s, w, j, n)) <==> !OverlapsEarlier(s, w, n))
    {
      RecordedIff(s, w, n);
      if RecordsItsOverlap(s, s.points[n], w) {
        ApartIff(s, w, n);
      }
    }
    if invalid == [] {
      forall n: nat | n < |s.points| ensures s.points[n].start < w.end {
        assert n !in invalid;
      }
      NoGapsIff(s, w);
    }
    hide Gaps, InvalidOverlap, OverlapsEarlier, Apart, CoversWindow, RecordsItsOverlap;
  }

  /** No error is reported exactly when every series is complete evidence. */
  method CoverageError(series: seq<Series>, w: LoadWindow) returns (acceptable: bool)
    ensures acceptable <==> forall s :: s in series ==> CompleteEvidence(s, w)
    ensures w.start < w.end && (forall s <- series :: s.Valid()) ==>
              (acceptable <==> forall s <- series :: FaithfulCoverage(s, w))
  {
    hide FaithfulCoverage, CompleteEvidence, Series.Valid;
    acceptable := true;
    for k := 0 to |series|
      invariant acceptable <==> forall i :: 0 <= i < k ==> CompleteEvidence(series[i], w)
    {
      var invalid, overlapping, gaps := SeriesProblems(series[k], w);
      if invalid != [] || overlapping != [] || gaps != [] {
        ProblemsMeanIncomplete(series[k], w, invalid, overlapping, gaps);
        acceptable := false;
      } else {
        NoProblemsMeanComplete(series[k], w, invalid, overlapping, gaps);
      }
    }
    if w.start < w.end && forall s <- series :: s.Valid() {
      forall s | s in series ensures CompleteEvidence(s, w) <==> FaithfulCoverage(s, w) {
        CompleteEvidenceIff(s, w);
      }
    }
  }

  lemma NoProblemsMeanComplete(s: Series, w: LoadWindow, invalid: seq<nat>, overlapping: seq<nat>, gaps: seq<(real, real)>)
    requires forall n: nat :: n in invalid <==> n < |s.points| && InvalidOverlap(s, w, n)
    requires forall n: nat :: n in overlapping <==> n < |s.points| && OverlapsEarlier(s, w, n)
    requires gaps == Gaps(s, w) && invalid == [] && overlapping == [] && gaps == []
    ensures CompleteEvidence(s, w)
  {
    forall n: nat | n < |s.points| ensures !InvalidOverlap(s, w, n) && !OverlapsEarlier(s, w, n) {
      assert n !in invalid && n !in overlapping;
    }
  }

  lemma ProblemsMeanIncomplete(s: Series, w: LoadWindow, invalid: seq<nat>, overlapping: seq<nat>, gaps: seq<(real, real)>)
    requires forall n: nat :: n in invalid <==> n < |s.points| && InvalidOverlap(s, w, n)
    requires forall n: nat :: n in overlapping <==> n < |s.points| && OverlapsEarlier(s, w, n)
    requires gaps == Gaps(s, w) && (invalid != [] || overlapping != [] || gaps != [])
    ensures !CompleteEvidence(s, w)
  {
    if invalid != [] {
      assert invalid[0] in invalid;
    } else if overlapping != [] {
      assert overlapping[0] in overlapping;
    }
  }

  function RecordedSum(s: Series, n: nat): real
    requires n <= |s.points|
  {
    if n == 0 then 0.0 else RecordedSum(s, n - 1) + s.points[n - 1].overlap
  }

  /** Without gaps every bucket starts at or before what is already covered. */
  lemma {:induction false} NoGapBefore(s: Series, w: LoadWindow, n: nat, k: nat)
    requires k < n <= |s.points| && GapsBefore(s, w, n) == []
    ensures ClippedEnd(s, s.points[k], w) <= Cursor(s, w, k) || ClippedStart(s.points[k], w) <= Cursor(s, w, k)
  {
    if k < n - 1 {
      NoGapBefore(s, w, n - 1, k);
    }
  }

  lemma {:induction false} RecordedSumTracksCursor(s: Series, w: LoadWindow, n: nat)
    requires n <= |s.points| && w.start < w.end && CompleteEvidence(s, w)
    ensures RecordedSum(s, n) >= Cursor(s, w, n) - w.start - n as real * TOLERANCE
    ensures n > 0 ==> RecordedSum(s, n) <= Cursor(s, w, n) - w.start + (2 * n - 1) as real * TOLERANCE
    ensures n == 0 ==> RecordedSum(s, n) == 0.0
  {
    if n > 0 {
      RecordedSumTracksCursor(s, w, n - 1);
      CursorBounds(s, w, n - 1);
      assert !InvalidOverlap(s, w, n - 1) && !OverlapsEarlier(s, w, n - 1);
      NoGapBefore(s, w, |s.points|, n - 1);
    }
  }

  /**
   When the check finds nothing to report, the recorded overlaps of the n buckets
   add up to the window: at most n milliseconds short, at most 2n - 1 too many.
   */
  lemma AcceptedOverlapsSumToWindow(s: Series, w: LoadWindow)
    requires w.start < w.end && CompleteEvidence(s, w)
    ensures var n, excess := |s.points|, RecordedSum(s, |s.points|) - (w.end - w.start);
            n > 0 && -(n as real) * TOLERANCE <= excess <= (2 * n - 1) as real * TOLERANCE
  {
    RecordedSumTracksCursor(s, w, |s.points|);
    CursorBounds(s, w, |s.points|);
    assert Gaps(s, w) == [];
  }
}
