/**
 Timelines of samples and the "stably good" runs inside them.

 Six detectors of the repository look for a contiguous stretch of good samples,
 most of them with a bound on the sampling gap. They are written as forward scans,
 backward scans, polling loops and an object with two fields. This module gives
 the one declarative notion they are all measured against.
 */
module StableRuns {
  import opened Wrappers

  datatype Sample = Sample(at: real, good: bool)

  /** A bound on the time between neighbouring samples; None is "unbounded". */
  type GapLimit = Option<real>

  predicate GapAllowed(limit: GapLimit, gap: real) {
    limit.Some? ==> gap <= limit.value
  }

  predicate NonDecreasing(s: seq<Sample>) {
    forall i, j :: 0 <= i <= j < |s| ==> s[i].at <= s[j].at
  }

  /** Samples i..j (both included) are all good and closely spaced. */
  predicate Run(s: seq<Sample>, limit: GapLimit, i: nat, j: nat) {
    && i <= j < |s|
    && (forall k :: i <= k <= j ==> s[k].good)
    && (forall k :: i < k <= j ==> GapAllowed(limit, s[k].at - s[k - 1].at))
  }

  /** A run ending at j that no earlier start extends. */
  predicate MaximalRun(s: seq<Sample>, limit: GapLimit, i: nat, j: nat) {
    && Run(s, limit, i, j)
    && forall h: nat :: Run(s, limit, h, j) ==> i <= h
  }

  /** A run that lasts at least `window`. */
  predicate Confirms(s: seq<Sample>, limit: GapLimit, window: real, i: nat, j: nat) {
    Run(s, limit, i, j) && s[j].at - s[i].at >= window
  }

  /** Where the forward scan believes the run ending at j began. */
  function RunStart(s: seq<Sample>, limit: GapLimit, j: nat): Option<nat>
    requires j < |s|
  {
    if !s[j].good then None
    else if j > 0 && s[j - 1].good && GapAllowed(limit, s[j].at - s[j - 1].at)
    then RunStart(s, limit, j - 1)
    else Some(j)
  }

  /** Whether the scan confirms stability at sample j. */
  predicate Confirmed(s: seq<Sample>, limit: GapLimit, window: real, j: nat)
    requires j < |s|
  {
    var start := RunStart(s, limit, j);
    start.Some? && start.value <= j && s[j].at - s[start.value].at >= window
  }

  lemma {:induction false} RunStartIsRun(s: seq<Sample>, limit: GapLimit, j: nat)
    requires j < |s|
    ensures RunStart(s, limit, j).Some? <==> s[j].good
    ensures s[j].good ==> Run(s, limit, RunStart(s, limit, j).value, j)
  {
    if j > 0 && s[j].good && s[j - 1].good && GapAllowed(limit, s[j].at - s[j - 1].at) {
      RunStartIsRun(s, limit, j - 1);
    }
  }

  /** One step of the forward scan, from its belief at the previous sample. */
  lemma RunStartStep(s: seq<Sample>, limit: GapLimit, j: nat)
    requires j < |s|
    ensures RunStart(s, limit, j) ==
            if !s[j].good then None
            else if j > 0 && RunStart(s, limit, j - 1).Some? && GapAllowed(limit, s[j].at - s[j - 1].at)
            then RunStart(s, limit, j - 1)
            else Some(j)
    ensures RunStart(s, limit, j).Some? ==> RunStart(s, limit, j).value <= j
  {
    RunStartIsRun(s, limit, j);
    if j > 0 {
      RunStartIsRun(s, limit, j - 1);
    }
  }

  /** The scan's start is exactly the start of the maximal run. */
  lemma {:induction false} RunStartIsMaximal(s: seq<Sample>, limit: GapLimit, i: nat, j: nat)
    requires j < |s|
    ensures RunStart(s, limit, j) == Some(i) <==> MaximalRun(s, limit, i, j)
  {
    RunStartIsRun(s, limit, j);
    if s[j].good {
      forall h: nat | Run(s, limit, h, j)
        ensures RunStart(s, limit, j).value <= h
      {
        RunStartIsLeast(s, limit, h, j);
      }
    }
  }

  lemma {:induction false} RunStartIsLeast(s: seq<Sample>, limit: GapLimit, h: nat, j: nat)
    requires Run(s, limit, h, j)
    ensures RunStart(s, limit, j).Some? && RunStart(s, limit, j).value <= h
  {
    RunStartIsRun(s, limit, j);
    if h < j {
      assert s[j - 1].good && GapAllowed(limit, s[j].at - s[j - 1].at);
      RunStartIsLeast(s, limit, h, j - 1);
    }
  }

  /** Confirmation at j means exactly that some long enough run ends at j. */
  lemma ConfirmedIff(s: seq<Sample>, limit: GapLimit, window: real, j: nat)
    requires j < |s| && NonDecreasing(s)
    ensures Confirmed(s, limit, window, j) <==> exists i: nat :: Confirms(s, limit, window, i, j)
  {
    RunStartIsRun(s, limit, j);
    if Confirmed(s, limit, window, j) {
      assert Confirms(s, limit, window, RunStart(s, limit, j).value, j);
    }
    forall i: nat | Confirms(s, limit, window, i, j)
      ensures Confirmed(s, limit, window, j)
    {
      RunStartIsLeast(s, limit, i, j);
    }
  }

  /** Later samples do not change what the scan believed earlier. */
  lemma {:induction false} RunStartOfPrefix(s: seq<Sample>, t: seq<Sample>, limit: GapLimit, j: nat)
    requires j < |s| && s <= t
    ensures RunStart(s, limit, j) == RunStart(t, limit, j)
  {
    if j > 0 {
      RunStartOfPrefix(s, t, limit, j - 1);
    }
  }

  /** A closely sampled run has at least as many gaps as its span requires. */
  lemma {:induction false} SpanNeedsSamples(s: seq<Sample>, limit: real, i: nat, j: nat)
    requires Run(s, Some(limit), i, j)
    ensures s[j].at - s[i].at <= limit * ((j - i) as real)
  {
    if i < j {
      SpanNeedsSamples(s, limit, i, j - 1);
      assert GapAllowed(Some(limit), s[j].at - s[j - 1].at);
    }
  }

  // ----- the polling variant, which also discards the sample after a gap -----

  predicate AfterGap(s: seq<Sample>, limit: GapLimit, j: nat)
    requires j < |s|
  {
    j > 0 && !GapAllowed(limit, s[j].at - s[j - 1].at)
  }

  /** Where the polling loop believes the run ending at j began. */
  function PolledStart(s: seq<Sample>, limit: GapLimit, j: nat): Option<nat>
    requires j < |s|
  {
    if AfterGap(s, limit, j) || !s[j].good then None
    else if j > 0 && PolledStart(s, limit, j - 1).Some? then PolledStart(s, limit, j - 1)
    else Some(j)
  }

  predicate PollConfirmed(s: seq<Sample>, limit: GapLimit, window: real, j: nat)
    requires j < |s|
  {
    var start := PolledStart(s, limit, j);
    start.Some? && start.value <= j && s[j].at - s[start.value].at >= window
  }

  /** The two scans differ exactly on a run whose first sample follows a gap. */
  lemma {:induction false} PolledStartVersusRunStart(s: seq<Sample>, limit: GapLimit, j: nat)
    requires j < |s|
    ensures match RunStart(s, limit, j)
            case None => PolledStart(s, limit, j) == None
            case Some(i) =>
              && i <= j
              && PolledStart(s, limit, j) ==
                 if !AfterGap(s, limit, i) then Some(i)
                 else if i < j then Some(i + 1)
                 else None
  {
    if j > 0 {
      PolledStartVersusRunStart(s, limit, j - 1);
    }
    RunStartIsRun(s, limit, j);
  }

  lemma PolledStartIsRun(s: seq<Sample>, limit: GapLimit, j: nat)
    requires j < |s| && PolledStart(s, limit, j).Some?
    ensures Run(s, limit, PolledStart(s, limit, j).value, j)
    ensures !AfterGap(s, limit, PolledStart(s, limit, j).value)
  {
    PolledStartVersusRunStart(s, limit, j);
    RunStartIsRun(s, limit, j);
  }

  /** The polling loop confirms at j exactly when a long enough run that does not start right after a gap ends there. */
  lemma PollConfirmedIff(s: seq<Sample>, limit: GapLimit, window: real, j: nat)
    requires j < |s| && NonDecreasing(s)
    ensures PollConfirmed(s, limit, window, j) <==>
            exists i: nat :: Confirms(s, limit, window, i, j) && !AfterGap(s, limit, i)
  {
    PolledStartVersusRunStart(s, limit, j);
    if PollConfirmed(s, limit, window, j) {
      PolledStartIsRun(s, limit, j);
      assert Confirms(s, limit, window, PolledStart(s, limit, j).value, j);
    }
    if i: nat :| Confirms(s, limit, window, i, j) && !AfterGap(s, limit, i) {
      RunStartIsLeast(s, limit, i, j);
    }
  }
}
