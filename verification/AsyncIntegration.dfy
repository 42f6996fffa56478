/** The online drain poll of one integration workload, and how it relates to the offline scan. */
module AsyncIntegration {
  import opened Wrappers
  import opened StableRuns
  import opened AsyncGuardrails

  datatype Definition = Definition(interval: real, timeout: real, guardrails: Guardrails) {
    /** The clauses of the validator that concern the poll. */
    predicate Valid() {
      && guardrails.Valid()
      && 0.0 < interval <= 20.0
      && 0.0 < timeout
      && timeout >= guardrails.drainDeadline + guardrails.stability + guardrails.maxGap
    }
  }

  datatype PollOutcome =
    | StableDrain(stableSince: real)  // the loop breaks
    | TimedOut                        // the loop raises
    | Unfinished                      // the supplied observations ran out first

  ghost predicate PollStopsAt(feed: seq<Observation>, d: Definition, n: nat)
    requires n < |feed|
  {
    || PollConfirmed(Samples(feed), Some(d.guardrails.maxGap), d.guardrails.stability, n)
    || feed[n].seconds >= d.timeout
  }

  /** What the poll must answer: the first stopping sample decides. */
  ghost predicate PollAnswer(feed: seq<Observation>, d: Definition, observed: seq<Observation>, outcome: PollOutcome) {
    var s := Samples(feed);
    var limit := Some(d.guardrails.maxGap);
    && observed <= feed
    && (forall k: nat :: k + 1 < |observed| ==> !PollStopsAt(feed, d, k))
    && match outcome
       case StableDrain(since) =>
         && observed != []
         && PollConfirmed(s, limit, d.guardrails.stability, |observed| - 1)
         && since == feed[PolledStart(s, limit, |observed| - 1).value].seconds
       case TimedOut =>
         && observed != []
         && !PollConfirmed(s, limit, d.guardrails.stability, |observed| - 1)
         && feed[|observed| - 1].seconds >= d.timeout
       case Unfinished =>
         observed == feed && (observed != [] ==> !PollStopsAt(feed, d, |observed| - 1))
  }

  /** Observe, reset on a gap or undrained work, stop on stability or timeout. */
  method PollForDrain(feed: seq<Observation>, d: Definition)
    returns (observations: seq<Observation>, outcome: PollOutcome)
    ensures PollAnswer(feed, d, observations, outcome)
  {
    ghost var s := Samples(feed);
    ghost var limit := Some(d.guardrails.maxGap);
    observations := [];
    var stableSince: Option<real> := None;
    var previousElapsed: Option<real> := None;
    for n := 0 to |feed|
      invariant observations == feed[..n]
      invariant previousElapsed == if n == 0 then None else Some(feed[n - 1].seconds)
      invariant n == 0 ==> stableSince == None
      invariant n > 0 ==> match PolledStart(s, limit, n - 1)
                          case None => stableSince == None
                          case Some(i) => i < n && stableSince == Some(feed[i].seconds)
      invariant forall k: nat :: k < n ==> !PollStopsAt(feed, d, k)
    {
      var elapsed := feed[n].seconds;
      observations := observations + [feed[n]];
      var gapTooLarge := previousElapsed.Some? && elapsed - previousElapsed.value > d.guardrails.maxGap;
      previousElapsed := Some(elapsed);
      if gapTooLarge || !feed[n].Drained() {
        stableSince := None;
      } else if stableSince == None {
        stableSince := Some(elapsed);
      }
      if stableSince.Some? && elapsed - stableSince.value >= d.guardrails.stability {
        return observations, StableDrain(stableSince.value);
      }
      if elapsed >= d.timeout {
        return observations, TimedOut;
      }
    }
    outcome := Unfinished;
  }

  lemma {:induction false} PolledStartOfPrefix(s: seq<Sample>, t: seq<Sample>, limit: GapLimit, j: nat)
    requires j < |s| && s <= t
    ensures PolledStart(s, limit, j) == PolledStart(t, limit, j)
  {
    if j > 0 {
      PolledStartOfPrefix(s, t, limit, j - 1);
    }
  }

  /**
   Whenever the poll breaks, the offline scan of exactly the observations it kept
   finds a window, and that window starts no later than the poll's own start.
   */
  lemma OnlineImpliesOffline(feed: seq<Observation>, d: Definition, observed: seq<Observation>, since: real)
    requires IncreasingSeconds(feed)
    requires PollAnswer(feed, d, observed, StableDrain(since))
    ensures IncreasingSeconds(observed)
    ensures exists i: nat, j: nat :: Confirms(Samples(observed), Some(d.guardrails.maxGap), d.guardrails.stability, i, j)
    ensures forall i: nat, j: nat ::
              FirstConfirmation(observed, d.guardrails, i, j) ==> observed[i].seconds <= since
  {
    var s, t, limit := Samples(feed), Samples(observed), Some(d.guardrails.maxGap);
    var n := |observed| - 1;
    assert t <= s;
    PolledStartOfPrefix(t, s, limit, n);
    PolledStartIsRun(t, limit, n);
    var start := PolledStart(t, limit, n).value;
    assert Confirms(t, limit, d.guardrails.stability, start, n);
    forall i: nat, j: nat | FirstConfirmation(observed, d.guardrails, i, j)
      ensures observed[i].seconds <= since
    {
      if start < i {
        assert Run(t, limit, start, j);
      }
    }
  }

  /** Some run spans the window without starting right after a gap. */
  ghost predicate WindowWithoutGap(s: seq<Sample>, limit: GapLimit, window: real) {
    exists i: nat, j: nat :: Confirms(s, limit, window, i, j) && !AfterGap(s, limit, i)
  }

  /** Some run spans the window, and every such run starts right after a gap. */
  ghost predicate OnlyWindowsAfterGaps(s: seq<Sample>, limit: GapLimit, window: real) {
    && (exists i: nat, j: nat :: Confirms(s, limit, window, i, j))
    && (forall i: nat, j: nat :: Confirms(s, limit, window, i, j) ==> AfterGap(s, limit, i))
  }

  /** The poll breaks at the first sample that confirms. */
  lemma ConfirmedMeansStable(feed: seq<Observation>, d: Definition, observed: seq<Observation>, outcome: PollOutcome, j: nat)
    requires PollAnswer(feed, d, observed, outcome) && j < |observed|
    requires PollConfirmed(Samples(feed), Some(d.guardrails.maxGap), d.guardrails.stability, j)
    ensures outcome.StableDrain?
  {
    hide PollConfirmed;
    assert j < |observed| - 1 ==> !PollStopsAt(feed, d, j);
  }

  lemma PollConfirmedOfPrefix(s: seq<Sample>, t: seq<Sample>, limit: GapLimit, window: real, j: nat)
    requires j < |s| && s <= t
    ensures PollConfirmed(s, limit, window, j) <==> PollConfirmed(t, limit, window, j)
  {
    PolledStartOfPrefix(s, t, limit, j);
  }

  /** Whether the poll breaks is decided by the runs in the observations it kept. */
  lemma StableDrainIff(feed: seq<Observation>, d: Definition, observed: seq<Observation>, outcome: PollOutcome)
    requires IncreasingSeconds(feed) && PollAnswer(feed, d, observed, outcome)
    ensures outcome.StableDrain? <==>
            WindowWithoutGap(Samples(observed), Some(d.guardrails.maxGap), d.guardrails.stability)
  {
    var s, t, limit, window := Samples(feed), Samples(observed), Some(d.guardrails.maxGap), d.guardrails.stability;
    assert t <= s && NonDecreasing(t);
    var n := |observed| - 1;
    assert outcome.StableDrain? ==> n >= 0 && PollConfirmed(s, limit, window, n);
    hide PollConfirmed, PollAnswer, AfterGap, Confirms;
    if outcome.StableDrain? {
      PollConfirmedOfPrefix(t, s, limit, window, n);
      PollConfirmedIff(t, limit, window, n);
    }
    if i: nat, j: nat :| Confirms(t, limit, window, i, j) && !AfterGap(t, limit, i) {
      ConfirmsInside(t, limit, window, i, j);
      PollConfirmedIff(t, limit, window, j);
      PollConfirmedOfPrefix(t, s, limit, window, j);
      ConfirmedMeansStable(feed, d, observed, outcome, j);
    }
  }

  lemma ConfirmsInside(s: seq<Sample>, limit: GapLimit, window: real, i: nat, j: nat)
    requires Confirms(s, limit, window, i, j)
    ensures i <= j < |s|
  {
  }

  /**
   How the poll ends: it times out exactly when the last sample it kept is at or past
   the timeout without such a run; every sample before the last came earlier.
   */
  lemma PollEndsIff(feed: seq<Observation>, d: Definition, observed: seq<Observation>, outcome: PollOutcome)
    requires IncreasingSeconds(feed) && PollAnswer(feed, d, observed, outcome)
    ensures forall k :: 0 <= k < |observed| - 1 ==> observed[k].seconds < d.timeout
    ensures outcome == TimedOut <==>
            && observed != [] && observed[|observed| - 1].seconds >= d.timeout
            && !WindowWithoutGap(Samples(observed), Some(d.guardrails.maxGap), d.guardrails.stability)
    ensures outcome == Unfinished ==> observed == feed
  {
    StableDrainIff(feed, d, observed, outcome);
    hide PollConfirmed, WindowWithoutGap;
    forall k: nat | k < |observed| - 1 ensures observed[k].seconds < d.timeout {
      assert !PollStopsAt(feed, d, k);
    }
  }

  /**
   The offline scan accepts what the poll kept although the poll never broke exactly
   when some run spans the window and every such run starts right after a gap.
   */
  lemma DetectorsDisagreeIff(feed: seq<Observation>, d: Definition, observed: seq<Observation>, outcome: PollOutcome,
                             window: Option<(real, real)>)
    requires IncreasingSeconds(feed) && PollAnswer(feed, d, observed, outcome)
    requires DrainAnswer(observed, d.guardrails, window)
    ensures window.Some? && !outcome.StableDrain? <==>
            OnlyWindowsAfterGaps(Samples(observed), Some(d.guardrails.maxGap), d.guardrails.stability)
    ensures outcome.StableDrain? ==> window.Some?
  {
    var s, limit := Samples(observed), Some(d.guardrails.maxGap);
    StableDrainIff(feed, d, observed, outcome);
    if window.Some? {
      var i: nat, j: nat :| FirstConfirmation(observed, d.guardrails, i, j);
      assert Confirms(s, limit, d.guardrails.stability, i, j);
    }
  }

  /** Poll and then evaluate, as one integration point does. */
  method PollThenEvaluate(feed: seq<Observation>, d: Definition)
    returns (observations: seq<Observation>, outcome: PollOutcome, window: Option<(real, real)>)
    requires IncreasingSeconds(feed)
    ensures PollAnswer(feed, d, observations, outcome) && IncreasingSeconds(observations)
    ensures DrainAnswer(observations, d.guardrails, window)
    ensures outcome.StableDrain? ==> window.Some? && window.value.0 <= outcome.stableSince
    ensures outcome.StableDrain? ==> window.value.1 - window.value.0 >= d.guardrails.stability
    ensures window.Some? && !outcome.StableDrain? <==>
            OnlyWindowsAfterGaps(Samples(observations), Some(d.guardrails.maxGap), d.guardrails.stability)
  {
    observations, outcome := PollForDrain(feed, d);
    window := DrainWindow(observations, d.guardrails);
    DetectorsDisagreeIff(feed, d, observations, outcome, window);
    if outcome.StableDrain? {
      OnlineImpliesOffline(feed, d, observations, outcome.stableSince);
    }
  }

  /**
   At one sample: when the offline scan first confirms the run i..j, the poll
   confirms at that same sample if and only if dropping the sample that followed a
   gap (when there was one) still leaves a long enough run. It may yet confirm later.
   */
  lemma OnlineAtOfflineConfirmation(feed: seq<Observation>, g: Guardrails, i: nat, j: nat)
    requires IncreasingSeconds(feed) && g.Valid()
    requires FirstConfirmation(feed, g, i, j)
    ensures PollConfirmed(Samples(feed), Some(g.maxGap), g.stability, j) <==>
            (AfterGap(Samples(feed), Some(g.maxGap), i) ==>
               feed[j].seconds - feed[i + 1].seconds >= g.stability)
  {
    var s, limit := Samples(feed), Some(g.maxGap);
    RunStartIsMaximal(s, limit, i, j);
    PolledStartVersusRunStart(s, limit, j);
  }

  /** Without oversized gaps the two detectors agree at every sample. */
  lemma NoGapMeansSameStart(feed: seq<Observation>, g: Guardrails, j: nat)
    requires j < |feed|
    requires forall k :: 0 < k < |feed| ==> feed[k].seconds - feed[k - 1].seconds <= g.maxGap
    ensures PolledStart(Samples(feed), Some(g.maxGap), j) == RunStart(Samples(feed), Some(g.maxGap), j)
  {
    PolledStartVersusRunStart(Samples(feed), Some(g.maxGap), j);
  }

  function DrainedAt(seconds: real): Observation {
    Observation(seconds, seconds, 1, 1, 1, 0, 0, 0, 0, 0)
  }

  /** A saved timeline the offline scan accepts and the poll did not: the run begins right after a gap. */
  lemma OfflineWithoutOnline()
    ensures var g := Guardrails(120.0, 20.0, 20.0);
            var feed := [DrainedAt(0.0), DrainedAt(100.0), DrainedAt(120.0)];
            && g.Valid()
            && Confirms(Samples(feed), Some(g.maxGap), g.stability, 1, 2)
            && (forall k: nat :: k < 3 ==> !PollConfirmed(Samples(feed), Some(g.maxGap), g.stability, k))
            && OnlyWindowsAfterGaps(Samples(feed), Some(g.maxGap), g.stability)
  {
    var feed := [DrainedAt(0.0), DrainedAt(100.0), DrainedAt(120.0)];
    var s := Samples(feed);
    assert PolledStart(s, Some(20.0), 0) == Some(0);
    assert PolledStart(s, Some(20.0), 1) == None;
    assert PolledStart(s, Some(20.0), 2) == Some(2);
    assert Confirms(s, Some(20.0), 20.0, 1, 2);
    forall i: nat, j: nat | Confirms(s, Some(20.0), 20.0, i, j) ensures AfterGap(s, Some(20.0), i) {
      PollConfirmedIff(s, Some(20.0), 20.0, j);
    }
  }

  /** One more sample and the poll does confirm, although it does not where the offline scan first does. */
  lemma OnlineAfterOffline()
    ensures var g := Guardrails(120.0, 20.0, 20.0);
            var feed := [DrainedAt(0.0), DrainedAt(100.0), DrainedAt(120.0), DrainedAt(140.0)];
            && g.Valid() && FirstConfirmation(feed, g, 1, 2)
            && !PollConfirmed(Samples(feed), Some(g.maxGap), g.stability, 2)
            && PollConfirmed(Samples(feed), Some(g.maxGap), g.stability, 3)
  {
    var feed := [DrainedAt(0.0), DrainedAt(100.0), DrainedAt(120.0), DrainedAt(140.0)];
    var s := Samples(feed);
    assert PolledStart(s, Some(20.0), 0) == Some(0);
    assert PolledStart(s, Some(20.0), 1) == None;
    assert PolledStart(s, Some(20.0), 2) == Some(2);
    assert PolledStart(s, Some(20.0), 3) == Some(2);
    assert RunStart(s, Some(20.0), 1) == Some(1);
    assert RunStart(s, Some(20.0), 2) == Some(1);
    RunStartIsMaximal(s, Some(20.0), 1, 2);
  }

  /** From a sample k on, everything is drained and closely sampled. */
  predicate DrainedFrom(feed: seq<Observation>, g: Guardrails, k: nat) {
    && k < |feed|
    && (forall n :: k <= n < |feed| ==> feed[n].Drained())
    && (forall n :: 0 < n < |feed| ==> feed[n].seconds - feed[n - 1].seconds <= g.maxGap)
  }

  lemma {:induction false} PolledStartFrom(feed: seq<Observation>, g: Guardrails, k: nat, n: nat)
    requires DrainedFrom(feed, g, k) && k <= n < |feed|
    ensures PolledStart(Samples(feed), Some(g.maxGap), n).Some?
    ensures PolledStart(Samples(feed), Some(g.maxGap), n).value <= k
  {
    var s, limit := Samples(feed), Some(g.maxGap);
    if k < n {
      PolledStartFrom(feed, g, k, n - 1);
    } else if k > 0 && PolledStart(s, limit, k - 1).Some? {
      PolledStartIsRun(s, limit, k - 1);
    }
  }

  lemma UnconfirmedIsEarly(feed: seq<Observation>, g: Guardrails, k: nat, n: nat)
    requires DrainedFrom(feed, g, k) && IncreasingSeconds(feed) && g.Valid() && n < |feed|
    requires !PollConfirmed(Samples(feed), Some(g.maxGap), g.stability, n)
    ensures feed[n].seconds < feed[k].seconds + g.stability
  {
    if k <= n {
      PolledStartFrom(feed, g, k, n);
    }
  }

  /**
   The validator's timeout is long enough: with close sampling, a workload that is
   drained from some sample at or before the deadline is never timed out, and once
   the feed reaches that sample plus the stability window the poll has confirmed,
   before the timeout and with a start that meets the deadline.
   */
  lemma ValidTimeoutNeverCutsDrain(feed: seq<Observation>, d: Definition, k: nat,
                                   observed: seq<Observation>, outcome: PollOutcome)
    requires d.Valid() && IncreasingSeconds(feed)
    requires DrainedFrom(feed, d.guardrails, k)
    requires feed[k].seconds <= d.guardrails.drainDeadline
    requires PollAnswer(feed, d, observed, outcome)
    ensures !outcome.TimedOut?
    ensures feed[|feed| - 1].seconds >= feed[k].seconds + d.guardrails.stability ==> outcome.StableDrain?
    ensures outcome.StableDrain? ==>
              && observed[|observed| - 1].seconds < d.timeout
              && outcome.stableSince <= d.guardrails.drainDeadline
  {
    var n := |observed| - 1;
    match outcome
    case TimedOut =>
      UnconfirmedIsEarly(feed, d.guardrails, k, n);
    case Unfinished =>
      if n >= 0 {
        UnconfirmedIsEarly(feed, d.guardrails, k, n);
      }
    case StableDrain(since) =>
      if k < n {
        assert !PollStopsAt(feed, d, n - 1);
        UnconfirmedIsEarly(feed, d.guardrails, k, n - 1);
      }
      if k <= n {
        PolledStartFrom(feed, d.guardrails, k, n);
      } else {
        PolledStartIsRun(Samples(feed), Some(d.guardrails.maxGap), n);
      }
  }
}
