/** The report's own reading of a drain: a backward scan over the saved observations. */
module ElasticityReport {
  import opened Wrappers
  import opened StableRuns
  import opened FixedControl

  const MAXIMUM_GAP_SECONDS := 30.0
  const STABLE_DRAIN_SECONDS := 180.0
  const DRAIN_DEADLINE_SECONDS := 1200.0

  const GAP: GapLimit := Some(MAXIMUM_GAP_SECONDS)

  predicate Settled(o: Observation, loadEnd: real, expected: nat) {
    o.at >= loadEnd && o.Drained() && o.completed == expected
  }

  function ReportSamples(obs: seq<Observation>, loadEnd: real, expected: nat): (s: seq<Sample>)
    ensures |s| == |obs|
    ensures forall i :: 0 <= i < |obs| ==> s[i] == Sample(obs[i].at, Settled(obs[i], loadEnd, expected))
  {
    seq(|obs|, i requires 0 <= i < |obs| => Sample(obs[i].at, Settled(obs[i], loadEnd, expected)))
  }

  predicate Ordered(obs: seq<Observation>) {
    forall i, j :: 0 <= i < j < |obs| ==> obs[i].at < obs[j].at
  }

  /** The earliest sample of the run f.. that is far enough from its start. */
  predicate ConfirmingSample(obs: seq<Observation>, f: nat, c: nat) {
    && f <= c < |obs|
    && obs[c].at - obs[f].at >= STABLE_DRAIN_SECONDS
    && forall k :: f <= k < c ==> obs[k].at - obs[f].at < STABLE_DRAIN_SECONDS
  }

  /** f and c are the ends of the drain the report accepts. */
  predicate AcceptedDrain(obs: seq<Observation>, loadEnd: real, expected: nat, f: nat, c: nat) {
    && obs != []
    && RunStart(ReportSamples(obs, loadEnd, expected), GAP, |obs| - 1) == Some(f)
    && ConfirmingSample(obs, f, c)
    && obs[c].at - loadEnd <= DRAIN_DEADLINE_SECONDS
  }

  /** Observation k is of the time after the load and shows every expected event completed and nothing left anywhere. */
  predicate AllDone(obs: seq<Observation>, loadEnd: real, expected: nat, k: nat) {
    && k < |obs| && loadEnd <= obs[k].at
    && obs[k].persisted == expected && obs[k].completed == expected && obs[k].durable == expected
    && obs[k].pending + obs[k].visible + obs[k].inFlight + obs[k].delayed + obs[k].deadLetters == 0
  }

  /** The observations from f to the last are such, at most 30 seconds apart. */
  predicate DoneFrom(obs: seq<Observation>, loadEnd: real, expected: nat, f: nat) {
    && f < |obs|
    && (forall k :: f <= k < |obs| ==> AllDone(obs, loadEnd, expected, k))
    && (forall k :: f < k < |obs| ==> obs[k].at <= obs[k - 1].at + 30.0)
  }

  lemma SettledIff(obs: seq<Observation>, loadEnd: real, expected: nat, k: nat)
    requires k < |obs|
    ensures Settled(obs[k], loadEnd, expected) <==> AllDone(obs, loadEnd, expected, k)
  {
  }

  lemma DoneFromIff(obs: seq<Observation>, loadEnd: real, expected: nat, f: nat)
    requires obs != []
    ensures DoneFrom(obs, loadEnd, expected, f) <==> Run(ReportSamples(obs, loadEnd, expected), GAP, f, |obs| - 1)
  {
    forall k: nat | k < |obs| ensures Settled(obs[k], loadEnd, expected) <==> AllDone(obs, loadEnd, expected, k) {
      SettledIff(obs, loadEnd, expected, k);
    }
    hide Settled, AllDone;
  }

  /**
   The drain the report accepts, on the observations: it starts where the longest
   finished suffix does, is confirmed by the first observation three minutes later,
   and that one comes at most twenty minutes after the load.
   */
  lemma AcceptedDrainIff(obs: seq<Observation>, loadEnd: real, expected: nat, f: nat, c: nat)
    ensures AcceptedDrain(obs, loadEnd, expected, f, c) <==>
            && DoneFrom(obs, loadEnd, expected, f)
            && (f > 0 ==> !DoneFrom(obs, loadEnd, expected, f - 1))
            && f <= c < |obs| && obs[f].at + 180.0 <= obs[c].at <= loadEnd + 1200.0
            && forall k :: f <= k < c ==> obs[k].at < obs[f].at + 180.0
  {
    if obs != [] {
      var s, n := ReportSamples(obs, loadEnd, expected), |obs| - 1;
      RunStartIsMaximal(s, GAP, f, n);
      forall h: nat ensures DoneFrom(obs, loadEnd, expected, h) <==> Run(s, GAP, h, n) {
        DoneFromIff(obs, loadEnd, expected, h);
      }
      MaximalIff(s, GAP, f, n);
      hide DoneFrom, ReportSamples, RunStart, MaximalRun, Run;
    }
  }

  lemma MaximalIff(s: seq<Sample>, limit: GapLimit, i: nat, j: nat)
    ensures MaximalRun(s, limit, i, j) <==> Run(s, limit, i, j) && (i > 0 ==> !Run(s, limit, i - 1, j))
  {
    if Run(s, limit, i, j) && (i > 0 ==> !Run(s, limit, i - 1, j)) {
      forall h: nat | Run(s, limit, h, j) ensures i <= h {
        assert h < i ==> Run(s, limit, i - 1, j);
      }
    }
  }

  /** The first sample of the suffix that is far enough from its start. */
  method FirstConfirming(obs: seq<Observation>, first: nat) returns (confirming: Option<nat>)
    requires first < |obs|
    ensures confirming.Some? ==> ConfirmingSample(obs, first, confirming.value)
    ensures confirming.None? ==> forall c: nat :: !ConfirmingSample(obs, first, c)
  {
    for c := first to |obs|
      invariant forall k :: first <= k < c ==> obs[k].at - obs[first].at < STABLE_DRAIN_SECONDS
    {
      if obs[c].at - obs[first].at >= STABLE_DRAIN_SECONDS {
        return Some(c);
      }
    }
    return None;
  }

  /** What the report must answer. */
  ghost predicate ReportAnswer(obs: seq<Observation>, loadEnd: real, expected: nat, drainConfirmed: bool,
                               drain: Option<(real, real)>) {
    match drain
    case None => !drainConfirmed || forall f: nat, c: nat :: !AcceptedDrain(obs, loadEnd, expected, f, c)
    case Some(d) => drainConfirmed && exists f: nat, c: nat ::
        AcceptedDrain(obs, loadEnd, expected, f, c) && d == (obs[f].at - loadEnd, obs[c].at - loadEnd)
  }

  /** Walk back from the last observation while the samples settle and stay close. */
  method ScanBack(obs: seq<Observation>, loadEnd: real, expected: nat) returns (first: nat)
    ensures first <= |obs|
    ensures first < |obs| ==> Run(ReportSamples(obs, loadEnd, expected), GAP, first, |obs| - 1)
    ensures first > 0 ==>
              var s := ReportSamples(obs, loadEnd, expected);
              || !s[first - 1].good
              || (first < |obs| && !GapAllowed(GAP, s[first].at - s[first - 1].at))
  {
    first := |obs|;
    while first > 0
      invariant 0 <= first <= |obs|
      invariant first < |obs| ==> Run(ReportSamples(obs, loadEnd, expected), GAP, first, |obs| - 1)
    {
      var item := obs[first - 1];
      if item.at < loadEnd
         || !item.Drained()
         || item.completed != expected
         || (first < |obs| && obs[first].at - item.at > MAXIMUM_GAP_SECONDS)
      {
        break;
      }
      first := first - 1;
    }
  }

  lemma AcceptedIsFound(obs: seq<Observation>, loadEnd: real, expected: nat, first: nat, confirming: Option<nat>,
                        f: nat, c: nat)
    requires first < |obs| && RunStart(ReportSamples(obs, loadEnd, expected), GAP, |obs| - 1) == Some(first)
    requires forall d: nat :: ConfirmingSample(obs, first, d) ==> confirming == Some(d)
    requires AcceptedDrain(obs, loadEnd, expected, f, c)
    ensures f == first && confirming == Some(c) && obs[c].at - loadEnd <= DRAIN_DEADLINE_SECONDS
  {
  }

  lemma ConfirmedIsAccepted(obs: seq<Observation>, loadEnd: real, expected: nat, first: nat, c: nat)
    requires obs != [] && RunStart(ReportSamples(obs, loadEnd, expected), GAP, |obs| - 1) == Some(first)
    requires ConfirmingSample(obs, first, c) && obs[c].at - loadEnd <= DRAIN_DEADLINE_SECONDS
    ensures AcceptedDrain(obs, loadEnd, expected, first, c)
  {
  }

  /** Walk back from the last observation, then look for the confirming one. */
  method StableDrain(obs: seq<Observation>, loadEnd: real, expected: nat, drainConfirmed: bool)
    returns (drain: Option<(real, real)>)
    ensures ReportAnswer(obs, loadEnd, expected, drainConfirmed, drain)
  {
    hide ConfirmingSample, RunStart, Settled;
    var first := ScanBack(obs, loadEnd, expected);
    if obs == [] || !drainConfirmed {
      return None;
    }
    ScanFoundRunStart(obs, loadEnd, expected, first);
    if first == |obs| {
      return None;
    }
    var confirming := FirstConfirming(obs, first);
    if confirming.None? || obs[confirming.value].at - loadEnd > DRAIN_DEADLINE_SECONDS {
      OnlyOneConfirmingSample(obs, first, confirming);
      forall f: nat, c: nat ensures !AcceptedDrain(obs, loadEnd, expected, f, c) {
        if AcceptedDrain(obs, loadEnd, expected, f, c) {
          AcceptedIsFound(obs, loadEnd, expected, first, confirming, f, c);
        }
      }
      return None;
    }
    ConfirmedIsAccepted(obs, loadEnd, expected, first, confirming.value);
    return Some((obs[first].at - loadEnd, obs[confirming.value].at - loadEnd));
  }

  lemma OnlyOneConfirmingSample(obs: seq<Observation>, first: nat, confirming: Option<nat>)
    requires first < |obs|
    requires confirming.Some? ==> ConfirmingSample(obs, first, confirming.value)
    requires confirming.None? ==> forall c: nat :: !ConfirmingSample(obs, first, c)
    ensures forall c: nat :: ConfirmingSample(obs, first, c) ==> confirming == Some(c)
  {
  }

  /** The backward suffix scan stops exactly where the forward scan's run started. */
  lemma ScanFoundRunStart(obs: seq<Observation>, loadEnd: real, expected: nat, first: nat)
    requires obs != [] && first <= |obs|
    requires var s := ReportSamples(obs, loadEnd, expected);
             && (first < |obs| ==> Run(s, GAP, first, |obs| - 1))
             && (first > 0 ==>
                   || !s[first - 1].good
                   || (first < |obs| && !GapAllowed(GAP, s[first].at - s[first - 1].at)))
    ensures RunStart(ReportSamples(obs, loadEnd, expected), GAP, |obs| - 1)
            == if first < |obs| then Some(first) else None
  {
    var s := ReportSamples(obs, loadEnd, expected);
    var n := |obs| - 1;
    RunStartIsRun(s, GAP, n);
    if first < |obs| {
      RunStartIsMaximal(s, GAP, first, n);
    }
  }

  // ----- agreement with the forward wait -----

  /** The wait confirmed attempts i..j as one uninterrupted drained run. */
  ghost predicate ForwardRun(attempts: seq<Attempt>, stability: real, i: nat, j: nat) {
    && i <= j < |attempts|
    && MaximalRun(WaitSamples(attempts), None, i, j)
    && Confirms(WaitSamples(attempts), None, stability, i, j)
    && forall k: nat :: k < j ==> !WaitConfirmed(attempts, stability, k)
  }

  /** A confirmed wait is a forward run ending at its last poll. */
  lemma ConfirmedWaitHasRun(attempts: seq<Attempt>, loadEnd: real, timeout: real, stability: real, polls: nat)
    returns (i: nat)
    requires WaitAnswer(attempts, loadEnd, timeout, stability, polls, DrainConfirmed)
    ensures ForwardRun(attempts, stability, i, polls - 1)
  {
    var s := WaitSamples(attempts);
    RunStartIsRun(s, None, polls - 1);
    i := RunStart(s, None, polls - 1).value;
    RunStartIsMaximal(s, None, i, polls - 1);
  }

  /** The observations of the run i..j itself. */
  function RunOf(attempts: seq<Attempt>, i: nat, j: nat): (run: seq<Observation>)
    requires i <= j < |attempts| && forall k :: i <= k <= j ==> attempts[k].seen.Some?
    ensures |run| == j - i + 1
    ensures forall k :: 0 <= k < |run| ==> attempts[i + k].seen == Some(run[k])
  {
    seq(j - i + 1, k requires 0 <= k <= j - i => attempts[i + k].seen.value)
  }

  lemma ForwardRunSeen(attempts: seq<Attempt>, stability: real, i: nat, j: nat)
    requires ForwardRun(attempts, stability, i, j)
    ensures forall k :: i <= k <= j ==> attempts[k].Drained()
    ensures i > 0 ==> !attempts[i - 1].Drained()
  {
    var s := WaitSamples(attempts);
    forall k | i <= k <= j ensures attempts[k].Drained() {
      assert s[k].good;
    }
    assert i > 0 && attempts[i - 1].Drained() ==> Run(s, None, i - 1, j);
  }

  /** Every expected event completed during the run, which follows the load. */
  predicate RunComplete(run: seq<Observation>, loadEnd: real, expected: nat) {
    && run != []
    && (forall o <- run :: Settled(o, loadEnd, expected))
  }

  predicate CloselySampled(run: seq<Observation>) {
    forall k :: 0 < k < |run| ==> run[k].at - run[k - 1].at <= MAXIMUM_GAP_SECONDS
  }

  /** The run's own confirmation pattern, as the forward wait leaves it. */
  predicate FirstConfirmedAtEnd(run: seq<Observation>) {
    run != [] && ConfirmingSample(run, 0, |run| - 1)
  }

  /** The observation before the run would also have been counted by the report. */
  predicate Extends(earlier: seq<Observation>, start: real, loadEnd: real, expected: nat) {
    && earlier != []
    && Settled(earlier[|earlier| - 1], loadEnd, expected)
    && start - earlier[|earlier| - 1].at <= MAXIMUM_GAP_SECONDS
  }

  lemma RunInsideSamples(earlier: seq<Observation>, run: seq<Observation>, loadEnd: real, expected: nat)
    requires RunComplete(run, loadEnd, expected)
    ensures var s := ReportSamples(earlier + run, loadEnd, expected);
            && (forall k :: |earlier| <= k < |s| ==> s[k] == Sample(run[k - |earlier|].at, true))
            && (earlier != [] ==>
                  s[|earlier| - 1] == Sample(earlier[|earlier| - 1].at,
                                             Settled(earlier[|earlier| - 1], loadEnd, expected)))
  {
    var obs := earlier + run;
    forall k | |earlier| <= k < |obs| ensures obs[k] == run[k - |earlier|] && Settled(obs[k], loadEnd, expected) {
      assert obs[k] in run;
    }
  }

  /** The backward scan reaches back over the whole run if and only if it has no oversized gap. */
  lemma BackwardReachesRun(earlier: seq<Observation>, run: seq<Observation>, loadEnd: real, expected: nat)
    requires RunComplete(run, loadEnd, expected)
    ensures var obs := earlier + run;
            var start := RunStart(ReportSamples(obs, loadEnd, expected), GAP, |obs| - 1);
            start.Some? && (start.value <= |earlier| <==> CloselySampled(run))
  {
    var s := ReportSamples(earlier + run, loadEnd, expected);
    var n := |s| - 1;
    RunInsideSamples(earlier, run, loadEnd, expected);
    RunStartIsRun(s, GAP, n);
    var start := RunStart(s, GAP, n).value;
    if CloselySampled(run) {
      forall k | |earlier| < k <= n ensures GapAllowed(GAP, s[k].at - s[k - 1].at) {
        assert run[k - |earlier|].at - run[k - |earlier| - 1].at <= MAXIMUM_GAP_SECONDS;
      }
      RunStartIsLeast(s, GAP, |earlier|, n);
    }
    if start <= |earlier| {
      forall k | 0 < k < |run| ensures run[k].at - run[k - 1].at <= MAXIMUM_GAP_SECONDS {
        assert GapAllowed(GAP, s[|earlier| + k].at - s[|earlier| + k - 1].at);
      }
    }
  }

  lemma LastSample(s: seq<Sample>, earlier: seq<Observation>, run: seq<Observation>)
    requires run != [] && |s| == |earlier + run|
    requires forall k :: |earlier| <= k < |s| ==> s[k] == Sample(run[k - |earlier|].at, true)
    ensures s[|s| - 1].good && s[|earlier|].at == run[0].at
  {
  }

  lemma ReportGap(gap: real)
    ensures GapAllowed(GAP, gap) <==> gap <= MAXIMUM_GAP_SECONDS
  {
  }

  lemma EarlierStart(s: seq<Sample>, i: nat, j: nat)
    requires 0 < i <= j < |s| && Run(s, GAP, i, j) && s[i - 1].good && GapAllowed(GAP, s[i].at - s[i - 1].at)
    ensures Run(s, GAP, i - 1, j)
  {
  }

  /** It goes beyond the run exactly when the observation before it also qualifies. */
  lemma BackwardStopsAtRun(earlier: seq<Observation>, run: seq<Observation>, loadEnd: real, expected: nat)
    requires RunComplete(run, loadEnd, expected) && CloselySampled(run)
    ensures var obs := earlier + run;
            RunStart(ReportSamples(obs, loadEnd, expected), GAP, |obs| - 1) == Some(|earlier|)
            <==> !Extends(earlier, run[0].at, loadEnd, expected)
  {
    assert run != [];
    hide RunStart, Settled, RunComplete, CloselySampled, GapAllowed;
    var s := ReportSamples(earlier + run, loadEnd, expected);
    var n := |s| - 1;
    RunInsideSamples(earlier, run, loadEnd, expected);
    BackwardReachesRun(earlier, run, loadEnd, expected);
    RunStartIsRun(s, GAP, n);
    assert s[n].good && s[|earlier|].at == run[0].at by { LastSample(s, earlier, run); }
    hide ReportSamples;
    var start := RunStart(s, GAP, n).value;
    if start < |earlier| {
      assert s[|earlier| - 1].good && GapAllowed(GAP, s[|earlier|].at - s[|earlier| - 1].at);
      ReportGap(s[|earlier|].at - s[|earlier| - 1].at);
    } else if Extends(earlier, run[0].at, loadEnd, expected) {
      ReportGap(s[|earlier|].at - s[|earlier| - 1].at);
      EarlierStart(s, |earlier|, n);
      RunStartIsLeast(s, GAP, |earlier| - 1, n);
    }
  }

  lemma FindConfirming(obs: seq<Observation>, f: nat, last: nat) returns (c: nat)
    requires f <= last < |obs| && obs[last].at - obs[f].at >= STABLE_DRAIN_SECONDS
    ensures ConfirmingSample(obs, f, c) && c <= last
  {
    c := f;
    while obs[c].at - obs[f].at < STABLE_DRAIN_SECONDS
      invariant f <= c <= last
      invariant forall k :: f <= k < c ==> obs[k].at - obs[f].at < STABLE_DRAIN_SECONDS
      decreases last - c
    {
      c := c + 1;
    }
  }

  /**
   For a confirmed, complete and closely sampled run the report accepts a drain
   whose start and confirmation are never later than the wait's, and it reports
   precisely the wait's own run unless the sample just before it also qualifies.
   */
  lemma ReportMatchesWait(earlier: seq<Observation>, run: seq<Observation>, loadEnd: real, expected: nat)
    returns (f: nat, c: nat)
    requires Ordered(earlier + run)
    requires RunComplete(run, loadEnd, expected) && CloselySampled(run) && FirstConfirmedAtEnd(run)
    requires run[|run| - 1].at - loadEnd <= DRAIN_DEADLINE_SECONDS
    ensures AcceptedDrain(earlier + run, loadEnd, expected, f, c)
    ensures f <= |earlier|
    ensures (f == |earlier| && c == |earlier + run| - 1) <==> !Extends(earlier, run[0].at, loadEnd, expected)
  {
    var obs := earlier + run;
    BackwardReachesRun(earlier, run, loadEnd, expected);
    BackwardStopsAtRun(earlier, run, loadEnd, expected);
    f := RunStart(ReportSamples(obs, loadEnd, expected), GAP, |obs| - 1).value;
    assert obs[|earlier|] == run[0] && obs[|obs| - 1] == run[|run| - 1];
    c := FindConfirming(obs, f, |obs| - 1);
    if f == |earlier| {
      forall k | f <= k < |obs| - 1 ensures obs[k].at - obs[f].at < STABLE_DRAIN_SECONDS {
        assert obs[k] == run[k - f];
      }
    }
  }

  lemma WaitConfirmsAtEnd(attempts: seq<Attempt>, i: nat, j: nat, k: nat)
    requires ForwardRun(attempts, STABLE_DRAIN_SECONDS, i, j) && i <= k < j
    ensures attempts[k].at - attempts[i].at < STABLE_DRAIN_SECONDS
  {
    var s := WaitSamples(attempts);
    assert Run(s, None, i, k);
    RunStartIsLeast(s, None, i, k);
    RunStartIsRun(s, None, k);
    assert Run(s, None, RunStart(s, None, k).value, j);
    assert !WaitConfirmed(attempts, STABLE_DRAIN_SECONDS, k);
  }

  lemma NothingExtendsTheWait(loading: seq<Observation>, attempts: seq<Attempt>,
                              loadEnd: real, expected: nat, stability: real, i: nat, j: nat)
    requires ForwardRun(attempts, stability, i, j)
    requires forall o <- loading :: o.at < loadEnd
    requires i > 0 ==> attempts[i - 1].seen.Some?
    ensures !Extends(loading + Successes(attempts, i), attempts[i].at, loadEnd, expected)
  {
    ForwardRunSeen(attempts, stability, i, j);
    hide ForwardRun;
    var earlier := loading + Successes(attempts, i);
    if i == 0 {
      assert earlier == loading;
    } else {
      assert earlier[|earlier| - 1] == attempts[i - 1].seen.value;
    }
  }

  /** Attempts i..j all succeeded after the load, complete and at most 30 seconds apart. */
  ghost predicate CleanStretch(attempts: seq<Attempt>, loadEnd: real, expected: nat, i: nat, j: nat) {
    && i <= j < |attempts|
    && (forall k :: i <= k <= j ==> attempts[k].at >= loadEnd && attempts[k].seen.Some?)
    && (forall k :: i <= k <= j ==> attempts[k].seen.value.completed == expected)
    && (forall k :: i < k <= j ==> attempts[k].at - attempts[k - 1].at <= MAXIMUM_GAP_SECONDS)
  }

  lemma CleanRunIsComplete(attempts: seq<Attempt>, loadEnd: real, expected: nat, i: nat, j: nat)
    requires ValidAttempts(attempts)
    requires CleanStretch(attempts, loadEnd, expected, i, j)
    requires forall k :: i <= k <= j ==> attempts[k].Drained()
    ensures RunComplete(RunOf(attempts, i, j), loadEnd, expected)
    ensures forall k :: 0 <= k <= j - i ==> RunOf(attempts, i, j)[k].at == attempts[i + k].at
  {
    forall k | 0 <= k <= j - i
      ensures RunOf(attempts, i, j)[k].at == attempts[i + k].at && Settled(RunOf(attempts, i, j)[k], loadEnd, expected)
    {
      assert attempts[i + k].Valid() && attempts[i + k].Drained();
    }
  }

  lemma CleanRunIsClose(attempts: seq<Attempt>, loadEnd: real, expected: nat, i: nat, j: nat, run: seq<Observation>)
    requires CleanStretch(attempts, loadEnd, expected, i, j)
    requires |run| == j - i + 1 && forall k :: 0 <= k < |run| ==> run[k].at == attempts[i + k].at
    ensures CloselySampled(run)
  {
    forall k | 0 < k < |run| ensures run[k].at - run[k - 1].at <= MAXIMUM_GAP_SECONDS {
      assert run[k - 1].at == attempts[i + k - 1].at;
    }
  }

  lemma WaitRunConfirmsAtEnd(attempts: seq<Attempt>, i: nat, j: nat, run: seq<Observation>)
    requires ForwardRun(attempts, STABLE_DRAIN_SECONDS, i, j)
    requires |run| == j - i + 1 && forall k :: 0 <= k < |run| ==> run[k].at == attempts[i + k].at
    ensures FirstConfirmedAtEnd(run)
  {
    forall k | 0 <= k < |run| - 1 ensures run[k].at - run[0].at < STABLE_DRAIN_SECONDS {
      WaitConfirmsAtEnd(attempts, i, j, i + k);
    }
    assert run[|run| - 1].at == attempts[j].at;
    var s := WaitSamples(attempts);
    assert s[j].at - s[i].at >= STABLE_DRAIN_SECONDS;
  }

  /**
   When the wait confirmed attempts i..j, every expected event had completed, no gap
   inside exceeds 30 seconds and the confirmation is in time, the report's drain
   starts and is confirmed no later than the wait's, whatever collections failed. It
   is exactly the wait's unless the observation kept before attempt i also qualifies.
   `loading` holds the samples taken while the load was running.
   */
  lemma ReportIsNoLater(loading: seq<Observation>, attempts: seq<Attempt>,
                        loadEnd: real, expected: nat, i: nat, j: nat)
    returns (f: nat, c: nat)
    requires ValidAttempts(attempts)
    requires ForwardRun(attempts, STABLE_DRAIN_SECONDS, i, j)
    requires Ordered(loading + Successes(attempts, j + 1))
    requires CleanStretch(attempts, loadEnd, expected, i, j)
    requires attempts[j].at - loadEnd <= DRAIN_DEADLINE_SECONDS
    ensures var obs := loading + Successes(attempts, j + 1);
            && AcceptedDrain(obs, loadEnd, expected, f, c)
            && obs[f].at <= attempts[i].at
            && obs[c].at <= attempts[j].at
            && (obs[f].at == attempts[i].at && obs[c].at == attempts[j].at
                <==> !Extends(loading + Successes(attempts, i), attempts[i].at, loadEnd, expected))
  {
    assert i <= j < |attempts|;
    hide CleanStretch, Successes, AcceptedDrain, ValidAttempts, RunComplete, CloselySampled, FirstConfirmedAtEnd, Ordered,
         ForwardRun, Extends;
    var run := WaitAsRun(attempts, loadEnd, expected, i, j);
    var earlier := loading + Successes(attempts, i);
    var obs := earlier + run;
    assert obs == loading + Successes(attempts, j + 1);
    f, c := ReportMatchesWait(earlier, run, loadEnd, expected);
    assert obs[|earlier|] == run[0] && obs[|obs| - 1] == run[|run| - 1];
    AcceptedIsInside(obs, loadEnd, expected, f, c);
    OrderedTimes(obs, f, |earlier|);
    OrderedTimes(obs, c, |obs| - 1);
  }

  /** The confirmed wait as the observations it kept. */
  lemma WaitAsRun(attempts: seq<Attempt>, loadEnd: real, expected: nat, i: nat, j: nat) returns (run: seq<Observation>)
    requires ValidAttempts(attempts)
    requires ForwardRun(attempts, STABLE_DRAIN_SECONDS, i, j)
    requires CleanStretch(attempts, loadEnd, expected, i, j)
    ensures RunComplete(run, loadEnd, expected) && CloselySampled(run) && FirstConfirmedAtEnd(run)
    ensures run != [] && run[0].at == attempts[i].at && run[|run| - 1].at == attempts[j].at
    ensures Successes(attempts, j + 1) == Successes(attempts, i) + run
  {
    hide CleanStretch, Successes, ValidAttempts, Settled, CloselySampled, FirstConfirmedAtEnd;
    ForwardRunSeen(attempts, STABLE_DRAIN_SECONDS, i, j);
    run := RunOf(attempts, i, j);
    CleanRunIsComplete(attempts, loadEnd, expected, i, j);
    CleanRunIsClose(attempts, loadEnd, expected, i, j, run);
    WaitRunConfirmsAtEnd(attempts, i, j, run);
    SuccessesOfStretch(attempts, i, j + 1, run);
    assert run[0].at == attempts[i + 0].at && run[|run| - 1].at == attempts[j].at;
  }

  lemma AcceptedIsInside(obs: seq<Observation>, loadEnd: real, expected: nat, f: nat, c: nat)
    requires AcceptedDrain(obs, loadEnd, expected, f, c)
    ensures f <= c < |obs|
  {
  }

  lemma OrderedTimes(obs: seq<Observation>, a: nat, b: nat)
    requires Ordered(obs) && a <= b < |obs|
    ensures obs[a].at <= obs[b].at && (obs[a].at == obs[b].at <==> a == b)
  {
  }

  /**
   Whole-run agreement: when moreover no collection failed just before i, the
   report's drain is exactly the wait's.
   */
  lemma ReportFindsTheWaitsRun(loading: seq<Observation>, attempts: seq<Attempt>,
                               loadEnd: real, expected: nat, i: nat, j: nat)
    returns (f: nat, c: nat)
    requires ValidAttempts(attempts)
    requires ForwardRun(attempts, STABLE_DRAIN_SECONDS, i, j)
    requires Ordered(loading + Successes(attempts, j + 1))
    requires forall o <- loading :: o.at < loadEnd
    requires CleanStretch(attempts, loadEnd, expected, i, j)
    requires attempts[j].at - loadEnd <= DRAIN_DEADLINE_SECONDS
    requires i > 0 ==> attempts[i - 1].seen.Some?
    ensures var obs := loading + Successes(attempts, j + 1);
            && AcceptedDrain(obs, loadEnd, expected, f, c)
            && obs[f].at == attempts[i].at
            && obs[c].at == attempts[j].at
  {
    hide Ordered, CleanStretch, AcceptedDrain, ValidAttempts, ForwardRun, Successes;
    f, c := ReportIsNoLater(loading, attempts, loadEnd, expected, i, j);
    NothingExtendsTheWait(loading, attempts, loadEnd, expected, STABLE_DRAIN_SECONDS, i, j);
  }
}
