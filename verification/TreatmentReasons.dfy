/** The evaluation of an elastic run, and what each of its reasons means on the samples and native points themselves. */
module TreatmentReasons {
  import opened Wrappers
  import opened StableRuns
  import opened FixedControl
  import opened ElasticTreatment

  /** Seconds after load start; a sample just before it counts as taken at the start. */
  function After(o: Observation): real {
    if o.at < 0.0 then 0.0 else o.at
  }

  ghost predicate DuringLoad(run: TreatmentRun, k: nat) {
    k < |run.observations| && After(run.observations[k]) < run.Duration()
  }

  /** Exactly this many workers are wanted and running, and none is starting. */
  ghost predicate CapacityIs(o: Observation, count: nat) {
    o.desired == count && o.running == count && o.starting == 0
  }

  /** Live samples: scaled out before the recovery step. */
  ghost predicate ScaledOutLive(run: TreatmentRun, p: Policy)
    requires run.steps != []
  {
    exists k: nat :: DuringLoad(run, k) && After(run.observations[k]) < run.RecoveryStart()
      && run.observations[k].running > p.minimum && run.observations[k].desired == p.maximum
  }

  /** Native points: more than the minimum before the recovery step. */
  ghost predicate ScaledOutNatively(run: TreatmentRun, p: Policy)
    requires run.steps != []
  {
    exists w <- run.workers :: w.start < run.RecoveryStart() && w.value > p.minimum as real
  }

  ghost predicate WithinBounds(run: TreatmentRun, p: Policy) {
    && (forall o <- run.observations ::
          && p.minimum <= o.desired && o.desired <= p.maximum
          && p.minimum <= o.running && o.running <= p.maximum && o.starting <= p.maximum)
    && (forall w <- run.workers :: p.minimum as real <= w.value && w.value <= p.maximum as real)
  }

  /** Samples i to j of the peak step, all at full capacity, at most 30 seconds apart. */
  ghost predicate PeakStretch(run: TreatmentRun, p: Policy, i: nat, j: nat)
    requires run.steps != []
  {
    && i <= j < |run.observations|
    && (forall k :: i <= k <= j ==>
          && DuringLoad(run, k) && CapacityIs(run.observations[k], p.maximum)
          && run.observations[k].step == PeakName(run.steps))
    && (forall k :: i < k <= j ==> After(run.observations[k]) - After(run.observations[k - 1]) <= 30.0)
  }

  ghost predicate HeldAtPeak(run: TreatmentRun, p: Policy)
    requires run.steps != []
  {
    exists i: nat, j: nat :: PeakStretch(run, p, i, j) && After(run.observations[j]) - After(run.observations[i]) >= 60.0
  }

  ghost predicate RecoverySample(run: TreatmentRun, p: Policy, k: nat)
    requires run.steps != []
  {
    && k < |run.observations|
    && After(run.observations[k]) >= run.RecoveryStart() && CapacityIs(run.observations[k], p.minimum)
  }

  /** The load's samples end before m; those from f on are the longest suffix of them at minimum in recovery. */
  ghost predicate MinimumSuffix(run: TreatmentRun, p: Policy, f: nat, m: nat)
    requires run.steps != []
  {
    && f <= m <= |run.observations|
    && (forall k: nat :: k < |run.observations| ==> (k < m <==> DuringLoad(run, k)))
    && (forall k: nat :: f <= k < m ==> RecoverySample(run, p, k))
    && (f > 0 ==> !RecoverySample(run, p, f - 1))
  }

  /** A native point that may confirm the return, which version 6 takes from the live suffix on. */
  ghost predicate Confirming(run: TreatmentRun, f: nat, j: nat)
    requires run.steps != [] && f < |run.observations|
  {
    && j < |run.workers|
    && if run.demoV6 then run.observations[f].at <= run.workers[j].start < run.Duration()
       else run.RecoveryStart() <= run.workers[j].start && run.workers[j].start + 60.0 <= run.Duration()
  }

  /** The last native point that may confirm the return shows the minimum. */
  ghost predicate ConfirmedNatively(run: TreatmentRun, p: Policy, f: nat)
    requires run.steps != [] && f < |run.observations|
  {
    exists j: nat ::
      && Confirming(run, f, j)
      && (forall l: nat :: j < l ==> !Confirming(run, f, l))
      && p.minimum as real - 0.01 <= run.workers[j].value <= p.minimum as real + 0.01
  }

  /** A minute at minimum, up to 30 seconds before the end, confirmed natively and still so at the last sample. */
  ghost predicate ReturnedFrom(run: TreatmentRun, p: Policy, f: nat, m: nat)
    requires run.steps != []
  {
    var obs := run.observations;
    && MinimumSuffix(run, p, f, m) && f + 2 <= m
    && After(obs[m - 1]) - After(obs[f]) >= 60.0 && run.Duration() - After(obs[m - 1]) <= 30.0
    && ConfirmedNatively(run, p, f) && CapacityIs(obs[|obs| - 1], p.minimum)
  }

  ghost predicate ObservedThroughout(run: TreatmentRun) {
    && DuringLoad(run, 0) && After(run.observations[0]) <= 30.0
    && (exists k: nat :: DuringLoad(run, k) && run.Duration() - After(run.observations[k]) <= 30.0)
    && forall k :: 0 < k < |run.observations| ==> run.observations[k].at - run.observations[k - 1].at <= 30.0
  }

  /** Unfinished events, the live queue, or the native queue at the same minute. */
  ghost predicate BacklogWithin(run: TreatmentRun, bound: real)
    requires |run.visible| == |run.workers| && |run.inFlight| == |run.workers| && |run.delayed| == |run.workers|
  {
    && (forall o <- run.observations ::
          && (o.persisted - o.completed) as real <= bound
          && (o.visible + o.inFlight + o.delayed) as real <= bound)
    && (forall k :: 0 <= k < |run.workers| ==>
          run.visible[k].value + run.inFlight[k].value + run.delayed[k].value <= bound)
  }

  /** Each reason about worker capacity is given exactly when its own condition fails. */
  ghost predicate CapacityReasonsMean(run: TreatmentRun, p: Policy, reasons: seq<Reason>)
    requires run.Valid()
  {
    && (InitialCapacityNotMinimum in reasons <==>
          run.observations == [] || !CapacityIs(run.observations[0], p.minimum))
    && (CapacityOutOfBounds in reasons <==> !WithinBounds(run, p))
    && (ScaleOutNotObserved in reasons <==> !ScaledOutLive(run, p) || !ScaledOutNatively(run, p))
    && (PeakWindowTooShort in reasons <==> (run.demoV5 || run.demoV6) && !HeldAtPeak(run, p))
    && (RecoveryNotObserved in reasons <==> !exists f: nat, m: nat :: ReturnedFrom(run, p, f, m))
  }

  /** Each reason about the evidence and the backlog is given exactly when its own condition fails. */
  ghost predicate EvidenceReasonsMean(run: TreatmentRun, common: seq<Reason>, reasons: seq<Reason>)
    requires run.Valid()
  {
    && (forall name :: CommonGuardrail(name) in reasons <==> CommonGuardrail(name) in common)
    && (CoverageIncomplete in reasons <==> !ObservedThroughout(run))
    && (WindowIncomplete in reasons <==> run.loadEnd < run.Duration())
    && (DeadLettersObserved in reasons <==> exists o <- run.observations :: o.deadLetters != 0)
    && (BacklogExceeded in reasons <==> !BacklogWithin(run, 1500.0))
    && (OldestAgeExceeded in reasons <==> exists w <- run.oldestAge :: w.value > 180.0)
  }

  // ----- each condition of the evaluation, on fields -----

  lemma LoadIs(run: TreatmentRun)
    requires run.Valid()
    ensures run.Load() <= run.observations
    ensures forall k: nat :: DuringLoad(run, k) <==> k < |run.Load()|
  {
    DuringIsPrefix(run.observations, run.Duration());
    forall k: nat | k < |run.Load()| ensures DuringLoad(run, k) {
      assert run.Load()[k] in run.Load();
    }
  }

  lemma ScaledOutIff(run: TreatmentRun, p: Policy)
    requires run.Valid()
    ensures ScaledOut(run, p) <==> ScaledOutLive(run, p) && ScaledOutNatively(run, p)
  {
    LoadIs(run);
    var load := run.Load();
    if ScaledOutLive(run, p) {
      var k: nat :| DuringLoad(run, k) && After(run.observations[k]) < run.RecoveryStart()
        && run.observations[k].running > p.minimum && run.observations[k].desired == p.maximum;
      assert load[k] in load;
    }
    if o :| o in load && o.running > p.minimum && o.desired == p.maximum && Seconds(o) < run.RecoveryStart() {
      var k: nat :| k < |load| && load[k] == o;
      assert DuringLoad(run, k);
    }
  }

  lemma InBoundsIff(run: TreatmentRun, p: Policy)
    ensures InBounds(run, p) <==> WithinBounds(run, p)
  {
  }

  lemma HeldAtPeakIff(run: TreatmentRun, p: Policy, longest: real)
    requires run.Valid()
    requires LongestSpan(PeakSamples(run.Load(), PeakName(run.steps), p), Some(MAXIMUM_GAP), longest)
    ensures longest >= MINIMUM_PEAK <==> HeldAtPeak(run, p)
  {
    LoadIs(run);
    var load := run.Load();
    var s := PeakSamples(load, PeakName(run.steps), p);
    if longest >= MINIMUM_PEAK {
      var i: nat, j: nat :| Confirms(s, Some(MAXIMUM_GAP), longest, i, j);
      PeakRunIff(run, p, i, j);
      assert PeakStretch(run, p, i, j);
    }
    if i: nat, j: nat :| PeakStretch(run, p, i, j) && After(run.observations[j]) - After(run.observations[i]) >= 60.0 {
      PeakRunIff(run, p, i, j);
    }
  }

  lemma PeakRunIff(run: TreatmentRun, p: Policy, i: nat, j: nat)
    requires run.Valid()
    ensures Run(PeakSamples(run.Load(), PeakName(run.steps), p), Some(MAXIMUM_GAP), i, j) <==> PeakStretch(run, p, i, j)
    ensures PeakStretch(run, p, i, j) ==> j < |run.Load()|
  {
    LoadIs(run);
    hide TreatmentRun.Valid, TreatmentRun.Load, PeakName;
    var load := run.Load();
    if j < |load| {
      forall k: nat | k <= j ensures DuringLoad(run, k) && load[k] == run.observations[k] {
      }
    } else if i <= j {
      assert !DuringLoad(run, j);
    }
  }

  lemma RecoverySampleIff(run: TreatmentRun, p: Policy, k: nat)
    requires run.steps != [] && k < |run.observations|
    ensures InRecovery(run.observations[k], run.RecoveryStart(), p) <==> RecoverySample(run, p, k)
  {
  }

  lemma SuffixIff(run: TreatmentRun, p: Policy, f: nat, m: nat)
    requires run.Valid()
    ensures MinimumSuffix(run, p, f, m) <==>
            m == |run.Load()| && RecoverySuffix(run.Load(), run.RecoveryStart(), p, f)
  {
    LoadIs(run);
    var load := run.Load();
    forall k: nat | k < |load| ensures InRecovery(load[k], run.RecoveryStart(), p) <==> RecoverySample(run, p, k) {
      RecoverySampleIff(run, p, k);
    }
    hide TreatmentRun.Valid, TreatmentRun.Load, InRecovery, RecoverySample;
    assert DuringLoad(run, m) <==> m < |load|;
    assert !DuringLoad(run, |load|);
  }

  lemma SuffixIsUnique(load: seq<Observation>, recoveryStart: real, p: Policy, a: nat, b: nat)
    requires RecoverySuffix(load, recoveryStart, p, a) && RecoverySuffix(load, recoveryStart, p, b)
    ensures a == b
  {
  }

  lemma ConfirmedNativelyIff(run: TreatmentRun, p: Policy, f: nat)
    requires run.Valid() && f < |run.Load()|
    ensures var native := LastCorroborating(run, run.Load(), f, |run.workers|);
            native.Some? && Abs(run.workers[native.value].value - p.minimum as real) <= 0.01
            <==> f < |run.observations| && ConfirmedNatively(run, p, f)
  {
    LoadIs(run);
    var load := run.Load();
    assert load[f] == run.observations[f];
    forall j: nat | j < |run.workers| ensures Corroborates(run, load, f, run.workers[j]) <==> Confirming(run, f, j) {
    }
    hide TreatmentRun.Valid, TreatmentRun.Load, Corroborates;
    var native := LastCorroborating(run, load, f, |run.workers|);
    if native.Some? {
      assert Confirming(run, f, native.value);
    }
    hide Confirming;
  }

  lemma RecoveredIff(run: TreatmentRun, p: Policy, first: nat)
    requires run.Valid() && RecoverySuffix(run.Load(), run.RecoveryStart(), p, first)
    ensures Recovered(run, p, run.Load(), first) <==> exists f: nat, m: nat :: ReturnedFrom(run, p, f, m)
  {
    var load := run.Load();
    LoadIs(run);
    SuffixIff(run, p, first, |load|);
    if |load| - first >= 2 {
      ConfirmedNativelyIff(run, p, first);
    }
    hide TreatmentRun.Valid, TreatmentRun.Load, RecoverySuffix, MinimumSuffix, ConfirmedNatively, LastCorroborating;
    if Recovered(run, p, load, first) {
      assert ReturnedFrom(run, p, first, |load|);
    }
    if f: nat, m: nat :| ReturnedFrom(run, p, f, m) {
      SuffixIff(run, p, f, m);
      SuffixIsUnique(load, run.RecoveryStart(), p, first, f);
    }
  }

  lemma CoveredIff(run: TreatmentRun)
    requires run.Valid()
    ensures Covered(run) <==> ObservedThroughout(run)
  {
    LoadIs(run);
    var load := run.Load();
    if ObservedThroughout(run) {
      var k: nat :| DuringLoad(run, k) && run.Duration() - After(run.observations[k]) <= 30.0;
      assert k <= |load| - 1 && After(run.observations[k]) <= After(run.observations[|load| - 1]);
    }
    if load != [] {
      assert DuringLoad(run, |load| - 1) && DuringLoad(run, 0);
    }
  }

  lemma UnfinishedIff(o: Observation)
    ensures Outstanding(o) as real <= MAXIMUM_BACKLOG_EVENTS <==> (o.persisted - o.completed) as real <= 1500.0
    ensures o.QueueWork() == o.visible + o.inFlight + o.delayed
  {
  }

  lemma BacklogIff(run: TreatmentRun)
    requires run.Valid()
    ensures BacklogBounded(run) <==> BacklogWithin(run, 1500.0)
  {
    assert |run.visible| == |run.workers| && |run.inFlight| == |run.workers| && |run.delayed| == |run.workers|;
    hide Outstanding, Observation.QueueWork, TreatmentRun.Valid;
    forall o | o in run.observations
      ensures Outstanding(o) as real <= MAXIMUM_BACKLOG_EVENTS <==> (o.persisted - o.completed) as real <= 1500.0
      ensures o.QueueWork() == o.visible + o.inFlight + o.delayed
    {
      UnfinishedIff(o);
    }
    forall k | 0 <= k < |run.workers|
      ensures NativeQueueWork(run, k) == run.visible[k].value + run.inFlight[k].value + run.delayed[k].value
    {
    }
    hide NativeQueueWork;
  }

  lemma InAppended(reasons: seq<Reason>, failed: bool, reason: Reason, r: Reason)
    ensures r in Appended(reasons, failed, reason) <==> r in reasons || (failed && r == reason)
  {
  }

  lemma CapacityReasonListedIff(run: TreatmentRun, p: Policy, common: seq<Reason>, longest: real, first: nat, r: Reason)
    requires run.steps != []
    ensures r in CapacityReasons(run, p, common, longest, first) <==>
            || r in common
            || (r == InitialCapacityNotMinimum && (run.observations == [] || !AtMinimum(run.observations[0], p)))
            || (r == CapacityOutOfBounds && !InBounds(run, p))
            || (r == ScaleOutNotObserved && !ScaledOut(run, p))
            || (r == PeakWindowTooShort && run.UsesRequestTimings() && longest < MINIMUM_PEAK)
            || (r == RecoveryNotObserved && !Recovered(run, p, run.Load(), first))
  {
    hide InBounds, ScaledOut, Recovered, AtMinimum, Appended, TreatmentRun.UsesRequestTimings, TreatmentRun.Load;
    var atMinimum := run.observations != [] && AtMinimum(run.observations[0], p);
    var tooShort := run.UsesRequestTimings() && longest < MINIMUM_PEAK;
    InAppended(common, !atMinimum, InitialCapacityNotMinimum, r);
    var initial := Appended(common, !atMinimum, InitialCapacityNotMinimum);
    InAppended(initial, !InBounds(run, p), CapacityOutOfBounds, r);
    var bounded := Appended(initial, !InBounds(run, p), CapacityOutOfBounds);
    InAppended(bounded, !ScaledOut(run, p), ScaleOutNotObserved, r);
    var scaled := Appended(bounded, !ScaledOut(run, p), ScaleOutNotObserved);
    InAppended(scaled, tooShort, PeakWindowTooShort, r);
    InAppended(Appended(scaled, tooShort, PeakWindowTooShort), !Recovered(run, p, run.Load(), first), RecoveryNotObserved, r);
  }

  lemma ReasonListedIff(run: TreatmentRun, p: Policy, common: seq<Reason>, longest: real, first: nat,
                        backlogBounded: bool, ageBounded: bool, r: Reason)
    requires run.steps != []
    ensures r in Reasons(run, p, common, longest, first, backlogBounded, ageBounded) <==>
            || r in CapacityReasons(run, p, common, longest, first)
            || (r == CoverageIncomplete && !Covered(run))
            || (r == WindowIncomplete && run.loadEnd < run.Duration())
            || (r == DeadLettersObserved && !NoDeadLetters(run))
            || (r == BacklogExceeded && !backlogBounded)
            || (r == OldestAgeExceeded && !ageBounded)
  {
    hide CapacityReasons, Covered, NoDeadLetters, Appended, TreatmentRun.Duration;
    var capacity := CapacityReasons(run, p, common, longest, first);
    InAppended(capacity, !Covered(run), CoverageIncomplete, r);
    var covered := Appended(capacity, !Covered(run), CoverageIncomplete);
    InAppended(covered, run.loadEnd < run.Duration(), WindowIncomplete, r);
    var complete := Appended(covered, run.loadEnd < run.Duration(), WindowIncomplete);
    InAppended(complete, !NoDeadLetters(run), DeadLettersObserved, r);
    var delivered := Appended(complete, !NoDeadLetters(run), DeadLettersObserved);
    InAppended(delivered, !backlogBounded, BacklogExceeded, r);
    InAppended(Appended(delivered, !backlogBounded, BacklogExceeded), !ageBounded, OldestAgeExceeded, r);
  }

  /** Which reasons are in the list, by the evaluation's own conditions. */
  lemma ReasonsListed(run: TreatmentRun, p: Policy, common: seq<Reason>, longest: real, first: nat, reasons: seq<Reason>)
    requires run.steps != [] && forall r <- common :: r.CommonGuardrail?
    requires |run.visible| == |run.workers| && |run.inFlight| == |run.workers| && |run.delayed| == |run.workers|
    requires reasons == Reasons(run, p, common, longest, first, BacklogBounded(run), AgeBounded(run))
    ensures forall name :: CommonGuardrail(name) in reasons <==> CommonGuardrail(name) in common
    ensures InitialCapacityNotMinimum in reasons <==> run.observations == [] || !AtMinimum(run.observations[0], p)
    ensures CapacityOutOfBounds in reasons <==> !InBounds(run, p)
    ensures ScaleOutNotObserved in reasons <==> !ScaledOut(run, p)
    ensures PeakWindowTooShort in reasons <==> run.UsesRequestTimings() && longest < MINIMUM_PEAK
    ensures RecoveryNotObserved in reasons <==> !Recovered(run, p, run.Load(), first)
    ensures CoverageIncomplete in reasons <==> !Covered(run)
    ensures WindowIncomplete in reasons <==> run.loadEnd < run.Duration()
    ensures DeadLettersObserved in reasons <==> !NoDeadLetters(run)
    ensures BacklogExceeded in reasons <==> !BacklogBounded(run)
    ensures OldestAgeExceeded in reasons <==> !AgeBounded(run)
  {
    hide InBounds, ScaledOut, Recovered, Covered, NoDeadLetters, BacklogBounded, AgeBounded, AtMinimum, Reasons,
         CapacityReasons, TreatmentRun.UsesRequestTimings, TreatmentRun.Load, TreatmentRun.Duration;
    forall r: Reason ensures Listed(run, p, common, longest, first, reasons, r) {
      CapacityReasonListedIff(run, p, common, longest, first, r);
      ReasonListedIff(run, p, common, longest, first, BacklogBounded(run), AgeBounded(run), r);
    }
    forall name ensures CommonGuardrail(name) in reasons <==> CommonGuardrail(name) in common {
      assert Listed(run, p, common, longest, first, reasons, CommonGuardrail(name));
    }
    assert Listed(run, p, common, longest, first, reasons, InitialCapacityNotMinimum);
    assert Listed(run, p, common, longest, first, reasons, CapacityOutOfBounds);
    assert Listed(run, p, common, longest, first, reasons, ScaleOutNotObserved);
    assert Listed(run, p, common, longest, first, reasons, PeakWindowTooShort);
    assert Listed(run, p, common, longest, first, reasons, RecoveryNotObserved);
    assert Listed(run, p, common, longest, first, reasons, CoverageIncomplete);
    assert Listed(run, p, common, longest, first, reasons, WindowIncomplete);
    assert Listed(run, p, common, longest, first, reasons, DeadLettersObserved);
    assert Listed(run, p, common, longest, first, reasons, BacklogExceeded);
    assert Listed(run, p, common, longest, first, reasons, OldestAgeExceeded);
  }

  /** The reason is in the list exactly when it was there before or its own condition failed. */
  ghost predicate Listed(run: TreatmentRun, p: Policy, common: seq<Reason>, longest: real, first: nat,
                         reasons: seq<Reason>, r: Reason)
    requires run.steps != []
    requires |run.visible| == |run.workers| && |run.inFlight| == |run.workers| && |run.delayed| == |run.workers|
  {
    r in reasons <==>
    || r in common
    || match r
       case CommonGuardrail(_) => false
       case InitialCapacityNotMinimum => run.observations == [] || !AtMinimum(run.observations[0], p)
       case CapacityOutOfBounds => !InBounds(run, p)
       case ScaleOutNotObserved => !ScaledOut(run, p)
       case PeakWindowTooShort => run.UsesRequestTimings() && longest < MINIMUM_PEAK
       case RecoveryNotObserved => !Recovered(run, p, run.Load(), first)
       case CoverageIncomplete => !Covered(run)
       case WindowIncomplete => run.loadEnd < run.Duration()
       case DeadLettersObserved => !NoDeadLetters(run)
       case BacklogExceeded => !BacklogBounded(run)
       case OldestAgeExceeded => !AgeBounded(run)
  }

  lemma SingleConditions(run: TreatmentRun, p: Policy)
    requires run.Valid()
    ensures run.UsesRequestTimings() <==> run.demoV5 || run.demoV6
    ensures NoDeadLetters(run) <==> !exists o <- run.observations :: o.deadLetters != 0
    ensures AgeBounded(run) <==> !exists w <- run.oldestAge :: w.value > 180.0
    ensures run.observations != [] ==> (AtMinimum(run.observations[0], p) <==> CapacityIs(run.observations[0], p.minimum))
    ensures run.steps != []
    ensures |run.visible| == |run.workers| && |run.inFlight| == |run.workers| && |run.delayed| == |run.workers|
  {
  }

  lemma CapacityMeans(run: TreatmentRun, p: Policy, common: seq<Reason>, longest: real, first: nat, reasons: seq<Reason>)
    requires run.Valid() && forall r <- common :: r.CommonGuardrail?
    requires Qualification(run, p, common, longest, first, reasons)
    ensures CapacityReasonsMean(run, p, reasons)
  {
    SingleConditions(run, p);
    ReasonsListed(run, p, common, longest, first, reasons);
    ScaledOutIff(run, p);
    InBoundsIff(run, p);
    HeldAtPeakIff(run, p, longest);
    RecoveredIff(run, p, first);
    hide InBounds, ScaledOut, Recovered, WithinBounds, ScaledOutLive, ScaledOutNatively, HeldAtPeak, ReturnedFrom, Reasons,
         LongestSpan, RecoverySuffix, TreatmentRun.Valid, TreatmentRun.UsesRequestTimings, AtMinimum, CapacityIs, Covered,
         BacklogBounded, AgeBounded, NoDeadLetters;
  }

  lemma EvidenceMeans(run: TreatmentRun, p: Policy, common: seq<Reason>, longest: real, first: nat, reasons: seq<Reason>)
    requires run.Valid() && forall r <- common :: r.CommonGuardrail?
    requires Qualification(run, p, common, longest, first, reasons)
    ensures EvidenceReasonsMean(run, common, reasons)
  {
    SingleConditions(run, p);
    ReasonsListed(run, p, common, longest, first, reasons);
    CoveredIff(run);
    BacklogIff(run);
    hide InBounds, ScaledOut, Recovered, Covered, ObservedThroughout, BacklogBounded, BacklogWithin, AgeBounded, NoDeadLetters,
         Reasons, LongestSpan, RecoverySuffix, TreatmentRun.Valid, TreatmentRun.UsesRequestTimings, AtMinimum;
  }

  /** Every evaluation gives each reason exactly when its condition fails on the samples and points. */
  lemma EvaluationMeans(run: TreatmentRun, p: Policy, common: seq<Reason>, longest: real, first: nat, reasons: seq<Reason>)
    requires run.Valid() && forall r <- common :: r.CommonGuardrail?
    requires Qualification(run, p, common, longest, first, reasons)
    ensures CapacityReasonsMean(run, p, reasons) && EvidenceReasonsMean(run, common, reasons)
  {
    hide Qualification, CapacityReasonsMean, EvidenceReasonsMean;
    CapacityMeans(run, p, common, longest, first, reasons);
    EvidenceMeans(run, p, common, longest, first, reasons);
  }

  /** Collect every reason to reject the run; `longest` only matters for the timed profiles. */
  method Evaluate(run: TreatmentRun, p: Policy, common: seq<Reason>)
    returns (reasons: seq<Reason>, qualified: bool, recorded: Recorded, ghost longest: real, ghost first: nat)
    requires run.Valid()
    ensures Qualification(run, p, common, longest, first, reasons)
    ensures RecordsRun(run, p, first, recorded)
    ensures qualified <==> reasons == []
    ensures (forall r <- common :: r.CommonGuardrail?) ==>
              CapacityReasonsMean(run, p, reasons) && EvidenceReasonsMean(run, common, reasons)
    ensures recorded.scaledOut <==> ScaledOutLive(run, p) && ScaledOutNatively(run, p)
    ensures recorded.recovered <==> exists f: nat, m: nat :: ReturnedFrom(run, p, f, m)
  {
    hide LongestSpan, RecoverySuffix, IsMaximum, Recovered, ScaledOut, BacklogBounded, AgeBounded, Reasons, AgesOf,
         CapacityReasonsMean, EvidenceReasonsMean, ScaledOutLive, ScaledOutNatively, ReturnedFrom;
    var load := run.Load();
    PeakSamplesOrdered(run, p);
    var span := LongestPeakSpan(load, PeakName(run.steps), p);
    var suffix := FindRecoverySuffix(load, run.RecoveryStart(), p);
    var outstanding, _, nativeWork, backlog := MaximumBacklog(run);
    var workers := MaximumOf(WorkersOf(run));
    var age := MaximumOf(AgesOf(run));
    RecordedAgeDecides(run, age);
    reasons := Reasons(run, p, common, span, suffix, backlog <= MAXIMUM_BACKLOG_EVENTS, age <= MAXIMUM_OLDEST_AGE);
    qualified := reasons == [];
    recorded := Recorded(workers, outstanding, nativeWork, age, ScaledOut(run, p), Recovered(run, p, load, suffix));
    longest, first := span, suffix;
    ScaledOutIff(run, p);
    RecoveredIff(run, p, suffix);
    if forall r <- common :: r.CommonGuardrail? {
      EvaluationMeans(run, p, common, longest, first, reasons);
    }
  }

  /** A qualified run, timed or not, ran more than the minimum during demand, live and natively. */
  lemma QualifiedRunScaledOut(run: TreatmentRun, p: Policy, common: seq<Reason>, longest: real, first: nat)
    returns (k: nat, j: nat)
    requires run.Valid() && Qualification(run, p, common, longest, first, [])
    ensures k < |run.observations| && run.observations[k].at < run.Duration() && run.observations[k].at < run.RecoveryStart()
    ensures run.observations[k].running > p.minimum && run.observations[k].desired == p.maximum
    ensures j < |run.workers| && run.workers[j].start < run.RecoveryStart() && run.workers[j].value > p.minimum as real
  {
    NoReasonIff(run, p, common, longest, first);
    ScaledOutIff(run, p);
    k :| DuringLoad(run, k) && After(run.observations[k]) < run.RecoveryStart()
      && run.observations[k].running > p.minimum && run.observations[k].desired == p.maximum;
    j :| 0 <= j < |run.workers| && run.workers[j].start < run.RecoveryStart() && run.workers[j].value > p.minimum as real;
  }
}
