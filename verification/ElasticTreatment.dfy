/** The decision whether a run showed bounded acquisition and release of worker capacity. */
module ElasticTreatment {
  import opened Wrappers
  import opened StableRuns
  import opened FixedControl
  import opened Workload

  const MAXIMUM_BACKLOG_EVENTS := 1500.0
  const MAXIMUM_OLDEST_AGE := 180.0
  const MAXIMUM_GAP := 30.0
  const MINIMUM_RECOVERY := 60.0
  const MINIMUM_PEAK := 60.0

  /** One native minute bucket; `start` is seconds after load start. */
  datatype Point = Point(start: real, value: real)

  datatype Policy = Policy(minimum: nat, maximum: nat)

  /** The validated inputs of one evaluation. */
  datatype TreatmentRun = TreatmentRun(
    steps: seq<Step>,
    demoV5: bool,
    demoV6: bool,
    loadEnd: real,
    observations: seq<Observation>,
    workers: seq<Point>,
    visible: seq<Point>,
    inFlight: seq<Point>,
    delayed: seq<Point>,
    oldestAge: seq<Point>)
  {
    /** Guaranteed by the validators of the definition, the result and the native evidence. */
    ghost predicate Valid() {
      && ValidSteps(steps)
      && |steps| >= 5
      && !(demoV5 && demoV6)
      && (forall i, j :: 0 <= i < j < |observations| ==> observations[i].at < observations[j].at)
      && workers != []
      && |visible| == |workers| && |inFlight| == |workers| && |delayed| == |workers|
      && |oldestAge| == |workers|
    }

    predicate UsesRequestTimings() {
      demoV5 || demoV6
    }

    function Duration(): real {
      StartTime(steps, |steps|) as real
    }

    function RecoveryStart(): real
      requires steps != []
    {
      StartTime(steps, |steps| - 1) as real
    }

    /** The samples taken while load was offered. */
    function Load(): seq<Observation> {
      During(observations, Duration())
    }
  }

  /** `seconds_after_load_started`, as the collector clamps it. */
  function Seconds(o: Observation): real {
    Max(0.0, o.at)
  }

  function During(obs: seq<Observation>, duration: real): seq<Observation> {
    if obs == [] then []
    else
      var last := obs[|obs| - 1];
      During(obs[..|obs| - 1], duration) + if 0.0 <= Seconds(last) < duration then [last] else []
  }

  lemma {:induction false} DuringIsPrefix(obs: seq<Observation>, duration: real)
    requires forall i, j :: 0 <= i < j < |obs| ==> obs[i].at < obs[j].at
    ensures During(obs, duration) <= obs
    ensures forall o <- During(obs, duration) :: Seconds(o) < duration
    ensures forall k :: 0 <= k < |obs| && Seconds(obs[k]) < duration ==> k < |During(obs, duration)|
  {
    if obs != [] {
      DuringIsPrefix(obs[..|obs| - 1], duration);
      assert obs[..|obs| - 1] + [obs[|obs| - 1]] == obs;
    }
  }

  predicate AtMinimum(o: Observation, p: Policy) {
    o.desired == p.minimum && o.running == p.minimum && o.starting == 0
  }

  predicate AtMaximum(o: Observation, p: Policy) {
    o.desired == p.maximum && o.running == p.maximum && o.starting == 0
  }

  /** The first step with the highest offered rate. */
  function PeakIndex(steps: seq<Step>, n: nat): (k: nat)
    requires 0 < n <= |steps|
    ensures k < n
    ensures forall j :: 0 <= j < n ==> steps[j].rate <= steps[k].rate
    ensures forall j :: 0 <= j < k ==> steps[j].rate < steps[k].rate
  {
    if n == 1 then 0
    else
      var k := PeakIndex(steps, n - 1);
      if steps[n - 1].rate > steps[k].rate then n - 1 else k
  }

  function PeakName(steps: seq<Step>): string
    requires steps != []
  {
    steps[PeakIndex(steps, |steps|)].name
  }

  function PeakSamples(load: seq<Observation>, peak: string, p: Policy): (s: seq<Sample>)
    ensures |s| == |load|
    ensures forall i :: 0 <= i < |load| ==> s[i] == Sample(Seconds(load[i]), load[i].step == peak && AtMaximum(load[i], p))
  {
    seq(|load|, i requires 0 <= i < |load| => Sample(Seconds(load[i]), load[i].step == peak && AtMaximum(load[i], p)))
  }

  /** `span` is the longest time any closely sampled good run lasts, or zero. */
  ghost predicate LongestSpan(s: seq<Sample>, limit: GapLimit, span: real) {
    && (forall i: nat, j: nat :: Run(s, limit, i, j) ==> s[j].at - s[i].at <= span)
    && (span == 0.0 || exists i: nat, j: nat :: Confirms(s, limit, span, i, j))
    && span >= 0.0
  }

  /** How long the stretch ending at sample j has lasted. */
  function SpanAt(s: seq<Sample>, limit: GapLimit, j: nat): real
    requires j < |s|
  {
    var start := RunStart(s, limit, j);
    if start.Some? && start.value <= j then s[j].at - s[start.value].at else 0.0
  }

  function LongestBefore(s: seq<Sample>, limit: GapLimit, n: nat): real
    requires n <= |s|
  {
    if n == 0 then 0.0 else Max(LongestBefore(s, limit, n - 1), SpanAt(s, limit, n - 1))
  }

  lemma {:induction false} LongestBeforeBounds(s: seq<Sample>, limit: GapLimit, n: nat, j: nat)
    requires n <= |s|
    ensures LongestBefore(s, limit, n) >= 0.0
    ensures j < n ==> SpanAt(s, limit, j) <= LongestBefore(s, limit, n)
  {
    if n > 0 {
      LongestBeforeBounds(s, limit, n - 1, j);
    }
  }

  lemma {:induction false} LongestBeforeAttained(s: seq<Sample>, limit: GapLimit, n: nat)
    requires n <= |s|
    ensures LongestBefore(s, limit, n) == 0.0
            || exists i: nat, j: nat :: Confirms(s, limit, LongestBefore(s, limit, n), i, j)
  {
    if n > 0 {
      LongestBeforeAttained(s, limit, n - 1);
      RunStartIsRun(s, limit, n - 1);
      if LongestBefore(s, limit, n) == SpanAt(s, limit, n - 1) && s[n - 1].good {
        assert Confirms(s, limit, LongestBefore(s, limit, n), RunStart(s, limit, n - 1).value, n - 1);
      }
    }
  }

  /** The running maximum over stretch ends is the longest span over all runs. */
  lemma LongestBeforeIsLongest(s: seq<Sample>, limit: GapLimit)
    requires NonDecreasing(s)
    ensures LongestSpan(s, limit, LongestBefore(s, limit, |s|))
  {
    LongestBeforeBounds(s, limit, |s|, 0);
    LongestBeforeAttained(s, limit, |s|);
    forall i: nat, j: nat | Run(s, limit, i, j)
      ensures s[j].at - s[i].at <= LongestBefore(s, limit, |s|)
    {
      RunStartIsLeast(s, limit, i, j);
      RunStartIsRun(s, limit, j);
      LongestBeforeBounds(s, limit, |s|, j);
    }
  }

  /** Restart the stretch after a gap or a sample that is not at full capacity. */
  method LongestPeakSpan(load: seq<Observation>, peak: string, p: Policy) returns (longest: real)
    requires NonDecreasing(PeakSamples(load, peak, p))
    ensures LongestSpan(PeakSamples(load, peak, p), Some(MAXIMUM_GAP), longest)
  {
    hide RunStart, AtMaximum, LongestSpan, NonDecreasing;
    ghost var s := PeakSamples(load, peak, p);
    ghost var limit := Some(MAXIMUM_GAP);
    var stable: seq<Observation> := [];
    longest := 0.0;
    for n := 0 to |load|
      invariant longest == LongestBefore(s, limit, n)
      invariant n == 0 ==> stable == []
      invariant n > 0 ==> match RunStart(s, limit, n - 1)
                          case None => stable == []
                          case Some(i) => i < n && stable != [] && stable[0] == load[i] && stable[|stable| - 1] == load[n - 1]
    {
      var item := load[n];
      RunStartStep(s, limit, n);
      if item.step == peak && AtMaximum(item, p) {
        if stable != [] && Seconds(item) - Seconds(stable[|stable| - 1]) > MAXIMUM_GAP {
          stable := [];
        }
        stable := stable + [item];
        longest := Max(longest, Seconds(item) - Seconds(stable[0]));
      } else {
        stable := [];
        LongestBeforeBounds(s, limit, n, n);
      }
    }
    LongestBeforeIsLongest(s, limit);
  }

  predicate InRecovery(o: Observation, recoveryStart: real, p: Policy) {
    Seconds(o) >= recoveryStart && AtMinimum(o, p)
  }

  /** `first` is where the minimum-capacity suffix of the load begins (its length when there is none). */
  predicate RecoverySuffix(load: seq<Observation>, recoveryStart: real, p: Policy, first: nat) {
    && first <= |load|
    && (forall k :: first <= k < |load| ==> InRecovery(load[k], recoveryStart, p))
    && (first > 0 ==> !InRecovery(load[first - 1], recoveryStart, p))
  }

  /** Walk back from the end of the load. */
  method FindRecoverySuffix(load: seq<Observation>, recoveryStart: real, p: Policy) returns (first: nat)
    ensures RecoverySuffix(load, recoveryStart, p, first)
  {
    first := |load|;
    while first > 0
      invariant first <= |load|
      invariant forall k :: first <= k < |load| ==> InRecovery(load[k], recoveryStart, p)
    {
      if Seconds(load[first - 1]) < recoveryStart || !AtMinimum(load[first - 1], p) {
        break;
      }
      first := first - 1;
    }
  }

  /** A native point that corroborates the return, by the rule of the definition's version. */
  predicate Corroborates(run: TreatmentRun, load: seq<Observation>, first: nat, point: Point)
    requires run.steps != []
  {
    if run.demoV6 then first < |load| && point.start >= load[first].at && point.start < run.Duration()
    else point.start >= run.RecoveryStart() && point.start + 60.0 <= run.Duration()
  }

  function LastCorroborating(run: TreatmentRun, load: seq<Observation>, first: nat, n: nat): (k: Option<nat>)
    requires run.steps != [] && n <= |run.workers|
    ensures k.Some? ==> k.value < n && Corroborates(run, load, first, run.workers[k.value])
    ensures forall j :: 0 <= j < n && (k.None? || k.value < j) ==> !Corroborates(run, load, first, run.workers[j])
  {
    if n == 0 then None
    else if Corroborates(run, load, first, run.workers[n - 1]) then Some(n - 1)
    else LastCorroborating(run, load, first, n - 1)
  }

  predicate Recovered(run: TreatmentRun, p: Policy, load: seq<Observation>, first: nat)
    requires run.steps != []
  {
    var native := LastCorroborating(run, load, first, |run.workers|);
    && |load| - first >= 2
    && Seconds(load[|load| - 1]) - Seconds(load[first]) >= MINIMUM_RECOVERY
    && run.Duration() - Seconds(load[|load| - 1]) <= MAXIMUM_GAP
    && native.Some?
    && Abs(run.workers[native.value].value - p.minimum as real) <= 0.01
    && run.observations != []
    && AtMinimum(run.observations[|run.observations| - 1], p)
  }

  predicate InBounds(run: TreatmentRun, p: Policy) {
    && (forall o <- run.observations ::
          p.minimum <= o.desired <= p.maximum && p.minimum <= o.running <= p.maximum && o.starting <= p.maximum)
    && (forall w <- run.workers :: p.minimum as real <= w.value <= p.maximum as real)
  }

  predicate ScaledOut(run: TreatmentRun, p: Policy)
    requires run.steps != []
  {
    && (exists o <- run.Load() ::
          o.running > p.minimum && o.desired == p.maximum && Seconds(o) < run.RecoveryStart())
    && (exists w <- run.workers :: w.value > p.minimum as real && w.start < run.RecoveryStart())
  }

  predicate Covered(run: TreatmentRun) {
    var load := run.Load();
    && load != []
    && Seconds(load[0]) <= MAXIMUM_GAP
    && run.Duration() - Seconds(load[|load| - 1]) <= MAXIMUM_GAP
    && forall k :: 0 < k < |run.observations| ==> run.observations[k].at - run.observations[k - 1].at <= MAXIMUM_GAP
  }

  function Outstanding(o: Observation): int {
    if o.persisted > o.completed then o.persisted - o.completed else 0
  }

  function NativeQueueWork(run: TreatmentRun, k: nat): real
    requires k < |run.visible| && k < |run.inFlight| && k < |run.delayed|
  {
    run.visible[k].value + run.inFlight[k].value + run.delayed[k].value
  }

  /** No live or native reading of unfinished work exceeds the bound. */
  predicate BacklogBounded(run: TreatmentRun)
    requires |run.visible| == |run.workers| && |run.inFlight| == |run.workers| && |run.delayed| == |run.workers|
  {
    && (forall o <- run.observations ::
          Outstanding(o) as real <= MAXIMUM_BACKLOG_EVENTS && o.QueueWork() as real <= MAXIMUM_BACKLOG_EVENTS)
    && (forall k :: 0 <= k < |run.workers| ==> NativeQueueWork(run, k) <= MAXIMUM_BACKLOG_EVENTS)
  }

  predicate NoDeadLetters(run: TreatmentRun) {
    forall o <- run.observations :: o.deadLetters == 0
  }

  predicate AgeBounded(run: TreatmentRun) {
    forall w <- run.oldestAge :: w.value <= MAXIMUM_OLDEST_AGE
  }

  datatype Reason =
    | CommonGuardrail(name: string)
    | InitialCapacityNotMinimum
    | CapacityOutOfBounds
    | ScaleOutNotObserved
    | PeakWindowTooShort
    | RecoveryNotObserved
    | CoverageIncomplete
    | WindowIncomplete
    | DeadLettersObserved
    | BacklogExceeded
    | OldestAgeExceeded

  function Appended(reasons: seq<Reason>, failed: bool, reason: Reason): (all: seq<Reason>)
    ensures all == [] <==> reasons == [] && !failed
  {
    if failed then reasons + [reason] else reasons
  }

  /** The largest of the values, zero for none. */
  predicate IsMaximum(values: seq<real>, max: real) {
    if values == [] then max == 0.0 else max in values && forall v <- values :: v <= max
  }

  method MaximumOf(values: seq<real>) returns (max: real)
    ensures IsMaximum(values, max)
  {
    if values == [] {
      return 0.0;
    }
    max := values[0];
    for k := 1 to |values|
      invariant max in values[..k] && forall j :: 0 <= j < k ==> values[j] <= max
    {
      if values[k] > max {
        max := values[k];
      }
      assert values[..k + 1] == values[..k] + [values[k]];
    }
    assert values[..|values|] == values;
  }

  function OutstandingOf(run: TreatmentRun): (values: seq<real>)
    ensures |values| == |run.observations|
    ensures forall k :: 0 <= k < |values| ==> values[k] == Outstanding(run.observations[k]) as real
  {
    seq(|run.observations|, k requires 0 <= k < |run.observations| => Outstanding(run.observations[k]) as real)
  }

  function SourceWorkOf(run: TreatmentRun): (values: seq<real>)
    ensures |values| == |run.observations|
    ensures forall k :: 0 <= k < |values| ==> values[k] == run.observations[k].QueueWork() as real
  {
    seq(|run.observations|, k requires 0 <= k < |run.observations| => run.observations[k].QueueWork() as real)
  }

  function NativeWorkOf(run: TreatmentRun): (values: seq<real>)
    requires |run.visible| == |run.workers| && |run.inFlight| == |run.workers| && |run.delayed| == |run.workers|
    ensures |values| == |run.workers|
    ensures forall k :: 0 <= k < |values| ==> values[k] == NativeQueueWork(run, k)
  {
    seq(|run.workers|, k requires 0 <= k < |run.workers| => NativeQueueWork(run, k))
  }

  function WorkersOf(run: TreatmentRun): seq<real> {
    seq(|run.observations|, k requires 0 <= k < |run.observations| => run.observations[k].running as real)
  }

  function AgesOf(run: TreatmentRun): (values: seq<real>)
    ensures |values| == |run.oldestAge|
    ensures forall k :: 0 <= k < |values| ==> values[k] == run.oldestAge[k].value
  {
    seq(|run.oldestAge|, k requires 0 <= k < |run.oldestAge| => run.oldestAge[k].value)
  }

  /** The three largest backlogs, each of its own kind, and the largest of them. */
  method MaximumBacklog(run: TreatmentRun) returns (outstanding: real, sourceWork: real, nativeWork: real, backlog: real)
    requires run.Valid()
    ensures IsMaximum(OutstandingOf(run), outstanding)
    ensures IsMaximum(SourceWorkOf(run), sourceWork)
    ensures IsMaximum(NativeWorkOf(run), nativeWork)
    ensures IsMaximum([outstanding, sourceWork, nativeWork], backlog)
    ensures backlog > MAXIMUM_BACKLOG_EVENTS <==> !BacklogBounded(run)
  {
    outstanding := MaximumOf(OutstandingOf(run));
    sourceWork := MaximumOf(SourceWorkOf(run));
    nativeWork := MaximumOf(NativeWorkOf(run));
    backlog := MaximumOf([outstanding, sourceWork, nativeWork]);
    MaximaDecideBacklog(run, outstanding, sourceWork, nativeWork);
    assert backlog > MAXIMUM_BACKLOG_EVENTS <==>
           outstanding > MAXIMUM_BACKLOG_EVENTS || sourceWork > MAXIMUM_BACKLOG_EVENTS
           || nativeWork > MAXIMUM_BACKLOG_EVENTS by {
      LargestExceeds([outstanding, sourceWork, nativeWork], backlog, MAXIMUM_BACKLOG_EVENTS);
      assert [outstanding, sourceWork, nativeWork][0] == outstanding && [outstanding, sourceWork, nativeWork][1] == sourceWork
             && [outstanding, sourceWork, nativeWork][2] == nativeWork;
    }
  }

  /** A nonnegative bound is exceeded by the largest value exactly when some value exceeds it. */
  lemma LargestExceeds(values: seq<real>, max: real, bound: real)
    requires IsMaximum(values, max) && bound >= 0.0
    ensures max > bound <==> exists k :: 0 <= k < |values| && values[k] > bound
  {
    if max > bound {
      var k :| 0 <= k < |values| && values[k] == max;
    }
    if k :| 0 <= k < |values| && values[k] > bound {
      assert values[k] in values;
    }
  }

  lemma MaximaDecideBacklog(run: TreatmentRun, outstanding: real, sourceWork: real, nativeWork: real)
    requires run.Valid()
    requires IsMaximum(OutstandingOf(run), outstanding) && IsMaximum(SourceWorkOf(run), sourceWork)
    requires IsMaximum(NativeWorkOf(run), nativeWork)
    ensures BacklogBounded(run) <==>
            !(outstanding > MAXIMUM_BACKLOG_EVENTS || sourceWork > MAXIMUM_BACKLOG_EVENTS
              || nativeWork > MAXIMUM_BACKLOG_EVENTS)
  {
    LargestExceeds(OutstandingOf(run), outstanding, MAXIMUM_BACKLOG_EVENTS);
    LargestExceeds(SourceWorkOf(run), sourceWork, MAXIMUM_BACKLOG_EVENTS);
    LargestExceeds(NativeWorkOf(run), nativeWork, MAXIMUM_BACKLOG_EVENTS);
    hide IsMaximum;
    if BacklogBounded(run) {
      forall k | 0 <= k < |run.observations|
        ensures OutstandingOf(run)[k] <= MAXIMUM_BACKLOG_EVENTS && SourceWorkOf(run)[k] <= MAXIMUM_BACKLOG_EVENTS
      {
        assert run.observations[k] in run.observations;
      }
    } else if !(forall k :: 0 <= k < |run.workers| ==> NativeQueueWork(run, k) <= MAXIMUM_BACKLOG_EVENTS) {
      var k :| 0 <= k < |run.workers| && NativeQueueWork(run, k) > MAXIMUM_BACKLOG_EVENTS;
      assert NativeWorkOf(run)[k] > MAXIMUM_BACKLOG_EVENTS;
    } else {
      var o :| o in run.observations
               && !(Outstanding(o) as real <= MAXIMUM_BACKLOG_EVENTS && o.QueueWork() as real <= MAXIMUM_BACKLOG_EVENTS);
      var k :| 0 <= k < |run.observations| && run.observations[k] == o;
      assert OutstandingOf(run)[k] > MAXIMUM_BACKLOG_EVENTS || SourceWorkOf(run)[k] > MAXIMUM_BACKLOG_EVENTS;
    }
  }

  /** The reasons about worker capacity, in the order the evaluation appends them. */
  function CapacityReasons(run: TreatmentRun, p: Policy, common: seq<Reason>, longest: real, first: nat): seq<Reason>
    requires run.steps != []
  {
    var initial := Appended(common, run.observations == [] || !AtMinimum(run.observations[0], p), InitialCapacityNotMinimum);
    var bounded := Appended(initial, !InBounds(run, p), CapacityOutOfBounds);
    var scaled := Appended(bounded, !ScaledOut(run, p), ScaleOutNotObserved);
    var held := Appended(scaled, run.UsesRequestTimings() && longest < MINIMUM_PEAK, PeakWindowTooShort);
    Appended(held, !Recovered(run, p, run.Load(), first), RecoveryNotObserved)
  }

  /** Those reasons and then the ones about evidence and backlog. */
  function Reasons(run: TreatmentRun, p: Policy, common: seq<Reason>, longest: real, first: nat,
                   backlogBounded: bool, ageBounded: bool): seq<Reason>
    requires run.steps != []
  {
    var covered := Appended(CapacityReasons(run, p, common, longest, first), !Covered(run), CoverageIncomplete);
    var complete := Appended(covered, run.loadEnd < run.Duration(), WindowIncomplete);
    var delivered := Appended(complete, !NoDeadLetters(run), DeadLettersObserved);
    Appended(Appended(delivered, !backlogBounded, BacklogExceeded), !ageBounded, OldestAgeExceeded)
  }

  /** What each elasticity condition means; `longest` and `first` come from the two scans. */
  ghost predicate Qualification(run: TreatmentRun, p: Policy, common: seq<Reason>, longest: real, first: nat, reasons: seq<Reason>)
    requires run.Valid()
  {
    && LongestSpan(PeakSamples(run.Load(), PeakName(run.steps), p), Some(MAXIMUM_GAP), longest)
    && RecoverySuffix(run.Load(), run.RecoveryStart(), p, first)
    && reasons == Reasons(run, p, common, longest, first, BacklogBounded(run), AgeBounded(run))
  }

  /** There is no reason to reject the run exactly when every single condition held. */
  lemma NoReasonIff(run: TreatmentRun, p: Policy, common: seq<Reason>, longest: real, first: nat)
    requires run.Valid()
    ensures Reasons(run, p, common, longest, first, BacklogBounded(run), AgeBounded(run)) == [] <==>
              && common == []
              && run.observations != [] && AtMinimum(run.observations[0], p)
              && InBounds(run, p) && ScaledOut(run, p)
              && (run.UsesRequestTimings() ==> longest >= MINIMUM_PEAK)
              && Recovered(run, p, run.Load(), first) && Covered(run)
              && run.loadEnd >= run.Duration()
              && NoDeadLetters(run) && BacklogBounded(run) && AgeBounded(run)
  {
    hide InBounds, ScaledOut, Recovered, Covered, NoDeadLetters, BacklogBounded, AgeBounded, AtMinimum;
  }

  lemma PeakSamplesOrdered(run: TreatmentRun, p: Policy)
    requires run.Valid()
    ensures NonDecreasing(PeakSamples(run.Load(), PeakName(run.steps), p))
  {
    DuringIsPrefix(run.observations, run.Duration());
  }

  /** What the decision records beside its reasons. */
  datatype Recorded = Recorded(
    workers: real,
    outstanding: real,
    nativeWork: real,
    oldestAge: real,
    scaledOut: bool,
    recovered: bool)

  ghost predicate RecordsRun(run: TreatmentRun, p: Policy, first: nat, recorded: Recorded)
    requires run.Valid()
  {
    && IsMaximum(WorkersOf(run), recorded.workers)
    && IsMaximum(OutstandingOf(run), recorded.outstanding)
    && IsMaximum(NativeWorkOf(run), recorded.nativeWork)
    && IsMaximum(AgesOf(run), recorded.oldestAge)
    && recorded.scaledOut == ScaledOut(run, p)
    && recorded.recovered == Recovered(run, p, run.Load(), first)
  }

  /** The recorded age decides the age bound. */
  lemma RecordedAgeDecides(run: TreatmentRun, age: real)
    requires IsMaximum(AgesOf(run), age)
    ensures AgeBounded(run) <==> age <= MAXIMUM_OLDEST_AGE
  {
    LargestExceeds(AgesOf(run), age, MAXIMUM_OLDEST_AGE);
    if AgeBounded(run) {
      forall k | 0 <= k < |run.oldestAge| ensures AgesOf(run)[k] <= MAXIMUM_OLDEST_AGE {
        assert run.oldestAge[k] in run.oldestAge;
      }
    } else {
      var w :| w in run.oldestAge && w.value > MAXIMUM_OLDEST_AGE;
      var k :| 0 <= k < |run.oldestAge| && run.oldestAge[k] == w;
      assert AgesOf(run)[k] > MAXIMUM_OLDEST_AGE;
    }
  }

  // ----- what qualification of a timed profile forces -----

  /** Minimum, then a sustained maximum inside the peak, then minimum to the end, without blind spots. */
  ghost predicate Trajectory(run: TreatmentRun, p: Policy, i: nat, j: nat, f: nat, m: nat)
    requires run.Valid()
  {
    var obs := run.observations;
    && 0 < i <= j < f < m <= |obs|
    && AtMinimum(obs[0], p)
    && (forall k :: i <= k <= j ==> AtMaximum(obs[k], p) && obs[k].step == PeakName(run.steps))
    && Seconds(obs[j]) - Seconds(obs[i]) >= MINIMUM_PEAK
    && (forall k :: f <= k < m ==> AtMinimum(obs[k], p) && Seconds(obs[k]) >= run.RecoveryStart())
    && Seconds(obs[m - 1]) - Seconds(obs[f]) >= MINIMUM_RECOVERY
    && Seconds(obs[m - 1]) < run.Duration() <= Seconds(obs[m - 1]) + MAXIMUM_GAP
    && AtMinimum(obs[|obs| - 1], p)
    && Seconds(obs[0]) <= MAXIMUM_GAP
    && (forall k :: 0 < k < |obs| ==> obs[k].at - obs[k - 1].at <= MAXIMUM_GAP)
  }

  lemma PeakRunBeforeRecovery(load: seq<Observation>, peak: string, recoveryStart: real, p: Policy, longest: real, first: nat)
    returns (i: nat, j: nat)
    requires p.minimum != p.maximum && load != [] && AtMinimum(load[0], p)
    requires LongestSpan(PeakSamples(load, peak, p), Some(MAXIMUM_GAP), longest) && longest >= MINIMUM_PEAK
    requires RecoverySuffix(load, recoveryStart, p, first)
    ensures 0 < i <= j < first
    ensures forall k :: i <= k <= j ==> AtMaximum(load[k], p) && load[k].step == peak
    ensures Seconds(load[j]) - Seconds(load[i]) >= MINIMUM_PEAK
  {
    var s := PeakSamples(load, peak, p);
    i, j :| Confirms(s, Some(MAXIMUM_GAP), longest, i, j);
    forall k | i <= k <= j ensures AtMaximum(load[k], p) && load[k].step == peak {
      assert s[k].good;
    }
    assert AtMaximum(load[i], p) && AtMaximum(load[j], p);
  }

  lemma LoadFacts(run: TreatmentRun, load: seq<Observation>)
    requires run.Valid() && load == run.Load()
    ensures |load| <= |run.observations|
    ensures forall k :: 0 <= k < |load| ==> load[k] == run.observations[k] && Seconds(load[k]) < run.Duration()
  {
    DuringIsPrefix(run.observations, run.Duration());
    forall k | 0 <= k < |load| ensures load[k] == run.observations[k] && Seconds(load[k]) < run.Duration() {
      assert load[k] in load;
    }
  }

  lemma LoadTrajectory(run: TreatmentRun, p: Policy, load: seq<Observation>, i: nat, j: nat, f: nat)
    requires run.Valid() && load == run.Load() && run.observations != []
    requires AtMinimum(run.observations[0], p)
    requires 0 < i <= j < f < |load|
    requires forall k :: i <= k <= j ==> AtMaximum(load[k], p) && load[k].step == PeakName(run.steps)
    requires Seconds(load[j]) - Seconds(load[i]) >= MINIMUM_PEAK
    requires RecoverySuffix(load, run.RecoveryStart(), p, f)
    requires Recovered(run, p, load, f) && Covered(run)
    ensures Trajectory(run, p, i, j, f, |load|)
  {
    LoadFacts(run, load);
    forall k | f <= k < |load| ensures InRecovery(run.observations[k], run.RecoveryStart(), p) {
      assert InRecovery(load[k], run.RecoveryStart(), p);
    }
  }

  /** A qualified timed run really went from minimum to maximum and back. */
  lemma QualifiedTrajectory(run: TreatmentRun, p: Policy, common: seq<Reason>, longest: real, first: nat)
    returns (i: nat, j: nat, m: nat)
    requires run.Valid() && run.UsesRequestTimings() && p.minimum < p.maximum
    requires Qualification(run, p, common, longest, first, [])
    ensures m == |run.Load()| && Trajectory(run, p, i, j, first, m)
  {
    var load := run.Load();
    NoReasonIff(run, p, common, longest, first);
    LoadFacts(run, load);
    m := |load|;
    i, j := PeakRunBeforeRecovery(load, PeakName(run.steps), run.RecoveryStart(), p, longest, first);
    LoadTrajectory(run, p, load, i, j, first);
  }
}
