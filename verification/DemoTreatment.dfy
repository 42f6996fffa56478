/** A demo run that qualifies: one worker, eight through the peak, one again, sampled every thirty seconds. */
module DemoTreatment {
  import opened Wrappers
  import opened StableRuns
  import opened Workload
  import opened FixedControl
  import opened ElasticTreatment

  const POLICY := Policy(1, 8)

  /** The frozen 630-second waveform of the short demos. */
  const STEPS := [
    Step("baseline", 1, 30, 30),
    Step("rise-5", 5, 30, 150),
    Step("rise-10", 10, 30, 300),
    Step("peak-25", 25, 180, 4500),
    Step("fall-10", 10, 30, 300),
    Step("fall-5", 5, 30, 150),
    Step("recovery", 1, 300, 300)]

  function StepAt(k: nat): string {
    if k < 3 then STEPS[k].name
    else if k < 9 then STEPS[3].name
    else if k < 11 then STEPS[k - 5].name
    else if k < 21 then STEPS[6].name
    else "post-load"
  }

  /** The sample taken 30 k seconds after load start. */
  function SampleAt(k: nat): Observation {
    var workers := if 3 <= k < 9 then 8 else 1;
    Observation(30.0 * k as real, StepAt(k), 0, 0, 0, 0, 0, 0, 0, 0, workers, workers, 0)
  }

  function Buckets(values: nat -> real): (points: seq<Point>)
    ensures |points| == 11
    ensures forall k :: 0 <= k < 11 ==> points[k] == Point(60.0 * k as real, values(k))
  {
    seq(11, (k: nat) => Point(60.0 * k as real, values(k)))
  }

  function Timeline(): (obs: seq<Observation>)
    ensures |obs| == 22 && forall k :: 0 <= k < 22 ==> obs[k] == SampleAt(k)
  {
    seq(22, (k: nat) => SampleAt(k))
  }

  function DemoRun(): TreatmentRun {
    var idle := Buckets(_ => 0.0);
    TreatmentRun(STEPS, false, true, 630.0, Timeline(),
                 Buckets(k => if 2 <= k < 5 then 8.0 else 1.0), idle, idle, idle, idle)
  }

  lemma StepNames()
    ensures forall s <- STEPS :: ValidName(s.name)
    ensures DistinctNames(STEPS)
  {
    assert forall k :: 0 <= k < 7 ==> ValidName(STEPS[k].name);
    NamesDiffer();
  }

  /** Told apart by length and the letters that start them. */
  lemma NamesDiffer()
    ensures DistinctNames(STEPS)
  {
    hide ValidName;
    assert |STEPS[0].name| == 8 && STEPS[0].name[0] == 'b' && |STEPS[6].name| == 8 && STEPS[6].name[0] == 'r';
    assert |STEPS[1].name| == 6 && STEPS[1].name[0] == 'r' && |STEPS[5].name| == 6 && STEPS[5].name[0] == 'f';
    assert |STEPS[2].name| == 7 && STEPS[2].name[0] == 'r' && |STEPS[4].name| == 7 && STEPS[4].name[0] == 'f';
    assert |STEPS[3].name| == 7 && STEPS[3].name[0] == 'p';
  }

  lemma StepTimes()
    ensures StartTime(STEPS, 3) == 90 && StartTime(STEPS, 6) == 330 && StartTime(STEPS, 7) == 630
  {
    assert StartTime(STEPS, 1) == 30 && StartTime(STEPS, 2) == 60 && StartTime(STEPS, 3) == 90;
    assert StartTime(STEPS, 4) == 270 && StartTime(STEPS, 5) == 300 && StartTime(STEPS, 6) == 330;
  }

  lemma DemoIsValid()
    ensures DemoRun().Valid() && DemoRun().UsesRequestTimings()
  {
    StepNames();
  }

  /** The samples before second 630, without the one taken after the load. */
  lemma DemoLoad()
    ensures DemoRun().Load() == Timeline()[..21] && DemoRun().Duration() == 630.0 && DemoRun().RecoveryStart() == 330.0
  {
    StepTimes();
    hide StartTime;
    var obs := Timeline();
    DuringIsPrefix(obs, 630.0);
    var load := During(obs, 630.0);
    assert Seconds(obs[20]) == 600.0 && Seconds(obs[21]) == 630.0;
    assert load == obs[..21];
  }

  lemma DemoPeak()
    ensures PeakName(STEPS) == STEPS[3].name
  {
    var k := PeakIndex(STEPS, 7);
    assert STEPS[3].rate <= STEPS[k].rate;
  }

  lemma SampleFacts(o: Observation)
    requires o in Timeline()
    ensures 1 <= o.desired <= 8 && 1 <= o.running <= 8 && o.starting == 0 && o.deadLetters == 0
    ensures Outstanding(o) == 0 && o.QueueWork() == 0
  {
    hide StepAt;
    var k :| 0 <= k < 22 && Timeline()[k] == o;
    assert o == SampleAt(k);
  }

  lemma DemoInBounds()
    ensures InBounds(DemoRun(), POLICY) && AtMinimum(Timeline()[0], POLICY) && NoDeadLetters(DemoRun())
  {
    hide SampleAt, Timeline;
    forall o | o in Timeline()
      ensures 1 <= o.desired <= 8 && 1 <= o.running <= 8 && o.starting == 0 && o.deadLetters == 0
    {
      SampleFacts(o);
    }
    assert Timeline()[0].starting == 0 && Timeline()[0] == SampleAt(0) && SampleAt(0).running == 1 by {
      FirstSample();
    }
    assert SampleAt(0).desired == 1 by {
      FirstSample();
    }
    forall w | w in DemoRun().workers ensures 1.0 <= w.value <= 8.0 {
      var k :| 0 <= k < 11 && DemoRun().workers[k] == w;
    }
  }

  lemma FirstSample()
    ensures SampleAt(0).running == 1 && SampleAt(0).desired == 1 && SampleAt(0).starting == 0
    ensures Timeline()[0] == SampleAt(0)
  {
    hide StepAt;
  }

  lemma DemoBacklog()
    ensures BacklogBounded(DemoRun()) && AgeBounded(DemoRun())
  {
    hide SampleAt, Timeline;
    forall o | o in Timeline() ensures Outstanding(o) == 0 && o.QueueWork() == 0 {
      SampleFacts(o);
    }
    hide Outstanding;
    assert forall k :: 0 <= k < 11 ==> NativeQueueWork(DemoRun(), k) == 0.0;
    forall w | w in DemoRun().oldestAge ensures w.value == 0.0 {
      var k :| 0 <= k < 11 && DemoRun().oldestAge[k] == w;
    }
  }

  lemma DemoScalesOut()
    ensures ScaledOut(DemoRun(), POLICY)
  {
    DemoLoad();
    var run := DemoRun();
    assert run.Load()[3] == SampleAt(3) && run.Load()[3] in run.Load();
    assert run.workers[2] == Point(120.0, 8.0) && run.workers[2] in run.workers;
  }

  lemma DemoCovered()
    ensures Covered(DemoRun())
  {
    hide StepAt;
    DemoLoad();
    var obs := Timeline();
    forall k | 0 < k < |obs| ensures obs[k].at - obs[k - 1].at <= MAXIMUM_GAP {
      assert obs[k] == SampleAt(k) && obs[k - 1] == SampleAt(k - 1);
    }
    assert obs[..21][0] == SampleAt(0) && obs[..21][20] == SampleAt(20);
  }

  lemma DemoRecovers()
    ensures RecoverySuffix(DemoRun().Load(), 330.0, POLICY, 11)
    ensures Recovered(DemoRun(), POLICY, DemoRun().Load(), 11)
  {
    hide StepAt;
    DemoLoad();
    var run := DemoRun();
    var load := run.Load();
    forall k | 11 <= k < 21 ensures InRecovery(load[k], 330.0, POLICY) {
      assert load[k] == SampleAt(k);
    }
    assert load[10] == SampleAt(10) && load[11] == SampleAt(11) && load[20] == SampleAt(20);
    assert Corroborates(run, load, 11, run.workers[10]);
    assert LastCorroborating(run, load, 11, 11) == Some(10);
    assert run.observations[21] == SampleAt(21);
  }

  lemma DemoPeakRun(s: seq<Sample>)
    requires s == PeakSamples(Timeline()[..21], PeakName(STEPS), POLICY)
    ensures Run(s, Some(MAXIMUM_GAP), 3, 8) && s[8].at - s[3].at == 150.0
  {
    DemoPeak();
    hide PeakName;
    forall k | 3 <= k <= 8 ensures s[k] == Sample(30.0 * k as real, true) {
      assert Timeline()[..21][k] == SampleAt(k) && SampleAt(k).step == STEPS[3].name;
    }
  }

  lemma DemoSustainsPeak() returns (longest: real)
    ensures LongestSpan(PeakSamples(DemoRun().Load(), PeakName(STEPS), POLICY), Some(MAXIMUM_GAP), longest)
    ensures longest >= MINIMUM_PEAK
  {
    DemoIsValid();
    DemoLoad();
    PeakSamplesOrdered(DemoRun(), POLICY);
    var s := PeakSamples(DemoRun().Load(), PeakName(STEPS), POLICY);
    hide PeakName, SampleAt, Timeline, Run, PeakSamples;
    LongestBeforeIsLongest(s, Some(MAXIMUM_GAP));
    longest := LongestBefore(s, Some(MAXIMUM_GAP), |s|);
    DemoPeakRun(s);
  }

  /** A timed run that qualifies: the trajectory theorem is about runs that exist. */
  lemma DemoRunQualifies() returns (longest: real)
    ensures DemoRun().Valid() && DemoRun().UsesRequestTimings()
    ensures Qualification(DemoRun(), POLICY, [], longest, 11, [])
  {
    DemoIsValid();
    DemoLoad();
    DemoInBounds();
    DemoBacklog();
    DemoScalesOut();
    DemoCovered();
    DemoRecovers();
    longest := DemoSustainsPeak();
    hide InBounds, ScaledOut, Recovered, Covered, NoDeadLetters, BacklogBounded, AgeBounded, AtMinimum, LongestSpan,
         RecoverySuffix, Reasons;
    NoReasonIff(DemoRun(), POLICY, [], longest, 11);
  }
}
