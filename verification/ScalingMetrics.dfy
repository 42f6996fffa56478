/** The quiet window that gates scale-in, and the publisher loop that feeds it. */
module ScalingMetrics {
  import opened Wrappers
  import opened StableRuns

  const QUIET_GAP := 15.0

  /** The quiet time a history of samples earns at its last sample. */
  function QuietSeconds(history: seq<Sample>): real
    requires history != []
  {
    var n := |history| - 1;
    match RunStart(history, Some(QUIET_GAP), n)
    case None => 0.0
    case Some(i) => if i <= n then Max(0.0, history[n].at - history[i].at) else 0.0
  }

  class QuietWindow {
    var since: Option<real>
    var previous: Option<real>
    /** Everything observed since construction or the last reset. */
    ghost var history: seq<Sample>

    ghost predicate Valid()
      reads this
    {
      if history == [] then since == None && previous == None
      else
        var n := |history| - 1;
        && previous == Some(history[n].at)
        && match RunStart(history, Some(QUIET_GAP), n)
           case None => since == None
           case Some(i) => i <= n && since == Some(history[i].at)
    }

    constructor ()
      ensures Valid() && history == []
    {
      since, previous := None, None;
      history := [];
    }

    method Observe(now: real, safe: bool) returns (quiet: real)
      requires Valid()
      modifies this
      ensures Valid()
      ensures history == old(history) + [Sample(now, safe)]
      ensures quiet == QuietSeconds(history)
    {
      hide RunStart, Run;
      ghost var before := history;
      history := history + [Sample(now, safe)];
      ghost var n := |before|;
      RunStartStep(history, Some(QUIET_GAP), n);
      if n > 0 {
        RunStartOfPrefix(before, history, Some(QUIET_GAP), n - 1);
      }
      if !safe || (previous.Some? && now - previous.value > QUIET_GAP) {
        since := None;
      }
      previous := Some(now);
      if !safe {
        return 0.0;
      }
      if since == None {
        since := Some(now);
      }
      quiet := Max(0.0, now - since.value);
    }

    method Reset()
      modifies this
      ensures Valid() && history == []
    {
      since, previous := None, None;
      history := [];
    }
  }

  /** On a non-decreasing clock the value is exactly the length of the maximal safe run ending now. */
  lemma QuietIsMaximalRun(history: seq<Sample>, i: nat)
    requires history != [] && NonDecreasing(history)
    requires MaximalRun(history, Some(QUIET_GAP), i, |history| - 1)
    ensures QuietSeconds(history) == history[|history| - 1].at - history[i].at
  {
    RunStartIsMaximal(history, Some(QUIET_GAP), i, |history| - 1);
  }

  /**
   A positive quiet time has evidence behind it: a run of safe samples, ending
   now, spanning that time, with enough samples to leave no gap over 15 seconds.
   No monotonic clock is needed for this direction.
   */
  lemma QuietNeedsEvidence(history: seq<Sample>, quiet: real) returns (i: nat)
    requires history != [] && quiet > 0.0
    requires QuietSeconds(history) >= quiet
    ensures Run(history, Some(QUIET_GAP), i, |history| - 1)
    ensures history[|history| - 1].at - history[i].at >= quiet
    ensures |history| - i >= Ceil(quiet / QUIET_GAP) + 1
  {
    var n := |history| - 1;
    RunStartIsRun(history, Some(QUIET_GAP), n);
    i := RunStart(history, Some(QUIET_GAP), n).value;
    SpanNeedsSamples(history, QUIET_GAP, i, n);
    assert quiet / QUIET_GAP <= (n - i) as real;
  }

  // ----- the publisher loop -----

  /** One publication slot: an exception before or after the observation, or a published value. */
  datatype Tick =
    | CollectionFailed
    | Collected(now: real, arrivalRate: real, outstanding: nat, queueWork: Option<nat>, published: bool)
  {
    /** Unknown queue work counts as infinite. */
    predicate Safe() {
      Collected? && arrivalRate < 2.0 && outstanding < 10 && queueWork.Some? && queueWork.value < 10
    }
  }

  lemma SafeIff(tick: Tick)
    ensures tick.Safe() <==> QuietTick(tick)
  {
    if tick.Collected? && tick.queueWork.Some? {
      assert tick.queueWork == Some(tick.queueWork.value);
    }
  }

  function TickSamples(ticks: seq<Tick>): (s: seq<Sample>)
    requires forall t <- ticks :: t.Collected?
    ensures |s| == |ticks|
  {
    seq(|ticks|, i requires 0 <= i < |ticks| => Sample(ticks[i].now, ticks[i].Safe()))
  }

  /** Fewer than two arrivals a second, fewer than ten unfinished events, and a known queue of fewer than ten. */
  predicate QuietTick(tick: Tick) {
    match tick
    case CollectionFailed => false
    case Collected(_, arrivalRate, outstanding, queueWork, _) =>
      arrivalRate < 2.0 && outstanding < 10 && exists work: nat :: work < 10 && queueWork == Some(work)
  }

  /** Ticks a..k form an unbroken, safe, closely sampled and published stretch. */
  ghost predicate QuietStretch(ticks: seq<Tick>, a: nat, k: nat) {
    && a <= k < |ticks|
    && (forall j :: a <= j <= k ==> QuietTick(ticks[j]))
    && (forall j :: a <= j < k ==> ticks[j].published)
    && (forall j :: a < j <= k ==> ticks[j].now - ticks[j - 1].now <= 15.0)
  }

  ghost predicate Justified(ticks: seq<Tick>, k: nat, value: real) {
    exists a: nat :: QuietStretch(ticks, a, k)
                     && ticks[k].now - ticks[a].now >= value
                     && k - a >= Ceil(value / QUIET_GAP)
  }

  /** The first slot after the most recent failure before slot k. */
  function StretchStart(ticks: seq<Tick>, k: nat): (first: nat)
    requires k <= |ticks|
    ensures first <= k
    ensures forall j :: first <= j < k ==> ticks[j].Collected? && ticks[j].published
  {
    if k == 0 then 0
    else if ticks[k - 1].Collected? && ticks[k - 1].published then StretchStart(ticks, k - 1)
    else k
  }

  /** What slot k publishes: the quiet time earned since the last failure. */
  function PublishedAt(ticks: seq<Tick>, k: nat): Option<real>
    requires k < |ticks|
  {
    if ticks[k].Collected? && ticks[k].published
    then Some(QuietSeconds(TickSamples(ticks[StretchStart(ticks, k)..k + 1])))
    else None
  }

  /** Scale-in never sees a quiet time that safe, published, close samples do not back. */
  lemma PublishedQuietIsJustified(ticks: seq<Tick>, k: nat)
    requires k < |ticks| && PublishedAt(ticks, k).Some? && PublishedAt(ticks, k).value > 0.0
    ensures Justified(ticks, k, PublishedAt(ticks, k).value)
  {
    hide Ceil, QuietSeconds;
    var first := StretchStart(ticks, k);
    var history := TickSamples(ticks[first..k + 1]);
    var i := QuietNeedsEvidence(history, PublishedAt(ticks, k).value);
    forall j | first + i <= j <= k ensures QuietTick(ticks[j]) {
      assert history[j - first].good;
      SafeIff(ticks[j]);
    }
    forall j | first + i < j <= k ensures ticks[j].now - ticks[j - 1].now <= QUIET_GAP {
      assert GapAllowed(Some(QUIET_GAP), history[j - first].at - history[j - first - 1].at);
    }
    assert QuietStretch(ticks, first + i, k);
  }

  /** Conversely, on a non-decreasing clock every quiet stretch is credited in full. */
  lemma QuietStretchIsCredited(ticks: seq<Tick>, a: nat, k: nat)
    requires QuietStretch(ticks, a, k) && ticks[k].published
    requires forall i, j :: 0 <= i <= j < |ticks| && ticks[i].Collected? && ticks[j].Collected?
                            ==> ticks[i].now <= ticks[j].now
    ensures PublishedAt(ticks, k).Some?
    ensures PublishedAt(ticks, k).value >= ticks[k].now - ticks[a].now
  {
    hide Run, StretchStart, QuietStretch, RunStart, Tick.Safe, QuietTick;
    StretchIsCollected(ticks, a, k);
    StretchCovers(ticks, a, k);
    var first := StretchStart(ticks, k);
    var history := TickSamples(ticks[first..k + 1]);
    StretchIsRun(ticks, a, k, first);
    RunStartIsLeast(history, Some(QUIET_GAP), a - first, k - first);
    var start := RunStart(history, Some(QUIET_GAP), k - first).value;
    assert history[start].at == ticks[first + start].now && history[k - first].at == ticks[k].now;
    assert history[a - first].at == ticks[a].now;
  }

  lemma StretchIsCollected(ticks: seq<Tick>, a: nat, k: nat)
    requires QuietStretch(ticks, a, k)
    ensures a <= k < |ticks| && ticks[k].Collected?
    ensures forall j :: a <= j < k ==> ticks[j].Collected? && ticks[j].published
  {
    assert QuietTick(ticks[k]);
    forall j | a <= j < k ensures ticks[j].Collected? && ticks[j].published {
      assert QuietTick(ticks[j]);
    }
  }

  lemma StretchIsRun(ticks: seq<Tick>, a: nat, k: nat, first: nat)
    requires QuietStretch(ticks, a, k) && first <= a && forall j :: first <= j < k ==> ticks[j].Collected?
    ensures Run(TickSamples(ticks[first..k + 1]), Some(QUIET_GAP), a - first, k - first)
  {
    var history := TickSamples(ticks[first..k + 1]);
    forall j | a - first <= j <= k - first ensures history[j] == Sample(ticks[j + first].now, true) {
      assert QuietTick(ticks[j + first]);
      SafeIff(ticks[j + first]);
    }
    forall j | a - first < j <= k - first
      ensures GapAllowed(Some(QUIET_GAP), history[j].at - history[j - 1].at)
    {
      assert ticks[j + first].now - ticks[j + first - 1].now <= QUIET_GAP;
    }
  }

  lemma {:induction false} StretchCovers(ticks: seq<Tick>, a: nat, k: nat)
    requires a <= k < |ticks|
    requires forall j :: a <= j < k ==> ticks[j].Collected? && ticks[j].published
    ensures StretchStart(ticks, k) <= a
  {
    if a < k {
      StretchCovers(ticks, a, k - 1);
    }
  }

  lemma TickSamplesExtend(ticks: seq<Tick>, n: nat)
    requires n < |ticks| && ticks[n].Collected?
    ensures var first := StretchStart(ticks, n);
            TickSamples(ticks[first..n + 1]) == TickSamples(ticks[first..n]) + [Sample(ticks[n].now, ticks[n].Safe())]
  {
    hide StretchStart, Tick.Safe;
    var first := StretchStart(ticks, n);
    assert ticks[first..n + 1] == ticks[first..n] + [ticks[n]];
    TickSamplesAppend(ticks[first..n], ticks[n]);
  }

  lemma TickSamplesAppend(front: seq<Tick>, last: Tick)
    requires last.Collected? && forall t <- front :: t.Collected?
    ensures TickSamples(front + [last]) == TickSamples(front) + [Sample(last.now, last.Safe())]
  {
    hide Tick.Safe;
  }

  /** The samples the window has seen since the last failure before slot n. */
  function WindowHistory(ticks: seq<Tick>, n: nat): seq<Sample>
    requires n <= |ticks|
  {
    TickSamples(ticks[StretchStart(ticks, n)..n])
  }

  /** Sample once per slot; any failure forgets the window. */
  method RunPublisher(ticks: seq<Tick>) returns (published: seq<Option<real>>)
    ensures |published| == |ticks|
    ensures forall k :: 0 <= k < |ticks| ==> published[k] == PublishedAt(ticks, k)
  {
    var quiet := new QuietWindow();
    published := [];
    for n := 0 to |ticks|
      invariant quiet.Valid() && fresh(quiet)
      invariant |published| == n
      invariant quiet.history == WindowHistory(ticks, n)
      invariant forall k :: 0 <= k < n ==> published[k] == PublishedAt(ticks, k)
    {
      var slot := PublishSlot(quiet, ticks, n);
      published := published + [slot];
    }
  }

  /** One iteration of the loop body, with its exception handler. */
  method PublishSlot(quiet: QuietWindow, ticks: seq<Tick>, n: nat) returns (slot: Option<real>)
    requires n < |ticks| && quiet.Valid() && quiet.history == WindowHistory(ticks, n)
    modifies quiet
    ensures quiet.Valid() && quiet.history == WindowHistory(ticks, n + 1)
    ensures slot == PublishedAt(ticks, n)
  {
    match ticks[n]
    case CollectionFailed =>
      quiet.Reset();
      slot := None;
    case Collected(now, _, _, _, delivered) =>
      TickSamplesExtend(ticks, n);
      var seconds := quiet.Observe(now, ticks[n].Safe());
      if delivered {
        slot := Some(seconds);
      } else {
        quiet.Reset();
        slot := None;
      }
  }
}
