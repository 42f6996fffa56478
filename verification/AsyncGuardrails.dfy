/** Post-load processing timelines and the offline drain scan. */
module AsyncGuardrails {
  import opened Wrappers
  import opened StableRuns

  /** Frozen completion and drain requirements, in seconds. */
  datatype Guardrails = Guardrails(drainDeadline: real, stability: real, maxGap: real) {
    predicate Valid() {
      && 0.0 < drainDeadline
      && 0.0 < stability
      && 0.0 < maxGap <= stability
    }
  }

  /** One aligned database and queue observation, `seconds` after load ended. */
  datatype Observation = Observation(
    observedAt: real,
    seconds: real,
    accepted: nat,
    durable: nat,
    completed: nat,
    pending: nat,
    visible: nat,
    inFlight: nat,
    delayed: nat,
    deadLetters: nat)
  {
    /** The counts a database could actually hold. */
    predicate Possible() {
      && 0.0 <= seconds
      && durable <= accepted
      && completed <= accepted
      && pending <= durable
    }

    predicate Drained() {
      && durable == accepted
      && accepted - completed == 0
      && pending == 0
      && visible == 0
      && inFlight == 0
      && delayed == 0
      && deadLetters == 0
    }
  }

  predicate IncreasingSeconds(obs: seq<Observation>) {
    forall i, j :: 0 <= i < j < |obs| ==> obs[i].seconds < obs[j].seconds
  }

  /** The timeline clauses of the evidence validator. */
  predicate ConsistentTimeline(obs: seq<Observation>) {
    && obs != []
    && (forall o <- obs :: o.Possible())
    && (forall k :: 0 < k < |obs| ==> obs[k - 1].seconds < obs[k].seconds)
    && (forall k :: 0 < k < |obs| ==>
          Abs((obs[k].observedAt - obs[k - 1].observedAt) - (obs[k].seconds - obs[k - 1].seconds)) <= 0.000001)
    && (forall o <- obs :: o.accepted == obs[0].accepted && o.durable == obs[0].durable)
    && (forall k :: 0 < k < |obs| ==> obs[k - 1].completed <= obs[k].completed)
  }

  function Samples(obs: seq<Observation>): (s: seq<Sample>)
    ensures |s| == |obs|
    ensures forall i :: 0 <= i < |obs| ==> s[i] == Sample(obs[i].seconds, obs[i].Drained())
  {
    seq(|obs|, i requires 0 <= i < |obs| => Sample(obs[i].seconds, obs[i].Drained()))
  }

  lemma {:induction false} AdjacentOrderIsGlobal(obs: seq<Observation>, i: nat, j: nat)
    requires forall k :: 0 < k < |obs| ==> obs[k - 1].seconds < obs[k].seconds
    requires forall k :: 0 < k < |obs| ==> obs[k - 1].completed <= obs[k].completed
    requires i <= j < |obs|
    ensures i < j ==> obs[i].seconds < obs[j].seconds
    ensures obs[i].completed <= obs[j].completed
  {
    if i < j {
      AdjacentOrderIsGlobal(obs, i, j - 1);
    }
  }

  lemma ConsistentTimelineIncreases(obs: seq<Observation>)
    requires ConsistentTimeline(obs)
    ensures IncreasingSeconds(obs)
  {
    forall i, j | 0 <= i < j < |obs| ensures obs[i].seconds < obs[j].seconds {
      AdjacentOrderIsGlobal(obs, i, j);
    }
  }

  /**
   Completion is permanent: after a drained observation of a consistent timeline
   no later one shows an incomplete delivery or a missing outbox row, so it can
   only fail to be drained through queue contents or republication.
   */
  lemma CompletionIsPermanent(obs: seq<Observation>, i: nat, j: nat)
    requires ConsistentTimeline(obs) && i <= j < |obs| && obs[i].Drained()
    ensures obs[j].completed == obs[j].accepted == obs[j].durable
    ensures obs[j].Drained() <==>
            obs[j].pending + obs[j].visible + obs[j].inFlight + obs[j].delayed + obs[j].deadLetters == 0
  {
    AdjacentOrderIsGlobal(obs, i, j);
    assert obs[i] in obs && obs[j] in obs;
  }

  /** Observations i to j show everything accepted durable and completed, and nothing left anywhere. */
  predicate EmptyStretch(obs: seq<Observation>, gap: real, i: nat, j: nat) {
    && i <= j < |obs|
    && (forall k :: i <= k <= j ==>
          && obs[k].durable == obs[k].accepted && obs[k].completed == obs[k].accepted
          && obs[k].pending + obs[k].visible + obs[k].inFlight + obs[k].delayed + obs[k].deadLetters == 0)
    && (forall k :: i < k <= j ==> obs[k].seconds <= obs[k - 1].seconds + gap)
  }

  /** A run that confirms the drain is a long enough stretch of such observations without an oversized gap. */
  lemma ConfirmsIff(obs: seq<Observation>, g: Guardrails, i: nat, j: nat)
    ensures Confirms(Samples(obs), Some(g.maxGap), g.stability, i, j) <==>
            EmptyStretch(obs, g.maxGap, i, j) && obs[j].seconds >= obs[i].seconds + g.stability
  {
    var s := Samples(obs);
    hide Observation.Drained;
    forall k | 0 <= k < |obs|
      ensures s[k].good <==>
              && obs[k].durable == obs[k].accepted && obs[k].completed == obs[k].accepted
              && obs[k].pending + obs[k].visible + obs[k].inFlight + obs[k].delayed + obs[k].deadLetters == 0
    {
      DrainedIff(obs[k]);
    }
  }

  lemma DrainedIff(o: Observation)
    ensures o.Drained() <==>
            && o.durable == o.accepted && o.completed == o.accepted
            && o.pending + o.visible + o.inFlight + o.delayed + o.deadLetters == 0
  {
  }

  /** The first sample at which some drained run has lasted long enough, and where that run began. */
  ghost predicate FirstConfirmation(obs: seq<Observation>, g: Guardrails, i: nat, j: nat) {
    && MaximalRun(Samples(obs), Some(g.maxGap), i, j)
    && Confirms(Samples(obs), Some(g.maxGap), g.stability, i, j)
    && forall a: nat, b: nat :: Confirms(Samples(obs), Some(g.maxGap), g.stability, a, b) ==> j <= b
  }

  lemma ConfirmationFound(obs: seq<Observation>, g: Guardrails, n: nat)
    requires IncreasingSeconds(obs) && n < |obs|
    requires Confirmed(Samples(obs), Some(g.maxGap), g.stability, n)
    requires forall k: nat :: k < n ==> !Confirmed(Samples(obs), Some(g.maxGap), g.stability, k)
    ensures FirstConfirmation(obs, g, RunStart(Samples(obs), Some(g.maxGap), n).value, n)
  {
    var s, limit := Samples(obs), Some(g.maxGap);
    RunStartIsRun(s, limit, n);
    RunStartIsMaximal(s, limit, RunStart(s, limit, n).value, n);
    forall a: nat, b: nat | Confirms(s, limit, g.stability, a, b) ensures n <= b {
      ConfirmedIff(s, limit, g.stability, b);
    }
  }

  lemma NothingConfirmed(obs: seq<Observation>, g: Guardrails)
    requires IncreasingSeconds(obs)
    requires forall k: nat :: k < |obs| ==> !Confirmed(Samples(obs), Some(g.maxGap), g.stability, k)
    ensures forall i: nat, j: nat :: !Confirms(Samples(obs), Some(g.maxGap), g.stability, i, j)
  {
    forall i: nat, j: nat ensures !Confirms(Samples(obs), Some(g.maxGap), g.stability, i, j) {
      if Confirms(Samples(obs), Some(g.maxGap), g.stability, i, j) {
        ConfirmedIff(Samples(obs), Some(g.maxGap), g.stability, j);
      }
    }
  }

  /** What the scan must answer, in terms of runs only. */
  ghost predicate DrainAnswer(obs: seq<Observation>, g: Guardrails, window: Option<(real, real)>) {
    match window
    case None => forall i: nat, j: nat :: !Confirms(Samples(obs), Some(g.maxGap), g.stability, i, j)
    case Some(w) => exists i: nat, j: nat :: FirstConfirmation(obs, g, i, j) && w == (obs[i].seconds, obs[j].seconds)
  }

  /** Scan the saved timeline once, as the evaluation does. */
  method DrainWindow(obs: seq<Observation>, g: Guardrails) returns (window: Option<(real, real)>)
    requires IncreasingSeconds(obs)
    ensures DrainAnswer(obs, g, window)
  {
    ghost var s := Samples(obs);
    ghost var limit := Some(g.maxGap);
    var stableSince: Option<real> := None;
    var previous: Option<real> := None;
    for n := 0 to |obs|
      invariant previous == if n == 0 then None else Some(obs[n - 1].seconds)
      invariant n == 0 ==> stableSince == None
      invariant n > 0 ==> match RunStart(s, limit, n - 1)
                          case None => stableSince == None
                          case Some(i) => i < n && stableSince == Some(obs[i].seconds)
      invariant forall k: nat :: k < n ==> !Confirmed(s, limit, g.stability, k)
    {
      var o := obs[n];
      if previous.Some? && o.seconds - previous.value > g.maxGap {
        stableSince := None;
      }
      previous := Some(o.seconds);
      if !o.Drained() {
        stableSince := None;
      } else {
        if stableSince == None {
          stableSince := Some(o.seconds);
        }
        assert RunStart(s, limit, n).Some? by {
          RunStartIsRun(s, limit, n);
        }
        if o.seconds - stableSince.value >= g.stability {
          ConfirmationFound(obs, g, n);
          return Some((stableSince.value, o.seconds));
        }
      }
    }
    NothingConfirmed(obs, g);
    window := None;
  }

  /** The drain window is unique, so every property above determines the scan's answer. */
  lemma FirstConfirmationIsUnique(obs: seq<Observation>, g: Guardrails, i: nat, j: nat, a: nat, b: nat)
    requires FirstConfirmation(obs, g, i, j) && FirstConfirmation(obs, g, a, b)
    ensures i == a && j == b
  {
    assert Confirms(Samples(obs), Some(g.maxGap), g.stability, i, j);
    assert Confirms(Samples(obs), Some(g.maxGap), g.stability, a, b);
  }
}
