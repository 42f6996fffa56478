/** Observations shared by both treatments, and the post-load wait for a stable drain. */
module FixedControl {
  import opened Wrappers
  import opened StableRuns

  /** One aligned application, queue and worker-capacity sample; `at` is seconds after load start. */
  datatype Observation = Observation(
    at: real,
    step: string,
    persisted: nat,
    completed: nat,
    durable: nat,
    pending: nat,
    visible: nat,
    inFlight: nat,
    delayed: nat,
    deadLetters: nat,
    desired: nat,
    running: nat,
    starting: nat)
  {
    function QueueWork(): nat {
      visible + inFlight + delayed
    }

    predicate Drained() {
      && persisted == completed
      && durable == persisted
      && pending == 0
      && QueueWork() == 0
      && deadLetters == 0
    }
  }

  /** One pass of the wait: the guard's clock reading, the sample's, and what was collected. */
  datatype Attempt = Attempt(guardAt: real, at: real, seen: Option<Observation>) {
    predicate Valid() {
      guardAt <= at && (seen.Some? ==> seen.value.at == at)
    }

    predicate Drained() {
      seen.Some? && seen.value.Drained()
    }
  }

  predicate ValidAttempts(attempts: seq<Attempt>) {
    && (forall a <- attempts :: a.Valid())
    && (forall i, j :: 0 <= i < j < |attempts| ==> attempts[i].at < attempts[j].at)
  }

  function WaitSamples(attempts: seq<Attempt>): (s: seq<Sample>)
    ensures |s| == |attempts|
    ensures forall i :: 0 <= i < |attempts| ==> s[i] == Sample(attempts[i].at, attempts[i].Drained())
  {
    seq(|attempts|, i requires 0 <= i < |attempts| => Sample(attempts[i].at, attempts[i].Drained()))
  }

  /** The observations retained from the first n attempts, in order. */
  function Successes(attempts: seq<Attempt>, n: nat): (kept: seq<Observation>)
    requires n <= |attempts|
    ensures |kept| <= n
  {
    if n == 0 then []
    else Successes(attempts, n - 1)
         + if attempts[n - 1].seen.Some? then [attempts[n - 1].seen.value] else []
  }

  /** A stretch without failures contributes exactly its own samples. */
  lemma {:induction false} SuccessesOfStretch(attempts: seq<Attempt>, i: nat, n: nat, run: seq<Observation>)
    requires i <= n <= |attempts| && |run| == n - i
    requires forall k :: 0 <= k < |run| ==> attempts[i + k].seen == Some(run[k])
    ensures Successes(attempts, n) == Successes(attempts, i) + run
  {
    if i < n {
      var last := |run| - 1;
      assert attempts[i + last].seen == Some(run[last]);
      SuccessesOfStretch(attempts, i, n - 1, run[..last]);
      assert run == run[..last] + [run[last]];
    }
  }

  /** The wait never confirms at the sample that starts a run, even if no time needs to pass. */
  predicate WaitConfirmed(attempts: seq<Attempt>, stability: real, j: nat)
    requires j < |attempts|
  {
    var s := WaitSamples(attempts);
    Confirmed(s, None, stability, j) && RunStart(s, None, j).value < j
  }

  /** Collections i to j all succeeded and saw nothing unfinished anywhere. */
  predicate EmptyStretch(attempts: seq<Attempt>, i: nat, j: nat) {
    && i <= j < |attempts|
    && forall k :: i <= k <= j ==>
         && attempts[k].seen.Some?
         && var o := attempts[k].seen.value;
            && o.persisted == o.completed && o.durable == o.completed && o.pending == 0
            && o.visible == 0 && o.inFlight == 0 && o.delayed == 0 && o.deadLetters == 0
  }

  lemma EmptyStretchIff(attempts: seq<Attempt>, i: nat, j: nat)
    ensures EmptyStretch(attempts, i, j) <==> Run(WaitSamples(attempts), None, i, j)
  {
    var s := WaitSamples(attempts);
    forall k | 0 <= k < |attempts|
      ensures s[k].good <==> EmptyStretch(attempts, k, k)
    {
    }
    if EmptyStretch(attempts, i, j) {
      forall k | i <= k <= j ensures s[k].good {
        assert EmptyStretch(attempts, k, k);
      }
    }
    if Run(s, None, i, j) {
      forall k | i <= k <= j ensures EmptyStretch(attempts, k, k) {
        assert s[k].good;
      }
    }
  }

  /** The wait confirms exactly when a stretch of empty samples, of at least two, has lasted long enough. */
  lemma WaitConfirmedIff(attempts: seq<Attempt>, stability: real, j: nat)
    requires ValidAttempts(attempts) && j < |attempts|
    ensures WaitConfirmed(attempts, stability, j) <==>
            exists i: nat :: i < j && EmptyStretch(attempts, i, j) && attempts[j].at - attempts[i].at >= stability
  {
    var s := WaitSamples(attempts);
    RunStartIsRun(s, None, j);
    if WaitConfirmed(attempts, stability, j) {
      EmptyStretchIff(attempts, RunStart(s, None, j).value, j);
    }
    if i: nat :| i < j && EmptyStretch(attempts, i, j) && attempts[j].at - attempts[i].at >= stability {
      EmptyStretchIff(attempts, i, j);
      RunStartIsLeast(s, None, i, j);
    }
  }

  datatype WaitOutcome = DrainConfirmed | DeadlinePassed | Unfinished

  /** Neither the deadline nor a confirmation stopped the wait before attempt n. */
  ghost predicate StillWaiting(attempts: seq<Attempt>, loadEnd: real, timeout: real, stability: real, n: nat)
    requires n <= |attempts|
  {
    && (forall k :: 0 <= k < n ==> attempts[k].guardAt - loadEnd <= timeout)
    && (forall k: nat :: k < n ==> !WaitConfirmed(attempts, stability, k))
  }

  /** The wait's answer: the first confirming sample, unless the guard fails before it. */
  ghost predicate WaitAnswer(attempts: seq<Attempt>, loadEnd: real, timeout: real, stability: real,
                             polls: nat, outcome: WaitOutcome) {
    && polls <= |attempts|
    && match outcome
       case DrainConfirmed =>
         && polls > 0
         && StillWaiting(attempts, loadEnd, timeout, stability, polls - 1)
         && attempts[polls - 1].guardAt - loadEnd <= timeout
         && WaitConfirmed(attempts, stability, polls - 1)
       case DeadlinePassed =>
         && polls < |attempts|
         && StillWaiting(attempts, loadEnd, timeout, stability, polls)
         && attempts[polls].guardAt - loadEnd > timeout
       case Unfinished =>
         && polls == |attempts|
         && StillWaiting(attempts, loadEnd, timeout, stability, polls)
  }

  /** By sample j the system had been empty for the target, over at least two samples. */
  predicate EmptyLongEnough(attempts: seq<Attempt>, stability: real, j: nat) {
    exists i :: 0 <= i < j && EmptyStretch(attempts, i, j) && attempts[j].at - attempts[i].at >= stability
  }

  /**
   How the wait ends, on the samples: it confirms at its last poll, the first by which
   the system had been empty long enough, or stops at the first poll whose guard is
   past the deadline, or runs out of polls.
   */
  lemma WaitEndsIff(attempts: seq<Attempt>, loadEnd: real, timeout: real, stability: real,
                    polls: nat, outcome: WaitOutcome)
    requires ValidAttempts(attempts) && WaitAnswer(attempts, loadEnd, timeout, stability, polls, outcome)
    ensures polls <= |attempts|
    ensures forall k :: 0 <= k < polls ==> attempts[k].guardAt <= loadEnd + timeout
    ensures forall k :: 0 <= k < polls - 1 ==> !EmptyLongEnough(attempts, stability, k)
    ensures outcome == DrainConfirmed <==> polls > 0 && EmptyLongEnough(attempts, stability, polls - 1)
    ensures outcome == DeadlinePassed ==> polls < |attempts| && attempts[polls].guardAt > loadEnd + timeout
    ensures outcome == Unfinished ==> polls == |attempts|
  {
    forall k: nat | k < |attempts|
      ensures WaitConfirmed(attempts, stability, k) <==> EmptyLongEnough(attempts, stability, k)
    {
      WaitConfirmedIff(attempts, stability, k);
    }
    hide WaitConfirmed, EmptyLongEnough, ValidAttempts;
  }

  /** Wait for an uninterrupted drain. There is no check on the sampling gap here. */
  method AwaitStableDrain(attempts: seq<Attempt>, loadEnd: real, timeout: real, stability: real)
    returns (observations: seq<Observation>, failures: nat, polls: nat, outcome: WaitOutcome)
    ensures WaitAnswer(attempts, loadEnd, timeout, stability, polls, outcome)
    ensures observations == Successes(attempts, polls)
    ensures failures + |observations| == polls
  {
    hide RunStart, Observation.Drained;
    ghost var s := WaitSamples(attempts);
    var stableSince: Option<real> := None;
    observations, failures := [], 0;
    for n := 0 to |attempts|
      invariant observations == Successes(attempts, n) && failures + |observations| == n
      invariant n == 0 ==> stableSince == None
      invariant n > 0 ==> match RunStart(s, None, n - 1)
                          case None => stableSince == None
                          case Some(i) => i < n && stableSince == Some(attempts[i].at)
      invariant StillWaiting(attempts, loadEnd, timeout, stability, n)
    {
      var attempt := attempts[n];
      if attempt.guardAt - loadEnd > timeout {
        return observations, failures, n, DeadlinePassed;
      }
      RunStartStep(s, None, n);
      if attempt.seen.Some? {
        observations := observations + [attempt.seen.value];
      } else {
        failures := failures + 1;
      }
      if attempt.seen.None? || !attempt.seen.value.Drained() {
        stableSince := None;
      } else if stableSince == None {
        stableSince := Some(attempt.at);
      } else if attempt.at - stableSince.value >= stability {
        return observations, failures, n + 1, DrainConfirmed;
      }
    }
    return observations, failures, |attempts|, Unfinished;
  }
}
