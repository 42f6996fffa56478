/** What a recorded delivery proves: exactly when completion and receipt agree, and what follows when they do not. */
module DeliveryCompletion {
  import opened Wrappers
  import opened EventPersistence
  import opened DownstreamStore
  import opened DeliveryProtocol

  /** The count of completed deliveries includes this event. */
  predicate Completed(s: System, id: nat) {
    exists i :: 0 <= i < |s.attempts| && s.attempts[i].event == id && s.attempts[i].delivered
  }

  // ----- one delivery -----

  /** Only these outcomes are stored as delivered. */
  predicate CountsAsDelivered(outcome: PostOutcome) {
    outcome.Accepted? || outcome.OtherError?
  }

  lemma CompletedAfterRecording(s: System, attempt: Attempt, id: nat)
    ensures Completed(s.(attempts := s.attempts + [attempt]), id) <==>
            Completed(s, id) || (attempt.event == id && attempt.delivered)
  {
    var t := s.(attempts := s.attempts + [attempt]);
    if Completed(s, id) {
      var i :| 0 <= i < |s.attempts| && s.attempts[i].event == id && s.attempts[i].delivered;
      assert t.attempts[i] == s.attempts[i];
    }
    if attempt.event == id && attempt.delivered {
      assert t.attempts[|s.attempts|] == attempt;
    }
  }

  /**
   Posting and then recording keeps "completed implies received" exactly when the
   outcome was not an unclassified error, or the event has reached the store anyway.
   */
  lemma RecordingIsHonestIff(s: System, w: nat, reached: bool, outcome: PostOutcome)
    requires Sound(s) && AtStage(s, w, Loaded) && (outcome.Accepted? ==> reached)
    requires Completed(s, s.workers[w].event) ==> s.workers[w].event in s.store.keys
    ensures var id := s.workers[w].event;
            && Enabled(s, Post(w, reached, outcome))
            && var posted := Apply(s, Post(w, reached, outcome));
               && Enabled(posted, RecordAttempt(w))
               && var t := Apply(posted, RecordAttempt(w));
                  (Completed(t, id) ==> id in t.store.keys)
                  <==> (outcome.OtherError? ==> reached || id in s.store.keys)
  {
    hide Completed, Sound;
    var id := s.workers[w].event;
    LoadedIsAccepted(s, w);
    var posted := Apply(s, Post(w, reached, outcome));
    var t := Apply(posted, RecordAttempt(w));
    CompletedAfterRecording(s, AttemptFor(id, outcome), id);
    SameAttemptsSameCompletion(t, s.(attempts := t.attempts), id);
  }

  lemma LoadedIsAccepted(s: System, w: nat)
    requires Sound(s) && w in s.workers
    ensures s.workers[w].event in s.accepted
  {
    assert WorkerSound(s, s.workers[w]);
  }

  lemma SameAttemptsSameCompletion(s: System, t: System, id: nat)
    requires s.attempts == t.attempts
    ensures Completed(s, id) <==> Completed(t, id)
  {
  }

  // ----- whole runs -----

  /** The state before step n of a run. */
  ghost function Before(s: System, steps: seq<Step>, n: nat): Option<System>
    requires n <= |steps|
  {
    Exec(s, steps[..n])
  }

  /** Step n is a request for this event that reached the store. */
  ghost predicate Reaches(s: System, steps: seq<Step>, n: nat, id: nat) {
    && n < |steps| && steps[n].Post? && steps[n].reached
    && var before := Before(s, steps, n);
       before.Some? && steps[n].w in before.value.workers && before.value.workers[steps[n].w].event == id
  }

  /** Step n stores this event as delivered; only an accepted or an unclassified outcome does. */
  ghost predicate Completes(s: System, steps: seq<Step>, n: nat, id: nat) {
    && n < |steps| && steps[n].RecordAttempt?
    && var before := Before(s, steps, n);
       && before.Some? && steps[n].w in before.value.workers
       && var worker := before.value.workers[steps[n].w];
          worker.event == id && worker.stage.Responded? && CountsAsDelivered(worker.stage.outcome)
  }

  lemma EarlierSteps(s: System, steps: seq<Step>, id: nat)
    requires steps != []
    ensures var front := steps[..|steps| - 1];
            && (forall n: nat :: n < |front| ==>
                  (Reaches(s, front, n, id) <==> Reaches(s, steps, n, id))
                  && (Completes(s, front, n, id) <==> Completes(s, steps, n, id)))
  {
    var front := steps[..|steps| - 1];
    forall n: nat | n < |front| ensures front[..n] == steps[..n] {
    }
  }

  lemma StoreAfter(s: System, step: Step, id: nat)
    requires Enabled(s, step)
    ensures id in Apply(s, step).store.keys <==>
            id in s.store.keys || (step.Post? && step.reached && s.workers[step.w].event == id)
  {
  }

  lemma ReachedByLastStep(s: System, steps: seq<Step>, id: nat)
    requires steps != [] && Exec(s, steps).Some?
    ensures var before := Exec(s, steps[..|steps| - 1]).value;
            id in Exec(s, steps).value.store.keys <==>
            id in before.store.keys || Reaches(s, steps, |steps| - 1, id)
  {
    var last, before := steps[|steps| - 1], Exec(s, steps[..|steps| - 1]).value;
    StoreAfter(before, last, id);
    assert last.Post? ==> last.w in before.workers;
    hide Apply, Enabled, Exec;
  }

  /** What a step does to the completion of an event. */
  lemma CompletionAfter(s: System, step: Step, id: nat)
    requires Enabled(s, step)
    ensures Completed(Apply(s, step), id) <==>
            || Completed(s, id)
            || (step.RecordAttempt? && s.workers[step.w].event == id
                && CountsAsDelivered(s.workers[step.w].stage.outcome))
  {
    hide Completed;
    var t := Apply(s, step);
    if step.RecordAttempt? {
      var attempt := AttemptFor(s.workers[step.w].event, s.workers[step.w].stage.outcome);
      CompletedAfterRecording(s, attempt, id);
      SameAttemptsSameCompletion(t, s.(attempts := s.attempts + [attempt]), id);
    } else {
      SameAttemptsSameCompletion(s, t, id);
    }
  }

  lemma CompletedByLastStep(s: System, steps: seq<Step>, id: nat)
    requires steps != [] && Exec(s, steps).Some?
    ensures var before := Exec(s, steps[..|steps| - 1]).value;
            Completed(Exec(s, steps).value, id) <==>
            Completed(before, id) || Completes(s, steps, |steps| - 1, id)
  {
    var last, before := steps[|steps| - 1], Exec(s, steps[..|steps| - 1]).value;
    CompletionAfter(before, last, id);
    assert last.RecordAttempt? ==> last.w in before.workers && before.workers[last.w].stage.Responded?;
    hide Apply, Enabled, Exec, Completed;
  }

  /** An event has a receipt exactly when some request for it reached the store. */
  lemma {:induction false} ReceivedIff(steps: seq<Step>, id: nat)
    requires Exec(START, steps).Some?
    ensures id in Exec(START, steps).value.store.keys <==> exists n: nat :: Reaches(START, steps, n, id)
  {
    if steps != [] {
      hide Reaches, Exec;
      var front := steps[..|steps| - 1];
      RunBegins(START, steps);
      ReceivedIff(front, id);
      EarlierSteps(START, steps, id);
      ReachedByLastStep(START, steps, id);
      OnlyStepsReach(START, steps, id);
      OnlyStepsReach(START, front, id);
    }
  }

  /** An event is counted as completed exactly when some attempt ended accepted or unclassified. */
  lemma {:induction false} CompletedIff(steps: seq<Step>, id: nat)
    requires Exec(START, steps).Some?
    ensures Completed(Exec(START, steps).value, id) <==> exists n: nat :: Completes(START, steps, n, id)
  {
    if steps != [] {
      hide Completes, Completed, Exec;
      var front := steps[..|steps| - 1];
      RunBegins(START, steps);
      CompletedIff(front, id);
      EarlierSteps(START, steps, id);
      CompletedByLastStep(START, steps, id);
      OnlyStepsReach(START, steps, id);
      OnlyStepsReach(START, front, id);
    }
  }

  lemma RunBegins(s: System, steps: seq<Step>)
    requires steps != [] && Exec(s, steps).Some?
    ensures Exec(s, steps[..|steps| - 1]).Some?
  {
  }

  lemma OnlyStepsReach(s: System, steps: seq<Step>, id: nat)
    ensures forall n: nat :: Reaches(s, steps, n, id) || Completes(s, steps, n, id) ==> n < |steps|
  {
  }

  /** Step n stores this event as delivered because of an unclassified error. */
  ghost predicate Misrecords(s: System, steps: seq<Step>, n: nat, id: nat) {
    Completes(s, steps, n, id) && Before(s, steps, n).value.workers[steps[n].w].stage.outcome.OtherError?
  }

  /**
   Over whole runs, exactly: an event is counted as completed without a receipt if
   and only if no request for it ever reached the store and some attempt at it
   ended in an unclassified error.
   */
  lemma CompletedWithoutReceiptIff(steps: seq<Step>, id: nat)
    requires Exec(START, steps).Some?
    ensures var s := Exec(START, steps).value;
            Completed(s, id) && id !in s.store.keys <==>
            && (forall n: nat :: !Reaches(START, steps, n, id))
            && exists n: nat :: Misrecords(START, steps, n, id)
  {
    ReceivedIff(steps, id);
    CompletedIff(steps, id);
    var s := Exec(START, steps).value;
    hide Exec, Completed, Completes, Misrecords, Reaches;
    if Completed(s, id) && id !in s.store.keys {
      var n: nat :| Completes(START, steps, n, id);
      NotReceivedWasMisrecorded(steps, n, id);
    }
    if n: nat :| Misrecords(START, steps, n, id) {
      MisrecordingCompletes(steps, n, id);
    }
  }

  lemma MisrecordingCompletes(steps: seq<Step>, n: nat, id: nat)
    requires Misrecords(START, steps, n, id)
    ensures Completes(START, steps, n, id)
  {
  }

  /** A worker told "accepted" has a receipt behind it, and keeps it. */
  lemma NotReceivedWasMisrecorded(steps: seq<Step>, n: nat, id: nat)
    requires Exec(START, steps).Some? && Completes(START, steps, n, id)
    requires id !in Exec(START, steps).value.store.keys
    ensures Misrecords(START, steps, n, id)
  {
    hide Exec, Sound;
    var before := Before(START, steps, n).value;
    StartIsSound();
    RunsAreSound(START, steps[..n]);
    if before.workers[steps[n].w].stage.outcome.Accepted? {
      RespondedIsReceived(before, steps[n].w);
      assert steps[..n] + steps[n..] == steps;
      ExecConcat(START, steps[..n], steps[n..]);
      ReceiptsStay(before, steps[n..], id);
    }
  }

  lemma StartIsSound()
    ensures Sound(START)
  {
  }

  lemma RespondedIsReceived(s: System, w: nat)
    requires Sound(s) && w in s.workers && s.workers[w].stage.Responded? && s.workers[w].stage.outcome.Accepted?
    ensures s.workers[w].event in s.store.keys
  {
    assert WorkerSound(s, s.workers[w]);
  }

  lemma {:induction false} ReceiptsStay(s: System, steps: seq<Step>, id: nat)
    requires Exec(s, steps).Some? && id in s.store.keys
    ensures id in Exec(s, steps).value.store.keys
  {
    if steps != [] {
      ReceiptsStay(s, steps[..|steps| - 1], id);
      ReachedByLastStep(s, steps, id);
    }
  }

  // ----- what a recorded attempt says -----

  /** Step n posts this event, and this is how the request ends for the worker. */
  ghost predicate Posts(s: System, steps: seq<Step>, n: nat, id: nat, outcome: PostOutcome) {
    && n < |steps| && steps[n].Post? && steps[n].outcome == outcome
    && var before := Before(s, steps, n);
       before.Some? && steps[n].w in before.value.workers && before.value.workers[steps[n].w].event == id
  }

  /** The record keeps the response code of the outcome, and calls every outcome but two kinds of failure a delivery. */
  predicate Documents(attempt: Attempt, outcome: PostOutcome) {
    match outcome
    case Accepted(code) => attempt.delivered && attempt.code == Some(code)
    case HttpError(code) => !attempt.delivered && attempt.code == Some(code)
    case TransportError => !attempt.delivered && attempt.code == None
    case OtherError => attempt.delivered && attempt.code == None
  }

  ghost predicate Answered(s: System, steps: seq<Step>, attempt: Attempt) {
    exists n: nat, outcome :: Posts(s, steps, n, attempt.event, outcome) && Documents(attempt, outcome)
  }

  lemma PostsEarlier(s: System, steps: seq<Step>, n: nat, id: nat, outcome: PostOutcome)
    requires steps != [] && Posts(s, steps[..|steps| - 1], n, id, outcome)
    ensures Posts(s, steps, n, id, outcome)
  {
    assert steps[..|steps| - 1][..n] == steps[..n];
  }

  lemma RespondedAfter(s: System, step: Step, w: nat)
    requires Enabled(s, step) && w in Apply(s, step).workers && Apply(s, step).workers[w].stage.Responded?
    ensures var worker := Apply(s, step).workers[w];
            && w in s.workers
            && if step.Post? && step.w == w
               then s.workers[w].event == worker.event && worker.stage.outcome == step.outcome
               else s.workers[w] == worker
  {
  }

  /** A worker with an answer has posted its event and got that answer. */
  lemma {:induction false} RespondedHasPosted(s: System, steps: seq<Step>, w: nat) returns (n: nat)
    requires s.workers == map[] && Exec(s, steps).Some?
    requires w in Exec(s, steps).value.workers && Exec(s, steps).value.workers[w].stage.Responded?
    ensures var worker := Exec(s, steps).value.workers[w];
            Posts(s, steps, n, worker.event, worker.stage.outcome)
  {
    var front, last := steps[..|steps| - 1], steps[|steps| - 1];
    var before := Exec(s, front).value;
    RespondedAfter(before, last, w);
    hide Apply, Enabled;
    if last.Post? && last.w == w {
      n := |front|;
    } else {
      n := RespondedHasPosted(s, front, w);
      PostsEarlier(s, steps, n, before.workers[w].event, before.workers[w].stage.outcome);
    }
  }

  lemma RecordDocuments(s: System, w: nat)
    requires w in s.workers && s.workers[w].stage.Responded?
    ensures var t := Apply(s, RecordAttempt(w));
            && |t.attempts| == |s.attempts| + 1 && t.attempts[..|s.attempts|] == s.attempts
            && t.attempts[|s.attempts|].event == s.workers[w].event
            && Documents(t.attempts[|s.attempts|], s.workers[w].stage.outcome)
  {
  }

  lemma OnlyRecordingAddsAttempts(s: System, step: Step)
    requires Enabled(s, step) && !step.RecordAttempt?
    ensures Apply(s, step).attempts == s.attempts
  {
  }

  /**
   In every run each recorded attempt goes back to a request for its event and keeps
   how it ended: its response code, and a failure only for HTTP and transport errors.
   */
  lemma {:induction false} AttemptsDocumentAnswers(steps: seq<Step>, i: nat)
    requires Exec(START, steps).Some? && i < |Exec(START, steps).value.attempts|
    ensures Answered(START, steps, Exec(START, steps).value.attempts[i])
  {
    hide Posts, Documents;
    var attempt := Exec(START, steps).value.attempts[i];
    var front, last := steps[..|steps| - 1], steps[|steps| - 1];
    var before := Exec(START, front).value;
    hide Apply, Enabled;
    if i < |before.attempts| {
      AttemptsDocumentAnswers(front, i);
      AttemptStays(before, last, i);
      var n: nat, outcome :| Posts(START, front, n, attempt.event, outcome) && Documents(attempt, outcome);
      PostsEarlier(START, steps, n, attempt.event, outcome);
    } else {
      RecordedLast(before, last, i);
      var n := RespondedHasPosted(START, front, last.w);
      PostsEarlier(START, steps, n, before.workers[last.w].event, before.workers[last.w].stage.outcome);
    }
  }

  lemma AttemptStays(s: System, step: Step, i: nat)
    requires Enabled(s, step) && i < |s.attempts|
    ensures i < |Apply(s, step).attempts| && Apply(s, step).attempts[i] == s.attempts[i]
  {
  }

  lemma RecordedLast(s: System, step: Step, i: nat)
    requires Enabled(s, step) && |s.attempts| <= i < |Apply(s, step).attempts|
    ensures step.RecordAttempt? && step.w in s.workers && s.workers[step.w].stage.Responded?
    ensures Apply(s, step).attempts[i].event == s.workers[step.w].event
    ensures Documents(Apply(s, step).attempts[i], s.workers[step.w].stage.outcome)
  {
    if !step.RecordAttempt? {
      OnlyRecordingAddsAttempts(s, step);
    } else {
      RecordDocuments(s, step.w);
    }
  }

  // ----- an observation read in several calls -----

  lemma {:induction false} HandedStays(s: System, steps: seq<Step>, id: nat)
    requires Sound(s) && Exec(s, steps).Some? && Handed(s, id)
    ensures Handed(Exec(s, steps).value, id)
  {
    hide Sound, Handed, Enabled, Apply;
    if steps != [] {
      var front := steps[..|steps| - 1];
      HandedStays(s, front, id);
      RunsAreSound(s, front);
      HandedIsKept(Exec(s, front).value, steps[|steps| - 1], id);
    }
  }

  lemma {:induction false} NothingIsForgottenInRuns(s: System, steps: seq<Step>)
    requires Sound(s) && Exec(s, steps).Some?
    ensures var t := Exec(s, steps).value;
            && (forall id :: id in s.accepted ==> id in t.accepted && t.accepted[id] == s.accepted[id])
            && (forall m :: m in s.deadLetters ==> m in t.deadLetters)
            && s.store.keys <= t.store.keys
  {
    if steps != [] {
      var front, last := steps[..|steps| - 1], steps[|steps| - 1];
      NothingIsForgottenInRuns(s, front);
      RunsAreSound(s, front);
      var before := Exec(s, front).value;
      SoundIsIdempotent(before);
      NothingIsForgotten(before, last);
      MessagesAreKept(before, last);
      hide Sound, Enabled, Apply;
    }
  }

  /**
   An observation reads the database first, then the queue, then the dead-letter
   queue, while the system moves on. If each of them looks drained in its turn, every
   event accepted by the first read has its faithful receipt by the last.
   */
  lemma DrainedReadsMeanReceived(s: System, a: seq<Step>, b: seq<Step>, id: nat) returns (i: nat)
    requires Sound(s) && DatabaseDrained(s) && id in s.accepted
    requires Exec(s, a).Some? && |Exec(s, a).value.queue| == 0
    requires Exec(Exec(s, a).value, b).Some? && |Exec(Exec(s, a).value, b).value.deadLetters| == 0
    ensures var end := Exec(Exec(s, a).value, b).value;
            && i < |end.store.receipts| && end.store.receipts[i] == Receipt(Some(id), s.accepted[id])
            && forall j :: 0 <= j < |end.store.receipts| && j != i ==> end.store.receipts[j].key != Some(id)
  {
    var t := Exec(s, a).value;
    var end := Exec(t, b).value;
    DrainedIsHanded(s, id);
    HandedStays(s, a, id);
    RunsAreSound(s, a);
    NothingIsForgottenInRuns(s, a);
    NothingIsForgottenInRuns(t, b);
    RunsAreSound(t, b);
    SoundIsIdempotent(end);
    hide Sound, Exec, DatabaseDrained;
    assert t.queue == map[] && end.deadLetters == map[];
    i := FaithfulReceipt(end, id);
  }

  // ----- completed, but never received -----

  /** This worker has loaded the event and may still post it. */
  predicate StillLoaded(s: System, id: nat) {
    exists w :: w in s.workers && s.workers[w].event == id && s.workers[w].stage.Loaded?
  }

  /** Completed, not received, and no worker left that could still post it. */
  predicate OutOfReach(s: System, id: nat) {
    Completed(s, id) && id !in s.store.keys && !StillLoaded(s, id)
  }

  lemma {:induction false} LatestDeliveredIff(attempts: seq<Attempt>, id: nat)
    ensures LatestDelivered(attempts, id).Some? <==>
            exists i :: 0 <= i < |attempts| && attempts[i].event == id && attempts[i].delivered
  {
    if attempts != [] {
      var n := |attempts| - 1;
      LatestDeliveredIff(attempts[..n], id);
      if i :| 0 <= i < |attempts| && attempts[i].event == id && attempts[i].delivered {
        assert i < n ==> attempts[..n][i] == attempts[i];
      }
    }
  }

  /** Once completed, no further worker loads the event. */
  lemma NoMoreLoads(s: System, step: Step, id: nat)
    requires Enabled(s, step) && Completed(s, id) && !StillLoaded(s, id)
    ensures !StillLoaded(Apply(s, step), id)
  {
    LatestDeliveredIff(s.attempts, id);
    var t := Apply(s, step);
    assert forall w :: w in t.workers && t.workers[w].event == id && t.workers[w].stage.Loaded? ==>
             w in s.workers && s.workers[w] == t.workers[w];
  }

  lemma OutOfReachStep(s: System, step: Step, id: nat)
    requires Enabled(s, step) && OutOfReach(s, id)
    ensures OutOfReach(Apply(s, step), id)
  {
    CompletionAfter(s, step, id);
    NoMoreLoads(s, step, id);
    StoreAfter(s, step, id);
  }

  lemma {:induction false} OutOfReachForever(s: System, steps: seq<Step>, id: nat)
    requires OutOfReach(s, id) && Exec(s, steps).Some?
    ensures OutOfReach(Exec(s, steps).value, id)
  {
    if steps != [] {
      hide OutOfReach, Enabled, Apply;
      var front := steps[..|steps| - 1];
      OutOfReachForever(s, front, id);
      OutOfReachStep(Exec(s, front).value, steps[|steps| - 1], id);
    }
  }

  /**
   A receipt that is missing although the event is completed never arrives, in any
   continuation, exactly when no worker still holds the event loaded.
   */
  lemma NeverReceivedIff(s: System, id: nat)
    requires Sound(s) && Completed(s, id) && id !in s.store.keys
    ensures (forall steps :: Exec(s, steps).Some? ==> id !in Exec(s, steps).value.store.keys)
            <==> (forall w :: w in s.workers && s.workers[w].event == id ==> !s.workers[w].stage.Loaded?)
  {
    hide Exec;
    if StillLoaded(s, id) {
      var w :| w in s.workers && s.workers[w].event == id && s.workers[w].stage.Loaded?;
      LoadedIsAccepted(s, w);
      var post := Post(w, true, PostOutcome.Accepted(200));
      ExecNothing(s);
      ExecExtend(s, [], post);
      StoreAfter(s, post, id);
      assert id in Exec(s, [] + [post]).value.store.keys;
    } else {
      forall steps | Exec(s, steps).Some? ensures id !in Exec(s, steps).value.store.keys {
        OutOfReachForever(s, steps, id);
      }
    }
  }

  lemma CompletedIsAccepted(s: System, id: nat)
    requires Sound(s) && Completed(s, id)
    ensures id in s.accepted
  {
  }

  /** Such an event also keeps the system from ever being observed drained. */
  lemma OutOfReachIsNeverDrained(s: System, steps: seq<Step>, id: nat)
    requires Sound(s) && OutOfReach(s, id) && Exec(s, steps).Some?
    ensures id !in Exec(s, steps).value.store.keys && !DrainedObservation(Exec(s, steps).value)
  {
    var t := Exec(s, steps).value;
    RunsAreSound(s, steps);
    OutOfReachForever(s, steps, id);
    CompletedIsAccepted(t, id);
    if DrainedObservation(t) {
      DrainedMeansDeliveredOnce(t);
    }
  }

  /** The run of an unclassified error ends out of reach: accepted, completed, never received, never drained. */
  lemma UnclassifiedErrorIsNeverDrained(event: NormalizedEvent, more: seq<Step>) returns (steps: seq<Step>)
    ensures Exec(START, steps).Some?
    ensures Exec(START, steps + more).Some? ==>
              var t := Exec(START, steps + more).value;
              && 0 in t.accepted && Completed(t, 0) && 0 !in t.store.keys && !DrainedObservation(t)
  {
    steps := UnclassifiedErrorCountsAsCompleted(event);
    var s := Exec(START, steps).value;
    assert s.attempts[0] == Attempt(0, true, None);
    hide Exec, Sound, DrainedObservation;
    StartIsSound();
    RunsAreSound(START, steps);
    if Exec(START, steps + more).Some? {
      ExecConcat(START, steps, more);
      OutOfReachForever(s, more, 0);
      OutOfReachIsNeverDrained(s, more, 0);
      AcceptedStays(s, more, 0);
    }
  }

  lemma {:induction false} AcceptedStays(s: System, steps: seq<Step>, id: nat)
    requires Exec(s, steps).Some? && id in s.accepted
    ensures id in Exec(s, steps).value.accepted
  {
    if steps != [] {
      var before := Exec(s, steps[..|steps| - 1]).value;
      AcceptedStays(s, steps[..|steps| - 1], id);
      AcceptedStep(before, steps[|steps| - 1], id);
      hide Apply, Enabled;
    }
  }

  lemma AcceptedStep(s: System, step: Step, id: nat)
    requires Enabled(s, step) && id in s.accepted
    ensures id in Apply(s, step).accepted
  {
  }
}
