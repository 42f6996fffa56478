/**
 When the system can still be drained.

 A delivery stored as a success without a response code is refused by every later
 lookup, so such an event can only be finished by what is already under way. This
 module says exactly when that is not enough, and that nothing else is in the way.
 */
module DeliveryRecovery {
  import opened Wrappers
  import opened EventPersistence
  import opened DownstreamStore
  import opened DeliveryProtocol
  import opened DeliveryCompletion

  // ----- stranded events -----

  /** The latest recorded success of the event has no response code. */
  predicate Uncoded(s: System, id: nat) {
    var found := LatestDelivered(s.attempts, id);
    found.Some? && found.value.code.None?
  }

  /** The worker may still record a success with a code. */
  predicate Promising(worker: Worker) {
    worker.stage.Loaded? || (worker.stage.Responded? && worker.stage.outcome.Accepted?)
  }

  predicate Promised(s: System, id: nat) {
    exists w :: w in s.workers && s.workers[w].event == id && Promising(s.workers[w])
  }

  /** No worker is about to acknowledge the message. */
  predicate Unheld(s: System, m: nat) {
    forall w :: w in s.workers && s.workers[w].message == m ==> s.workers[w].stage != Recordable
  }

  /** The publication has yet to enqueue a job for the event. */
  predicate Unsent(relay: Relay, id: nat) {
    exists k :: 0 <= k < |relay.batch| && relay.sent <= k && relay.batch[k] == id
  }

  predicate QueuedUnheld(s: System, id: nat) {
    exists m :: m in s.queue && s.queue[m] == id && Unheld(s, m)
  }

  /** Pending, and not in a publication that only has to commit. */
  predicate PendingUnsent(s: System, id: nat) {
    && id in s.outbox && id !in s.published
    && (forall tx :: tx in s.relays && id in s.relays[tx].batch ==> Unsent(s.relays[tx], id))
  }

  predicate DeadLettered(s: System, id: nat) {
    exists m :: m in s.deadLetters && s.deadLetters[m] == id
  }

  /** Some delivery of the event is still to come, or has been given up. */
  predicate Unfinished(s: System, id: nat) {
    QueuedUnheld(s, id) || PendingUnsent(s, id) || DeadLettered(s, id)
  }

  /** Unfinished, refused by every later lookup, and no worker left to change that. */
  predicate Stranded(s: System, id: nat) {
    Uncoded(s, id) && !Promised(s, id) && Unfinished(s, id)
  }

  /** The latest success after one more attempt. */
  lemma LatestAfter(attempts: seq<Attempt>, attempt: Attempt, id: nat)
    ensures LatestDelivered(attempts + [attempt], id) ==
            if attempt.event == id && attempt.delivered then Some(attempt) else LatestDelivered(attempts, id)
  {
    assert (attempts + [attempt])[..|attempts|] == attempts;
  }

  /** What a step does to the latest success. */
  lemma UncodedAfter(s: System, step: Step, id: nat)
    requires Enabled(s, step)
    ensures Uncoded(Apply(s, step), id) <==>
            if step.RecordAttempt? && s.workers[step.w].event == id && CountsAsDelivered(s.workers[step.w].stage.outcome)
            then s.workers[step.w].stage.outcome.OtherError?
            else Uncoded(s, id)
  {
    if step.RecordAttempt? {
      LatestAfter(s.attempts, AttemptFor(s.workers[step.w].event, s.workers[step.w].stage.outcome), id);
    }
  }

  /**
   An unclassified error strands its event exactly when no other worker can still
   record a coded success and a delivery is unfinished: a message nobody is about to
   acknowledge, a job yet to be enqueued, or a dead letter.
   */
  lemma UnclassifiedErrorStrandsIff(s: System, w: nat)
    requires w in s.workers && s.workers[w].stage == Responded(OtherError)
    ensures var id := s.workers[w].event;
            Stranded(Apply(s, RecordAttempt(w)), id) <==>
            && (forall v :: v in s.workers && v != w && s.workers[v].event == id ==> !Promising(s.workers[v]))
            && Unfinished(s, id)
  {
    var id, t := s.workers[w].event, Apply(s, RecordAttempt(w));
    UncodedAfter(s, RecordAttempt(w), id);
    assert forall v :: v in t.workers <==> v in s.workers && v != w;
    assert forall m :: Unheld(t, m) <==> Unheld(s, m);
  }

  // ----- stranded events stay stranded -----

  lemma PromiseIsNotMade(s: System, step: Step, id: nat)
    requires Enabled(s, step) && Uncoded(s, id) && !Promised(s, id)
    ensures !Promised(Apply(s, step), id) && Uncoded(Apply(s, step), id)
  {
    var t := Apply(s, step);
    UncodedAfter(s, step, id);
    if w :| w in t.workers && t.workers[w].event == id && Promising(t.workers[w]) {
      assert w in s.workers && s.workers[w].event == id && Promising(s.workers[w]);
    }
    if step.RecordAttempt? && s.workers[step.w].event == id {
      assert !Promising(s.workers[step.w]);
    }
  }

  /** Nobody comes to hold a message of an event whose lookups are refused. */
  lemma NobodyTakesHold(s: System, step: Step, w: nat)
    requires Enabled(s, step) && w in Apply(s, step).workers && Apply(s, step).workers[w].stage == Recordable
    requires Uncoded(s, Apply(s, step).workers[w].event) && !Promised(s, Apply(s, step).workers[w].event)
    ensures w in s.workers && s.workers[w] == Apply(s, step).workers[w]
  {
    assert forall v :: v in s.workers && Promising(s.workers[v]) ==> Promised(s, s.workers[v].event);
  }

  lemma WorkerOfMessage(s: System, w: nat, m: nat)
    requires Sound(s) && w in s.workers && s.workers[w].message == m
    ensures m < s.nextMessage && (m in s.queue ==> s.queue[m] == s.workers[w].event)
  {
    assert WorkerSound(s, s.workers[w]);
  }

  lemma UnheldMessage(s: System, step: Step, m: nat)
    requires Sound(s) && Enabled(s, step) && m in s.queue && Unheld(s, m)
    ensures var t := Apply(s, step);
            (m in t.queue && t.queue[m] == s.queue[m]) || (m in t.deadLetters && t.deadLetters[m] == s.queue[m])
  {
    assert MessagesSound(s);
    hide Sound;
  }

  lemma UnheldStays(s: System, step: Step, id: nat, m: nat)
    requires Sound(s) && Enabled(s, step) && Uncoded(s, id) && !Promised(s, id)
    requires m in s.queue && s.queue[m] == id && Unheld(s, m)
    ensures var t := Apply(s, step);
            (m in t.queue && t.queue[m] == id && Unheld(t, m)) || (m in t.deadLetters && t.deadLetters[m] == id)
  {
    var t := Apply(s, step);
    StepKeepsSound(s, step);
    hide Sound, Uncoded, Promised;
    UnheldMessage(s, step, m);
    hide Apply, Enabled;
    if m in t.queue && t.queue[m] == id {
      forall w | w in t.workers && t.workers[w].message == m ensures t.workers[w].stage != Recordable {
        WorkerOfMessage(t, w, m);
        if t.workers[w].stage == Recordable {
          NobodyTakesHold(s, step, w);
        }
      }
    }
  }

  /** The job a publication enqueues is new to every worker. */
  lemma SentIsUnheld(s: System, tx: nat)
    requires Sound(s) && Enabled(s, Send(tx))
    ensures QueuedUnheld(Apply(s, Send(tx)), s.relays[tx].batch[s.relays[tx].sent])
  {
    var t, m := Apply(s, Send(tx)), s.nextMessage;
    assert m in t.queue && t.queue[m] == s.relays[tx].batch[s.relays[tx].sent];
    forall w | w in t.workers ensures t.workers[w].message != m {
      WorkerOfMessage(s, w, s.workers[w].message);
    }
    hide Sound;
  }

  lemma UnsentStays(s: System, step: Step, id: nat, tx: nat)
    requires Enabled(s, step) && PendingUnsent(s, id)
    requires !(step == Send(tx) && tx in s.relays && s.relays[tx].batch[s.relays[tx].sent] == id)
    requires tx in Apply(s, step).relays && id in Apply(s, step).relays[tx].batch
    ensures Unsent(Apply(s, step).relays[tx], id)
  {
    var t := Apply(s, step);
    if tx in s.relays {
      var k :| 0 <= k < |s.relays[tx].batch| && s.relays[tx].sent <= k && s.relays[tx].batch[k] == id;
      assert t.relays[tx].batch[k] == id;
    } else {
      var k :| 0 <= k < |t.relays[tx].batch| && t.relays[tx].batch[k] == id;
    }
  }

  lemma PendingStays(s: System, step: Step, id: nat)
    requires Sound(s) && Enabled(s, step) && PendingUnsent(s, id)
    ensures PendingUnsent(Apply(s, step), id) || QueuedUnheld(Apply(s, step), id)
  {
    var t := Apply(s, step);
    if step.Send? && s.relays[step.tx].batch[s.relays[step.tx].sent] == id {
      SentIsUnheld(s, step.tx);
    } else {
      hide Sound, QueuedUnheld;
      assert id in t.outbox && id !in t.published;
      forall tx | tx in t.relays && id in t.relays[tx].batch ensures Unsent(t.relays[tx], id) {
        UnsentStays(s, step, id, tx);
      }
    }
  }

  lemma UnfinishedStays(s: System, step: Step, id: nat)
    requires Sound(s) && Enabled(s, step) && Stranded(s, id)
    ensures Unfinished(Apply(s, step), id)
  {
    var t := Apply(s, step);
    StepKeepsSound(s, step);
    if DeadLettered(s, id) {
      DeadLettersKept(s, step, id);
    } else if QueuedUnheld(s, id) {
      var m :| m in s.queue && s.queue[m] == id && Unheld(s, m);
      hide Sound, Apply, Enabled;
      UnheldStays(s, step, id, m);
    } else {
      PendingStays(s, step, id);
    }
  }

  lemma DeadLettersKept(s: System, step: Step, id: nat)
    requires Enabled(s, step) && MessagesSound(s) && DeadLettered(s, id)
    ensures DeadLettered(Apply(s, step), id)
  {
    var m :| m in s.deadLetters && s.deadLetters[m] == id;
    assert m in Apply(s, step).deadLetters;
  }

  lemma StrandedStep(s: System, step: Step, id: nat)
    requires Sound(s) && Stranded(s, id) && Enabled(s, step)
    ensures Stranded(Apply(s, step), id)
    ensures id in Apply(s, step).store.keys <==> id in s.store.keys
  {
    PromiseIsNotMade(s, step, id);
    UnfinishedStays(s, step, id);
    StoreAfter(s, step, id);
    assert step.Post? ==> Promising(s.workers[step.w]);
    hide Sound, Unfinished, Uncoded;
  }

  lemma StrandedIsNotDrained(s: System, id: nat)
    requires Stranded(s, id)
    ensures !DrainedObservation(s)
  {
    if m :| m in s.queue && s.queue[m] == id {
      assert s.queue != map[];
    } else if DeadLettered(s, id) {
      assert s.deadLetters != map[];
    } else {
      assert id in s.outbox - s.published;
    }
  }

  /**
   A stranded event stays as it is whatever happens next: a receipt it lacks never
   arrives, its deliveries are never finished, and the system is never observed drained.
   */
  lemma {:induction false} StrandedForever(s: System, steps: seq<Step>, id: nat)
    requires Sound(s) && Stranded(s, id) && Exec(s, steps).Some?
    ensures var t := Exec(s, steps).value;
            && Stranded(t, id) && (id in t.store.keys <==> id in s.store.keys) && !DrainedObservation(t)
  {
    hide Sound, Stranded, DrainedObservation, Enabled, Apply;
    if steps == [] {
      StrandedIsNotDrained(s, id);
    } else {
      var front, last := steps[..|steps| - 1], steps[|steps| - 1];
      StrandedForever(s, front, id);
      RunsAreSound(s, front);
      var before := Exec(s, front).value;
      StrandedStep(before, last, id);
      StrandedIsNotDrained(Apply(before, last), id);
    }
  }

  // ----- every published event is accounted for -----

  /** A job for the event exists, or a success is recorded. */
  ghost predicate Tracked(s: System, id: nat) {
    (exists m :: m in s.queue && s.queue[m] == id) || DeadLettered(s, id) || Completed(s, id)
  }

  ghost predicate PublicationsTracked(s: System) {
    && (forall id :: id in s.published ==> Tracked(s, id))
    && (forall tx, k :: tx in s.relays && 0 <= k < s.relays[tx].sent && k < |s.relays[tx].batch|
          ==> Tracked(s, s.relays[tx].batch[k]))
  }

  /** Open publications lock their rows. */
  ghost predicate RelaysApart(s: System) {
    && (forall tx, id :: tx in s.relays && id in s.relays[tx].batch ==> id !in s.published)
    && (forall tx, other, id ::
          tx in s.relays && other in s.relays && id in s.relays[tx].batch && id in s.relays[other].batch ==> tx == other)
  }

  ghost predicate HoldersCompleted(s: System) {
    forall w :: w in s.workers && s.workers[w].stage == Recordable ==> Completed(s, s.workers[w].event)
  }

  ghost predicate Accountable(s: System) {
    Sound(s) && PublicationsTracked(s) && RelaysApart(s) && HoldersCompleted(s)
  }

  /** A batch in the next state was there before, or has just been locked. */
  lemma BatchAfter(s: System, step: Step, tx: nat)
    requires Enabled(s, step) && tx in Apply(s, step).relays
    ensures var batch := Apply(s, step).relays[tx].batch;
            if tx in s.relays then batch == s.relays[tx].batch
            else step.BeginRelay? && forall id :: id in batch ==> id !in s.published && !Locked(s, id)
  {
  }

  lemma RelaysApartKept(s: System, step: Step)
    requires RelaysApart(s) && Enabled(s, step)
    ensures RelaysApart(Apply(s, step))
  {
    var t := Apply(s, step);
    forall tx | tx in t.relays
      ensures forall id :: id in t.relays[tx].batch ==> id !in t.published
    {
      BatchAfter(s, step, tx);
    }
    hide Enabled, Apply;
    forall tx, other, id | tx in t.relays && other in t.relays && id in t.relays[tx].batch && id in t.relays[other].batch
      ensures tx == other
    {
      BatchAfter(s, step, tx);
      BatchAfter(s, step, other);
      if tx !in s.relays && other !in s.relays {
        OneBegins(s, step, tx, other);
      }
      assert tx in s.relays ==> Locked(s, id);
      assert other in s.relays ==> Locked(s, id);
    }
  }

  lemma OneBegins(s: System, step: Step, tx: nat, other: nat)
    requires Enabled(s, step) && tx in Apply(s, step).relays && other in Apply(s, step).relays
    requires tx !in s.relays && other !in s.relays
    ensures tx == other
  {
  }

  lemma HoldersCompletedKept(s: System, step: Step)
    requires HoldersCompleted(s) && Enabled(s, step)
    ensures HoldersCompleted(Apply(s, step))
  {
    var t := Apply(s, step);
    forall w | w in t.workers && t.workers[w].stage == Recordable ensures Completed(t, t.workers[w].event) {
      if w in s.workers && s.workers[w].stage == Recordable {
        CompletionAfter(s, step, s.workers[w].event);
      } else if step.SkipDelivered? {
        LatestDeliveredIff(s.attempts, s.workers[w].event);
        CompletionAfter(s, step, s.workers[w].event);
      } else {
        assert t.attempts[|s.attempts|].delivered;
      }
    }
  }

  /** A message leaves the queue only for the dead letters, or once a success is recorded. */
  lemma QueuedStays(s: System, step: Step, m: nat)
    requires Sound(s) && HoldersCompleted(s) && Enabled(s, step) && m in s.queue
    ensures var t := Apply(s, step);
            || (m in t.queue && t.queue[m] == s.queue[m])
            || (m in t.deadLetters && t.deadLetters[m] == s.queue[m])
            || Completed(s, s.queue[m])
  {
    assert step.Acknowledge? ==> WorkerSound(s, s.workers[step.w]) && Completed(s, s.workers[step.w].event);
    assert m < s.nextMessage;
    hide Sound, HoldersCompleted, Completed;
  }

  lemma TrackedStays(s: System, step: Step, id: nat)
    requires Sound(s) && HoldersCompleted(s) && Enabled(s, step) && Tracked(s, id)
    ensures Tracked(Apply(s, step), id)
  {
    CompletionAfter(s, step, id);
    assert MessagesSound(s);
    hide Apply, Enabled, Sound, MessagesSound, HoldersCompleted, Completed;
    if DeadLettered(s, id) {
      DeadLettersKept(s, step, id);
    } else if m :| m in s.queue && s.queue[m] == id {
      QueuedStays(s, step, m);
    }
  }

  lemma PublicationsTrackedKept(s: System, step: Step)
    requires Accountable(s) && Enabled(s, step)
    ensures PublicationsTracked(Apply(s, step))
  {
    var t := Apply(s, step);
    forall tx, k | tx in t.relays && 0 <= k < t.relays[tx].sent && k < |t.relays[tx].batch|
      ensures Tracked(t, t.relays[tx].batch[k])
    {
      if step.Send? && step.tx == tx && k == s.relays[tx].sent {
        assert s.nextMessage in t.queue && t.queue[s.nextMessage] == t.relays[tx].batch[k];
      } else {
        TrackedStays(s, step, s.relays[tx].batch[k]);
      }
    }
    forall id | id in t.published ensures Tracked(t, id) {
      if id !in s.published {
        var batch := s.relays[step.tx].batch;
        var k :| 0 <= k < |batch| && batch[k] == id;
        assert Tracked(s, batch[k]);
      }
      TrackedStays(s, step, id);
    }
  }

  lemma AccountableStep(s: System, step: Step)
    requires Accountable(s) && Enabled(s, step)
    ensures Accountable(Apply(s, step))
  {
    StepKeepsSound(s, step);
    PublicationsTrackedKept(s, step);
    RelaysApartKept(s, step);
    HoldersCompletedKept(s, step);
    hide Sound, PublicationsTracked, RelaysApart, HoldersCompleted;
  }

  /** In every reachable state a published event has a job, a dead letter, or a recorded success. */
  lemma {:induction false} RunsAreAccountable(steps: seq<Step>)
    requires Exec(START, steps).Some?
    ensures Accountable(Exec(START, steps).value)
  {
    if steps != [] {
      hide Accountable, Enabled, Apply;
      var front := steps[..|steps| - 1];
      RunsAreAccountable(front);
      AccountableStep(Exec(START, front).value, steps[|steps| - 1]);
    }
  }

  // ----- steps that strand nothing -----

  /** What a recovering system does: it gives nothing up, and answers are accepted. */
  predicate Helpful(s: System, step: Step) {
    match step
    case Accept(_, _) => false
    case BeginRelay(_, batch) => forall id :: id in batch ==> !Uncoded(s, id)
    case Send(tx) =>
      tx in s.relays && var r := s.relays[tx]; r.sent < |r.batch| && !Uncoded(s, r.batch[r.sent])
    case Commit(_) => true
    case Abort(_) => false
    case Receive(_, _) => true
    case SkipDelivered(_) => true
    case Load(_) => true
    case Post(_, _, outcome) => outcome.Accepted?
    case RecordAttempt(w) => w in s.workers && Promising(s.workers[w])
    case Acknowledge(_) => true
    case Stop(w) => w in s.workers && s.workers[w].stage != Recordable && !Promising(s.workers[w])
    case Redrive(_) => false
  }

  lemma PromiseIsKept(s: System, step: Step, id: nat)
    requires Enabled(s, step) && Helpful(s, step) && Uncoded(s, id) && Promised(s, id)
    ensures Promised(Apply(s, step), id) || !Uncoded(Apply(s, step), id)
  {
    UncodedAfter(s, step, id);
    hide LatestDelivered, Uncoded;
    var t := Apply(s, step);
    var w :| w in s.workers && s.workers[w].event == id && Promising(s.workers[w]);
    if !(step.RecordAttempt? && step.w == w) {
      assert w in t.workers && t.workers[w].event == id && Promising(t.workers[w]);
    }
  }

  /** Only the worker about to acknowledge a message removes it, and nothing stops that worker. */
  lemma HolderStays(s: System, step: Step, w: nat)
    requires Enabled(s, step) && Helpful(s, step) && w in s.workers && s.workers[w].stage == Recordable
    ensures step == Acknowledge(w) || (w in Apply(s, step).workers && Apply(s, step).workers[w] == s.workers[w])
    ensures step == Acknowledge(w) ==> s.workers[w].message !in Apply(s, step).queue
  {
    hide LatestDelivered, Uncoded;
  }

  lemma EnqueuesOthers(s: System, step: Step, id: nat, m: nat)
    requires Enabled(s, step) && Helpful(s, step) && Uncoded(s, id)
    requires m in Apply(s, step).queue && Apply(s, step).queue[m] == id
    ensures m in s.queue && s.queue[m] == id
  {
    hide LatestDelivered, Uncoded;
  }

  lemma HeldStays(s: System, step: Step, id: nat)
    requires Enabled(s, step) && Helpful(s, step) && Uncoded(s, id) && !QueuedUnheld(s, id)
    ensures !QueuedUnheld(Apply(s, step), id)
  {
    hide LatestDelivered, Uncoded, Enabled, Apply, Helpful;
    var t := Apply(s, step);
    forall m | m in t.queue && t.queue[m] == id ensures !Unheld(t, m) {
      EnqueuesOthers(s, step, id, m);
      assert !Unheld(s, m);
      var w :| w in s.workers && s.workers[w].message == m && s.workers[w].stage == Recordable;
      HolderStays(s, step, w);
    }
  }

  /** A publication that has enqueued the event either commits or still has it enqueued. */
  lemma EnqueuedStays(s: System, step: Step, id: nat, tx: nat)
    requires Enabled(s, step) && Helpful(s, step)
    requires tx in s.relays && id in s.relays[tx].batch && !Unsent(s.relays[tx], id)
    ensures var t := Apply(s, step);
            id in t.published || (tx in t.relays && id in t.relays[tx].batch && !Unsent(t.relays[tx], id))
  {
    hide LatestDelivered, Uncoded;
    var t := Apply(s, step);
    if step != Commit(tx) {
      assert t.relays[tx].batch == s.relays[tx].batch && s.relays[tx].sent <= t.relays[tx].sent;
    }
  }

  lemma SentStays(s: System, step: Step, id: nat)
    requires Enabled(s, step) && Helpful(s, step) && Uncoded(s, id) && !PendingUnsent(s, id)
    ensures !PendingUnsent(Apply(s, step), id)
  {
    if tx :| tx in s.relays && id in s.relays[tx].batch && !Unsent(s.relays[tx], id) {
      EnqueuedStays(s, step, id, tx);
    }
  }

  /** A helpful step strands nobody. */
  lemma HelpfulStrandsNobody(s: System, step: Step, id: nat)
    requires Enabled(s, step) && Helpful(s, step) && s.deadLetters == map[] && !Stranded(s, id)
    ensures !Stranded(Apply(s, step), id)
  {
    UncodedAfter(s, step, id);
    if Uncoded(s, id) {
      if Promised(s, id) {
        PromiseIsKept(s, step, id);
      } else {
        HeldStays(s, step, id);
        SentStays(s, step, id);
      }
    }
  }

  ghost predicate Recoverable(s: System) {
    Accountable(s) && s.deadLetters == map[] && forall id :: id in s.accepted ==> !Stranded(s, id)
  }

  /** Some run without new events leads from one recoverable state to another. */
  ghost predicate Leads(s: System, t: System) {
    && (exists steps :: Exec(s, steps) == Some(t))
    && Recoverable(t) && t.accepted == s.accepted
  }

  lemma HelpfulLeads(s: System, step: Step)
    requires Recoverable(s) && Enabled(s, step) && Helpful(s, step)
    ensures Leads(s, Apply(s, step))
  {
    hide Accountable, Stranded, Exec, LatestDelivered;
    var t := Apply(s, step);
    AccountableStep(s, step);
    forall id | id in t.accepted ensures !Stranded(t, id) {
      HelpfulStrandsNobody(s, step, id);
    }
    ExecNothing(s);
    ExecExtend(s, [], step);
    assert Exec(s, [] + [step]) == Some(t);
  }

  lemma LeadsNowhere(s: System)
    requires Recoverable(s)
    ensures Leads(s, s)
  {
    ExecNothing(s);
  }

  lemma LeadsOn(s: System, t: System, u: System)
    requires Leads(s, t) && Leads(t, u)
    ensures Leads(s, u)
  {
    hide Recoverable, Exec;
    var a :| Exec(s, a) == Some(t);
    var b :| Exec(t, b) == Some(u);
    ExecConcat(s, a, b);
  }

  // ----- a run that recovers -----

  /** How many helpful steps the worker still takes before it is done. */
  function Remaining(worker: Worker): nat {
    match worker.stage
    case Loaded => 2
    case Responded(_) => 1
    case _ => 0
  }

  /** The worker finishes its delivery when it still can and gives it up otherwise. */
  lemma {:induction false} DismissWorker(s: System, w: nat) returns (t: System)
    requires Recoverable(s) && w in s.workers
    ensures Leads(s, t) && t.relays == s.relays && t.outbox == s.outbox && t.published == s.published
    ensures t.workers == s.workers - {w}
    ensures var worker := s.workers[w];
            t.queue == if Promising(worker) || worker.stage == Recordable then s.queue - {worker.message} else s.queue
    decreases Remaining(s.workers[w])
  {
    hide Recoverable, Leads, LatestDelivered;
    var worker := s.workers[w];
    if worker.stage.Loaded? || Promising(worker) {
      var step := if worker.stage.Loaded? then Post(w, true, PostOutcome.Accepted(200)) else RecordAttempt(w);
      RecoverableIsSound(s);
      LoadedIsAccepted(s, w);
      HelpfulLeads(s, step);
      var u := Apply(s, step);
      LeadsTo(s, u);
      t := DismissWorker(u, w);
      LeadsOn(s, u, t);
    } else {
      var step := if worker.stage == Recordable then Acknowledge(w) else Stop(w);
      HelpfulLeads(s, step);
      t := Apply(s, step);
    }
  }

  lemma RecoverableIsSound(s: System)
    requires Recoverable(s)
    ensures Sound(s)
  {
  }

  lemma LeadsTo(s: System, t: System)
    requires Leads(s, t)
    ensures Recoverable(t) && t.accepted == s.accepted
  {
  }

  lemma {:induction false} DismissWorkers(s: System) returns (t: System)
    requires Recoverable(s)
    ensures Leads(s, t) && t.workers == map[]
    decreases |s.workers|
  {
    hide Recoverable, Leads;
    if s.workers == map[] {
      LeadsNowhere(s);
      t := s;
    } else {
      var w :| w in s.workers;
      var u := DismissWorker(s, w);
      LeadsTo(s, u);
      assert w !in u.workers && u.workers.Keys == s.workers.Keys - {w};
      assert |u.workers| == |u.workers.Keys| && |s.workers| == |s.workers.Keys|;
      t := DismissWorkers(u);
      LeadsOn(s, u, t);
    }
  }

  /** Without workers an event with an uncoded success is fully enqueued wherever it is locked. */
  lemma NextIsNotUncoded(s: System, tx: nat)
    requires Recoverable(s) && s.workers == map[] && tx in s.relays && s.relays[tx].sent < |s.relays[tx].batch|
    ensures !Uncoded(s, s.relays[tx].batch[s.relays[tx].sent])
  {
    var id := s.relays[tx].batch[s.relays[tx].sent];
    assert RelaysApart(s) && RelaysSound(s) && OutboxSound(s);
    assert Unsent(s.relays[tx], id);
    assert id in s.relays[tx].batch;
    assert PendingUnsent(s, id);
    assert !Stranded(s, id);
  }

  /** An open publication enqueues the rest of its batch and commits. */
  lemma {:induction false} FinishRelay(s: System, tx: nat) returns (t: System)
    requires Recoverable(s) && s.workers == map[] && tx in s.relays
    ensures Leads(s, t) && t.workers == map[] && t.relays == s.relays - {tx}
    ensures t.outbox == s.outbox && t.published == s.published + (set id | id in s.relays[tx].batch)
    decreases |s.relays[tx].batch| - s.relays[tx].sent
  {
    hide Recoverable, Leads, LatestDelivered;
    SentWithinBatch(s, tx);
    var step := if s.relays[tx].sent < |s.relays[tx].batch| then Send(tx) else Commit(tx);
    if step.Send? {
      NextIsNotUncoded(s, tx);
    }
    HelpfulLeads(s, step);
    t := Apply(s, step);
    if step.Send? {
      var u := t;
      LeadsTo(s, u);
      t := FinishRelay(u, tx);
      LeadsOn(s, u, t);
    }
  }

  lemma SentWithinBatch(s: System, tx: nat)
    requires Recoverable(s) && tx in s.relays
    ensures s.relays[tx].sent <= |s.relays[tx].batch|
  {
    assert RelaysSound(s);
  }

  lemma {:induction false} FinishRelays(s: System) returns (t: System)
    requires Recoverable(s) && s.workers == map[]
    ensures Leads(s, t) && t.workers == map[] && t.relays == map[]
    decreases |s.relays|
  {
    hide Recoverable, Leads;
    if s.relays == map[] {
      LeadsNowhere(s);
      t := s;
    } else {
      var tx :| tx in s.relays;
      var u := FinishRelay(s, tx);
      LeadsTo(s, u);
      assert tx !in u.relays && u.relays.Keys == s.relays.Keys - {tx};
      assert |u.relays| == |u.relays.Keys| && |s.relays| == |s.relays.Keys|;
      t := FinishRelays(u);
      LeadsOn(s, u, t);
    }
  }

  lemma PendingIsNotUncoded(s: System, id: nat)
    requires Recoverable(s) && s.workers == map[] && s.relays == map[] && id in s.outbox - s.published
    ensures !Uncoded(s, id)
  {
    assert OutboxSound(s);
    assert PendingUnsent(s, id);
    assert !Stranded(s, id);
  }

  /** Pending events are published one at a time. */
  lemma {:induction false} PublishPending(s: System) returns (t: System)
    requires Recoverable(s) && s.workers == map[] && s.relays == map[]
    ensures Leads(s, t) && t.workers == map[] && t.relays == map[] && t.outbox - t.published == {}
    decreases |s.outbox - s.published|
  {
    hide Recoverable, Leads, LatestDelivered;
    if s.outbox - s.published == {} {
      LeadsNowhere(s);
      t := s;
    } else {
      var id :| id in s.outbox - s.published;
      PendingIsNotUncoded(s, id);
      HelpfulLeads(s, BeginRelay(0, [id]));
      var u := Apply(s, BeginRelay(0, [id]));
      LeadsTo(s, u);
      var v := FinishRelay(u, 0);
      LeadsOn(s, u, v);
      LeadsTo(s, v);
      assert v.relays == map[];
      assert id in [id];
      assert v.outbox - v.published == s.outbox - s.published - {id};
      t := PublishPending(v);
      LeadsOn(s, v, t);
    }
  }

  lemma QueuedIsNotUncoded(s: System, m: nat)
    requires Recoverable(s) && s.workers == map[] && m in s.queue
    ensures s.queue[m] in s.accepted && !Uncoded(s, s.queue[m])
  {
    assert MessagesSound(s);
    assert Unheld(s, m);
    assert QueuedUnheld(s, s.queue[m]);
    assert !Stranded(s, s.queue[m]);
  }

  /** A message is received, its event skipped or delivered, and acknowledged. */
  lemma ProcessQueued(s: System, m: nat) returns (t: System)
    requires Recoverable(s) && s.workers == map[] && m in s.queue
    ensures Leads(s, t) && t.workers == map[] && t.queue == s.queue - {m}
    ensures t.relays == s.relays && t.outbox == s.outbox && t.published == s.published
  {
    hide Recoverable, Leads, LatestDelivered;
    QueuedIsNotUncoded(s, m);
    HelpfulLeads(s, Receive(0, m));
    var u := Apply(s, Receive(0, m));
    LeadsTo(s, u);
    var id := s.queue[m];
    var step := if LatestDelivered(u.attempts, id) == None then Load(0) else SkipDelivered(0);
    HelpfulLeads(u, step);
    var v := Apply(u, step);
    LeadsTo(u, v);
    LeadsOn(s, u, v);
    t := DismissWorker(v, 0);
    LeadsOn(s, v, t);
  }

  lemma {:induction false} ProcessQueue(s: System) returns (t: System)
    requires Recoverable(s) && s.workers == map[]
    ensures Leads(s, t) && t.queue == map[]
    ensures t.outbox == s.outbox && t.published == s.published
    decreases |s.queue|
  {
    hide Recoverable, Leads;
    if s.queue == map[] {
      LeadsNowhere(s);
      t := s;
    } else {
      var m :| m in s.queue;
      var u := ProcessQueued(s, m);
      LeadsTo(s, u);
      assert u.queue.Keys == s.queue.Keys - {m};
      assert |u.queue| == |u.queue.Keys| && |s.queue| == |s.queue.Keys|;
      t := ProcessQueue(u);
      LeadsOn(s, u, t);
    }
  }

  lemma NothingLeftIsCompleted(s: System, id: nat)
    requires Accountable(s) && s.outbox - s.published == {} && s.queue == map[] && s.deadLetters == map[]
    requires id in s.accepted
    ensures Completed(s, id)
  {
    assert OutboxSound(s);
    assert id in s.outbox && id !in s.outbox - s.published;
    assert Tracked(s, id);
  }

  lemma AllCompletedCount(s: System)
    requires Sound(s) && forall id :: id in s.accepted ==> Completed(s, id)
    ensures |s.accepted| == |set i | 0 <= i < |s.attempts| && s.attempts[i].delivered :: s.attempts[i].event|
  {
    assert AttemptsSound(s);
    hide Sound;
    var completed := set i | 0 <= i < |s.attempts| && s.attempts[i].delivered :: s.attempts[i].event;
    forall id | id in s.accepted ensures id in completed {
      assert Completed(s, id);
    }
    assert completed == s.accepted.Keys;
    assert |s.accepted| == |s.accepted.Keys|;
  }

  /** With nothing pending, queued or dead-lettered, every accepted event is completed. */
  lemma NothingLeftIsDrained(s: System)
    requires Accountable(s) && s.outbox - s.published == {} && s.queue == map[] && s.deadLetters == map[]
    ensures DrainedObservation(s)
  {
    assert Sound(s) && OutboxSound(s);
    assert |s.accepted| == |s.accepted.Keys|;
    hide Sound, Accountable, Completed;
    forall id | id in s.accepted ensures Completed(s, id) {
      NothingLeftIsCompleted(s, id);
    }
    AllCompletedCount(s);
  }

  /** From every recoverable state some run without new events ends in a drained observation. */
  lemma Recovery(s: System) returns (steps: seq<Step>)
    requires Recoverable(s)
    ensures Exec(s, steps).Some? && Exec(s, steps).value.accepted == s.accepted
    ensures DrainedObservation(Exec(s, steps).value)
  {
    hide Accountable, Stranded, Exec, DrainedObservation;
    var a := DismissWorkers(s);
    var b := FinishRelays(a);
    LeadsOn(s, a, b);
    var c := PublishPending(b);
    LeadsOn(s, b, c);
    var d := ProcessQueue(c);
    LeadsOn(s, c, d);
    NothingLeftIsDrained(d);
    steps :| Exec(s, steps) == Some(d);
  }

  lemma {:induction false} DeadLettersStay(s: System, steps: seq<Step>)
    requires Sound(s) && Exec(s, steps).Some? && s.deadLetters != map[]
    ensures !DrainedObservation(Exec(s, steps).value)
  {
    NothingIsForgottenInRuns(s, steps);
    var m :| m in s.deadLetters;
    assert m in Exec(s, steps).value.deadLetters;
    hide Exec, Sound;
  }

  /**
   A run can still be continued to a drained observation exactly when nothing is in
   the dead-letter queue and no accepted event is stranded.
   */
  lemma CanDrainIff(run: seq<Step>)
    requires Exec(START, run).Some?
    ensures var s := Exec(START, run).value;
            (exists more :: Exec(s, more).Some? && DrainedObservation(Exec(s, more).value))
            <==> s.deadLetters == map[] && forall id :: id in s.accepted ==> !Stranded(s, id)
  {
    var s := Exec(START, run).value;
    RunsAreAccountable(run);
    assert Sound(s);
    hide Exec, Sound, Stranded, DrainedObservation, PublicationsTracked, RelaysApart, HoldersCompleted;
    if more :| Exec(s, more).Some? && DrainedObservation(Exec(s, more).value) {
      if s.deadLetters != map[] {
        DeadLettersStay(s, more);
      }
      forall id | Stranded(s, id) ensures false {
        StrandedForever(s, more, id);
      }
    }
    if s.deadLetters == map[] && forall id :: id in s.accepted ==> !Stranded(s, id) {
      var more := Recovery(s);
    }
  }
}
