/**
 Accepted events on their way downstream, as interleaved steps.

 Every database transaction, queue call, HTTP request and acknowledgement is one
 step of its own; a relay transaction or a worker may stop between any two of them.
 */
module DeliveryProtocol {
  import opened Wrappers
  import opened EventPersistence
  import opened DownstreamStore

  /** An open publication transaction over locked outbox rows; `sent` jobs are already enqueued. */
  datatype Relay = Relay(batch: seq<nat>, sent: nat)

  /** How the downstream request ended for the worker. */
  datatype PostOutcome = Accepted(code: nat) | HttpError(code: nat) | TransportError | OtherError

  /** Where a worker is in processing one message. */
  datatype Stage = Received | Loaded | Responded(outcome: PostOutcome) | Recordable

  datatype Worker = Worker(message: nat, event: nat, stage: Stage)

  /** A recorded attempt. Only HTTP and transport errors are recorded as failures. */
  datatype Attempt = Attempt(event: nat, delivered: bool, code: Option<nat>)

  datatype System = System(
    accepted: map<nat, NormalizedEvent>,
    outbox: set<nat>,
    published: set<nat>,
    relays: map<nat, Relay>,
    queue: map<nat, nat>,
    deadLetters: map<nat, nat>,
    nextMessage: nat,
    workers: map<nat, Worker>,
    attempts: seq<Attempt>,
    store: Store)

  const START := System(map[], {}, {}, map[], map[], map[], 0, map[], [], EMPTY_STORE)

  datatype Step =
    | Accept(id: nat, event: NormalizedEvent)     // event and outbox row commit together
    | BeginRelay(tx: nat, batch: seq<nat>)        // lock pending rows
    | Send(tx: nat)                               // enqueue the next job of the batch
    | Commit(tx: nat)                             // mark the batch published
    | Abort(tx: nat)                              // failure or crash: nothing is marked
    | Receive(w: nat, message: nat)               // at-least-once delivery to a worker
    | SkipDelivered(w: nat)                       // an earlier recorded success was found
    | Load(w: nat)                                // no recorded success: load the event
    | Post(w: nat, reached: bool, outcome: PostOutcome)
    | RecordAttempt(w: nat)                       // store the attempt in its own transaction
    | Acknowledge(w: nat)                         // delete the received message
    | Stop(w: nat)                                // any worker failure or crash
    | Redrive(message: nat)                       // too many receives: to the dead-letter queue

  /** The most recent attempt recorded as delivered. */
  function LatestDelivered(attempts: seq<Attempt>, event: nat): Option<Attempt> {
    if attempts == [] then None
    else
      var last := attempts[|attempts| - 1];
      if last.event == event && last.delivered then Some(last)
      else LatestDelivered(attempts[..|attempts| - 1], event)
  }

  /** The worker's `finally` block: anything but an HTTP or transport error is stored as delivered. */
  function AttemptFor(event: nat, outcome: PostOutcome): Attempt {
    match outcome
    case Accepted(code) => Attempt(event, true, Some(code))
    case HttpError(code) => Attempt(event, false, Some(code))
    case TransportError => Attempt(event, false, None)
    case OtherError => Attempt(event, true, None)
  }

  predicate Locked(s: System, id: nat) {
    exists tx :: tx in s.relays && id in s.relays[tx].batch
  }

  predicate AtStage(s: System, w: nat, stage: Stage) {
    w in s.workers && s.workers[w].stage == stage
  }

  ghost predicate Enabled(s: System, step: Step) {
    match step
    case Accept(id, event) => id !in s.accepted
    case BeginRelay(tx, batch) =>
      && tx !in s.relays
      && (forall id :: id in batch ==> id in s.outbox && id !in s.published && !Locked(s, id))
    case Send(tx) => tx in s.relays && s.relays[tx].sent < |s.relays[tx].batch|
    case Commit(tx) => tx in s.relays && s.relays[tx].sent == |s.relays[tx].batch|
    case Abort(tx) => tx in s.relays
    case Receive(w, message) => w !in s.workers && message in s.queue
    case SkipDelivered(w) =>
      && AtStage(s, w, Received)
      && var found := LatestDelivered(s.attempts, s.workers[w].event);
         found.Some? && found.value.code.Some?
    case Load(w) =>
      && AtStage(s, w, Received)
      && LatestDelivered(s.attempts, s.workers[w].event) == None
      && s.workers[w].event in s.accepted
    case Post(w, reached, outcome) =>
      AtStage(s, w, Loaded) && s.workers[w].event in s.accepted && (outcome.Accepted? ==> reached)
    case RecordAttempt(w) => w in s.workers && s.workers[w].stage.Responded?
    case Acknowledge(w) => AtStage(s, w, Recordable)
    case Stop(w) => w in s.workers
    case Redrive(message) => message in s.queue
  }

  function Apply(s: System, step: Step): System
    requires Enabled(s, step)
  {
    match step
    case Accept(id, event) => s.(accepted := s.accepted[id := event], outbox := s.outbox + {id})
    case BeginRelay(tx, batch) => s.(relays := s.relays[tx := Relay(batch, 0)])
    case Send(tx) =>
      var r := s.relays[tx];
      s.(queue := s.queue[s.nextMessage := r.batch[r.sent]], nextMessage := s.nextMessage + 1,
         relays := s.relays[tx := Relay(r.batch, r.sent + 1)])
    case Commit(tx) =>
      s.(published := s.published + (set id | id in s.relays[tx].batch), relays := s.relays - {tx})
    case Abort(tx) => s.(relays := s.relays - {tx})
    case Receive(w, message) => s.(workers := s.workers[w := Worker(message, s.queue[message], Received)])
    case SkipDelivered(w) => s.(workers := s.workers[w := s.workers[w].(stage := Recordable)])
    case Load(w) => s.(workers := s.workers[w := s.workers[w].(stage := Loaded)])
    case Post(w, reached, outcome) =>
      var id := s.workers[w].event;
      s.(workers := s.workers[w := s.workers[w].(stage := Responded(outcome))],
         store := if reached then Recorded(s.store, s.accepted[id], Some(id)) else s.store)
    case RecordAttempt(w) =>
      var worker := s.workers[w];
      s.(attempts := s.attempts + [AttemptFor(worker.event, worker.stage.outcome)],
         workers := if worker.stage.outcome.Accepted? then s.workers[w := worker.(stage := Recordable)]
                    else s.workers - {w})
    case Acknowledge(w) => s.(queue := s.queue - {s.workers[w].message}, workers := s.workers - {w})
    case Stop(w) => s.(workers := s.workers - {w})
    case Redrive(message) =>
      s.(queue := s.queue - {message}, deadLetters := s.deadLetters[message := s.queue[message]])
  }

  /** The state after the steps, or None when one of them is not possible. */
  ghost function Exec(s: System, steps: seq<Step>): Option<System> {
    if steps == [] then Some(s)
    else
      var before := Exec(s, steps[..|steps| - 1]);
      var last := steps[|steps| - 1];
      if before.Some? && Enabled(before.value, last) then Some(Apply(before.value, last)) else None
  }

  // ----- the invariant -----

  /** A job for the event exists, or the event has been received downstream. */
  ghost predicate Handed(s: System, id: nat) {
    || (exists m :: m in s.queue && s.queue[m] == id)
    || (exists m :: m in s.deadLetters && s.deadLetters[m] == id)
    || id in s.store.keys
  }

  ghost predicate OutboxSound(s: System) {
    && s.outbox == s.accepted.Keys
    && s.published <= s.outbox
    && (forall id :: id in s.published ==> Handed(s, id))
  }

  ghost predicate RelaysSound(s: System) {
    forall tx :: tx in s.relays ==>
      && s.relays[tx].sent <= |s.relays[tx].batch|
      && (forall id :: id in s.relays[tx].batch ==> id in s.accepted)
      && (forall k :: 0 <= k < s.relays[tx].sent ==> Handed(s, s.relays[tx].batch[k]))
  }

  ghost predicate MessagesSound(s: System) {
    && s.queue.Keys !! s.deadLetters.Keys
    && (forall m :: m in s.queue ==> m < s.nextMessage && s.queue[m] in s.accepted)
    && (forall m :: m in s.deadLetters ==> m < s.nextMessage && s.deadLetters[m] in s.accepted)
  }

  /** A worker about to acknowledge, or told "accepted", has a receipt behind it. */
  ghost predicate WorkerSound(s: System, worker: Worker) {
    && worker.message < s.nextMessage
    && worker.event in s.accepted
    && (worker.message in s.queue ==> s.queue[worker.message] == worker.event)
    && ((worker.stage == Recordable || (worker.stage.Responded? && worker.stage.outcome.Accepted?))
        ==> worker.event in s.store.keys)
  }

  ghost predicate WorkersSound(s: System) {
    forall w :: w in s.workers ==> WorkerSound(s, s.workers[w])
  }

  /** Attempts are about accepted events, and a coded success has a receipt behind it. */
  ghost predicate AttemptsSound(s: System) {
    forall i :: 0 <= i < |s.attempts| ==>
      && s.attempts[i].event in s.accepted
      && (s.attempts[i].delivered && s.attempts[i].code.Some? ==> s.attempts[i].event in s.store.keys)
  }

  /** Receipts are exactly accepted events, under their own ids, once each. */
  ghost predicate StoreSound(s: System) {
    && Idempotent(s.store)
    && (forall i :: 0 <= i < |s.store.receipts| ==>
          var r := s.store.receipts[i];
          r.key.Some? && r.key.value in s.accepted && r.event == s.accepted[r.key.value])
  }

  ghost predicate Sound(s: System) {
    && OutboxSound(s) && RelaysSound(s) && MessagesSound(s)
    && WorkersSound(s) && AttemptsSound(s) && StoreSound(s)
  }

  lemma {:induction false} LatestDeliveredIsRecorded(attempts: seq<Attempt>, event: nat)
    ensures var found := LatestDelivered(attempts, event);
            found.Some? ==> found.value in attempts && found.value.event == event && found.value.delivered
  {
    if attempts != [] {
      LatestDeliveredIsRecorded(attempts[..|attempts| - 1], event);
    }
  }

  /** Accepted events and receipts are never lost or altered by any step. */
  lemma NothingIsForgotten(s: System, step: Step)
    requires Enabled(s, step) && Idempotent(s.store)
    ensures var t := Apply(s, step);
            && s.accepted.Keys <= t.accepted.Keys
            && (forall id :: id in s.accepted ==> t.accepted[id] == s.accepted[id])
            && s.store.keys <= t.store.keys
            && s.store.receipts <= t.store.receipts
            && s.attempts <= t.attempts
            && s.nextMessage <= t.nextMessage
  {
    if step.Post? && step.reached {
      RecordKeepsIdempotent(s.store, s.accepted[s.workers[step.w].event], Some(s.workers[step.w].event));
    }
  }

  /** A message only leaves the queue for the dead letters, or once its event has a receipt. */
  lemma MessagesAreKept(s: System, step: Step)
    requires Sound(s) && Enabled(s, step)
    ensures var t := Apply(s, step);
            && (forall m :: m in s.deadLetters ==> m in t.deadLetters && t.deadLetters[m] == s.deadLetters[m])
            && (forall m :: m in s.queue ==>
                  || (m in t.queue && t.queue[m] == s.queue[m])
                  || (m in t.deadLetters && t.deadLetters[m] == s.queue[m])
                  || s.queue[m] in t.store.keys)
  {
    if step.Acknowledge? {
      assert WorkerSound(s, s.workers[step.w]);
    }
  }

  /** The heart of at-least-once delivery: no step makes a handed-over event disappear. */
  lemma HandedIsKept(s: System, step: Step, id: nat)
    requires Sound(s) && Enabled(s, step) && Handed(s, id)
    ensures Handed(Apply(s, step), id)
  {
    hide Apply, Enabled, Sound;
    assert Idempotent(s.store) by { SoundIsIdempotent(s); }
    var t := Apply(s, step);
    NothingIsForgotten(s, step);
    MessagesAreKept(s, step);
    if m :| m in s.deadLetters && s.deadLetters[m] == id {
      assert m in t.deadLetters && t.deadLetters[m] == id;
    } else if m :| m in s.queue && s.queue[m] == id {
      assert (m in t.queue && t.queue[m] == id) || (m in t.deadLetters && t.deadLetters[m] == id)
             || s.queue[m] in t.store.keys;
    }
  }

  lemma SoundIsIdempotent(s: System)
    requires Sound(s)
    ensures Idempotent(s.store)
  {
  }

  lemma OutboxKept(s: System, step: Step)
    requires Sound(s) && Enabled(s, step)
    ensures OutboxSound(Apply(s, step))
  {
    var t := Apply(s, step);
    forall id | id in t.published ensures Handed(t, id) && id in t.outbox {
      if id !in s.published {
        var batch := s.relays[step.tx].batch;
        var k :| 0 <= k < |batch| && batch[k] == id;
        assert Handed(s, batch[k]);
      }
      HandedIsKept(s, step, id);
    }
  }

  lemma RelaysKept(s: System, step: Step)
    requires Sound(s) && Enabled(s, step)
    ensures RelaysSound(Apply(s, step))
  {
    var t := Apply(s, step);
    forall tx | tx in t.relays
      ensures t.relays[tx].sent <= |t.relays[tx].batch|
      ensures forall id :: id in t.relays[tx].batch ==> id in t.accepted
      ensures forall k :: 0 <= k < t.relays[tx].sent ==> Handed(t, t.relays[tx].batch[k])
    {
      forall k | 0 <= k < t.relays[tx].sent ensures Handed(t, t.relays[tx].batch[k]) {
        if step.Send? && step.tx == tx && k == s.relays[tx].sent {
          assert s.nextMessage in t.queue && t.queue[s.nextMessage] == t.relays[tx].batch[k];
        } else {
          assert tx in s.relays && s.relays[tx].batch == t.relays[tx].batch;
          HandedIsKept(s, step, s.relays[tx].batch[k]);
        }
      }
    }
  }

  lemma MessagesKept(s: System, step: Step)
    requires Sound(s) && Enabled(s, step)
    ensures MessagesSound(Apply(s, step))
  {
  }

  /** Whoever else moves, a worker that did not is as sound as before. */
  lemma OtherWorkerKept(s: System, step: Step, worker: Worker)
    requires Sound(s) && Enabled(s, step) && WorkerSound(s, worker)
    ensures WorkerSound(Apply(s, step), worker)
  {
    NothingIsForgotten(s, step);
  }

  /** The worker that took the step. */
  lemma MovedWorkerKept(s: System, step: Step, w: nat)
    requires Sound(s) && Enabled(s, step) && w in Apply(s, step).workers
    requires w !in s.workers || Apply(s, step).workers[w] != s.workers[w]
    ensures WorkerSound(Apply(s, step), Apply(s, step).workers[w])
  {
    NothingIsForgotten(s, step);
    if w in s.workers {
      assert WorkerSound(s, s.workers[w]);
      if step.SkipDelivered? {
        LatestDeliveredIsRecorded(s.attempts, s.workers[w].event);
      }
      if step.Post? && step.reached {
        RecordKeepsIdempotent(s.store, s.accepted[s.workers[w].event], Some(s.workers[w].event));
      }
    }
  }

  lemma WorkersKept(s: System, step: Step)
    requires Sound(s) && Enabled(s, step)
    ensures WorkersSound(Apply(s, step))
  {
    var t := Apply(s, step);
    assert WorkersSound(s);
    hide Apply, Enabled, Sound, WorkerSound;
    forall w | w in t.workers ensures WorkerSound(t, t.workers[w]) {
      if w in s.workers && t.workers[w] == s.workers[w] {
        OtherWorkerKept(s, step, s.workers[w]);
      } else {
        MovedWorkerKept(s, step, w);
      }
    }
  }

  lemma AttemptsKept(s: System, step: Step)
    requires Sound(s) && Enabled(s, step)
    ensures AttemptsSound(Apply(s, step))
  {
    var t := Apply(s, step);
    NothingIsForgotten(s, step);
    if step.RecordAttempt? {
      assert WorkerSound(s, s.workers[step.w]);
    }
  }

  lemma StoreKept(s: System, step: Step)
    requires Sound(s) && Enabled(s, step)
    ensures StoreSound(Apply(s, step))
  {
    NothingIsForgotten(s, step);
    if step.Post? && step.reached {
      var id := s.workers[step.w].event;
      RecordKeepsIdempotent(s.store, s.accepted[id], Some(id));
    }
  }

  lemma StepKeepsSound(s: System, step: Step)
    requires Sound(s) && Enabled(s, step)
    ensures Sound(Apply(s, step))
  {
    OutboxKept(s, step);
    RelaysKept(s, step);
    MessagesKept(s, step);
    WorkersKept(s, step);
    AttemptsKept(s, step);
    StoreKept(s, step);
  }

  /** Every run, however its steps interleave and wherever it crashes, stays sound. */
  lemma {:induction false} RunsAreSound(s: System, steps: seq<Step>)
    requires Sound(s) && Exec(s, steps).Some?
    ensures Sound(Exec(s, steps).value)
  {
    if steps != [] {
      var front := steps[..|steps| - 1];
      RunsAreSound(s, front);
      StepKeepsSound(Exec(s, front).value, steps[|steps| - 1]);
    }
  }

  // ----- what holds of every run -----

  /**
   No accepted event is ever lost: in every reachable state it is still pending in
   the outbox, waiting in the queue, parked in the dead-letter queue, or received.
   */
  lemma NoAcceptedEventIsLost(steps: seq<Step>, id: nat)
    requires Exec(START, steps).Some? && id in Exec(START, steps).value.accepted
    ensures var s := Exec(START, steps).value;
            && id in s.outbox
            && (id !in s.published || Handed(s, id))
  {
    RunsAreSound(START, steps);
  }

  /** At most one receipt per event, and it is the accepted event itself. */
  lemma ReceiptsAreFaithful(steps: seq<Step>)
    requires Exec(START, steps).Some?
    ensures var s := Exec(START, steps).value;
            && Idempotent(s.store)
            && (forall i :: 0 <= i < |s.store.receipts| ==>
                  && s.store.receipts[i].key.Some?
                  && s.store.receipts[i].key.value in s.accepted
                  && s.store.receipts[i].event == s.accepted[s.store.receipts[i].key.value])
  {
    RunsAreSound(START, steps);
  }

  /** The counts read from the database show nothing incomplete and nothing pending. */
  ghost predicate DatabaseDrained(s: System) {
    var completed := set i | 0 <= i < |s.attempts| && s.attempts[i].delivered :: s.attempts[i].event;
    && |s.accepted| == |completed|
    && |s.outbox| == |s.accepted|
    && |s.outbox - s.published| == 0
  }

  /** The counts an observation reads, and its drained predicate over them. */
  ghost predicate DrainedObservation(s: System) {
    DatabaseDrained(s) && |s.queue| == 0 && |s.deadLetters| == 0
  }

  lemma {:induction false} ReceiptCount(receipts: seq<Receipt>, keys: set<nat>)
    requires Idempotent(Store(receipts, keys))
    requires forall i :: 0 <= i < |receipts| ==> receipts[i].key.Some?
    ensures |receipts| == |keys|
  {
    if receipts == [] {
      assert keys == {};
    } else {
      var n := |receipts| - 1;
      var front, last := receipts[..n], receipts[n].key.value;
      forall k: nat ensures k in keys - {last} <==> exists i :: 0 <= i < |front| && front[i].key == Some(k) {
        if k in keys - {last} {
          var i :| 0 <= i < |receipts| && receipts[i].key == Some(k);
          assert front[i].key == Some(k);
        }
        if i :| 0 <= i < |front| && front[i].key == Some(k) {
          assert receipts[i].key == Some(k);
        }
      }
      ReceiptCount(front, keys - {last});
      assert last in keys;
    }
  }

  lemma DrainedQueuesAreEmpty(s: System)
    requires DrainedObservation(s)
    ensures s.queue == map[] && s.deadLetters == map[]
  {
  }

  /** With nothing pending, every accepted event has been handed over. */
  lemma DrainedIsHanded(s: System, id: nat)
    requires Sound(s) && DatabaseDrained(s) && id in s.accepted
    ensures Handed(s, id)
  {
    assert s.outbox - s.published == {};
    assert id in s.outbox && id !in s.outbox - s.published;
  }

  lemma FaithfulReceipt(s: System, id: nat) returns (i: nat)
    requires Sound(s) && id in s.store.keys
    ensures id in s.accepted
    ensures i < |s.store.receipts| && s.store.receipts[i] == Receipt(Some(id), s.accepted[id])
  {
    i :| 0 <= i < |s.store.receipts| && s.store.receipts[i].key == Some(id);
  }

  lemma KeysAreAccepted(s: System)
    requires Sound(s)
    ensures s.store.keys <= s.accepted.Keys && |s.store.receipts| == |s.store.keys|
  {
    forall id | id in s.store.keys ensures id in s.accepted {
      var i := FaithfulReceipt(s, id);
    }
    ReceiptCount(s.store.receipts, s.store.keys);
  }

  /** A drained observation proves exactly one faithful receipt for every accepted event, and no other. */
  lemma DrainedMeansDeliveredOnce(s: System)
    requires Sound(s) && DrainedObservation(s)
    ensures s.store.keys == s.accepted.Keys
    ensures |s.store.receipts| == |s.accepted|
    ensures forall id :: id in s.accepted ==>
              exists i :: 0 <= i < |s.store.receipts| && s.store.receipts[i] == Receipt(Some(id), s.accepted[id])
  {
    hide Sound, DatabaseDrained;
    DrainedQueuesAreEmpty(s);
    KeysAreAccepted(s);
    forall id | id in s.accepted
      ensures id in s.store.keys
      ensures exists i :: 0 <= i < |s.store.receipts| && s.store.receipts[i] == Receipt(Some(id), s.accepted[id])
    {
      DrainedIsHanded(s, id);
      var i := FaithfulReceipt(s, id);
    }
    assert |s.accepted| == |s.accepted.Keys|;
  }

  /**
   An attempt recorded as delivered is only evidence of a receipt when it carries a
   response code: the one way to be completed but not received is the uncoded
   attempt stored for an unclassified error.
   */
  lemma CompletedWithoutReceipt(steps: seq<Step>, id: nat)
    requires Exec(START, steps).Some? && id !in Exec(START, steps).value.store.keys
    ensures forall a :: a in Exec(START, steps).value.attempts && a.event == id && a.delivered ==> a.code == None
  {
    RunsAreSound(START, steps);
  }

  lemma ExecExtend(s: System, steps: seq<Step>, step: Step)
    requires Exec(s, steps).Some? && Enabled(Exec(s, steps).value, step)
    ensures Exec(s, steps + [step]) == Some(Apply(Exec(s, steps).value, step))
  {
    assert (steps + [step])[..|steps|] == steps;
  }

  /** One event, accepted and pending. */
  function OneAccepted(event: NormalizedEvent): System {
    START.(accepted := map[0 := event], outbox := {0})
  }

  /** One event, accepted and published. */
  function OnePublished(event: NormalizedEvent): System {
    OneAccepted(event).(published := {0}, queue := map[0 := 0], nextMessage := 1)
  }

  predicate AcceptsNothing(steps: seq<Step>) {
    forall step <- steps :: !step.Accept?
  }

  function OneRelaying(event: NormalizedEvent, sent: nat): System
    requires sent <= 1
  {
    var s := if sent == 0 then OneAccepted(event) else OnePublished(event).(published := {});
    s.(relays := map[0 := Relay([0], sent)])
  }

  lemma OneRelays(event: NormalizedEvent)
    ensures var begin := BeginRelay(0, [0]);
            Enabled(OneAccepted(event), begin) && Apply(OneAccepted(event), begin) == OneRelaying(event, 0)
    ensures Enabled(OneRelaying(event, 0), Send(0)) && Apply(OneRelaying(event, 0), Send(0)) == OneRelaying(event, 1)
  {
    assert OneAccepted(event).relays[0 := Relay([0], 0)] == map[0 := Relay([0], 0)];
    assert OneRelaying(event, 0).relays[0 := Relay([0], 1)] == map[0 := Relay([0], 1)];
    assert OneRelaying(event, 0).queue[0 := 0] == map[0 := 0];
  }

  lemma OneCommits(event: NormalizedEvent)
    ensures Enabled(OneRelaying(event, 1), Commit(0)) && Apply(OneRelaying(event, 1), Commit(0)) == OnePublished(event)
  {
    assert OneRelaying(event, 1).relays - {0} == map[];
    assert (set id | id in [0]) == {0};
  }

  lemma OnePublishedIsReached(event: NormalizedEvent) returns (steps: seq<Step>)
    ensures Exec(OneAccepted(event), steps) == Some(OnePublished(event)) && AcceptsNothing(steps)
  {
    hide Exec, Enabled, Apply;
    var start := OneAccepted(event);
    OneRelays(event);
    OneCommits(event);
    ExecNothing(start);
    ExecExtend(start, [], BeginRelay(0, [0]));
    steps := [] + [BeginRelay(0, [0])];
    ExecExtend(start, steps, Send(0));
    steps := steps + [Send(0)];
    ExecExtend(start, steps, Commit(0));
    steps := steps + [Commit(0)];
  }

  /** The rest of one delivery: a worker receives, loads, posts, records, and perhaps acknowledges. */
  lemma OneResponse(event: NormalizedEvent, reached: bool, outcome: PostOutcome) returns (steps: seq<Step>)
    requires outcome.Accepted? ==> reached
    ensures Exec(OnePublished(event), steps).Some? && AcceptsNothing(steps)
    ensures var s := Exec(OnePublished(event), steps).value;
            s == OnePublished(event).(workers := s.workers, attempts := [AttemptFor(0, outcome)], store := s.store)
            && s.workers == (if outcome.Accepted? then map[0 := Worker(0, 0, Recordable)] else map[])
            && s.store == (if reached then Store([Receipt(Some(0), event)], {0}) else EMPTY_STORE)
  {
    hide Exec;
    var start := OnePublished(event);
    ExecNothing(start);
    ExecExtend(start, [], Receive(0, 0));
    steps := [] + [Receive(0, 0)];
    ExecExtend(start, steps, Load(0));
    steps := steps + [Load(0)];
    ExecExtend(start, steps, Post(0, reached, outcome));
    steps := steps + [Post(0, reached, outcome)];
    ExecExtend(start, steps, RecordAttempt(0));
    steps := steps + [RecordAttempt(0)];
    var s := Exec(start, steps).value;
    assert outcome.Accepted? ==> s.workers == map[0 := Worker(0, 0, Recordable)];
    assert !outcome.Accepted? ==> s.workers == map[];
  }

  /** A drained observation can be reached. */
  lemma DrainedIsReached(event: NormalizedEvent) returns (steps: seq<Step>)
    ensures Exec(OneAccepted(event), steps).Some? && AcceptsNothing(steps)
    ensures DrainedObservation(Exec(OneAccepted(event), steps).value)
  {
    hide Exec;
    var first := OnePublishedIsReached(event);
    var second := OneResponse(event, true, PostOutcome.Accepted(200));
    var responded := Exec(OnePublished(event), second).value;
    ExecExtend(OnePublished(event), second, Acknowledge(0));
    ExecConcat(OneAccepted(event), first, second + [Acknowledge(0)]);
    steps := first + (second + [Acknowledge(0)]);
    var s := Apply(responded, Acknowledge(0));
    assert s.queue == map[] && s.attempts == [Attempt(0, true, Some(200))];
    assert s.attempts[0] == Attempt(0, true, Some(200)) && s.attempts[0].event == 0;
    assert (set i | 0 <= i < |s.attempts| && s.attempts[i].delivered :: s.attempts[i].event) == {0};
    assert s.accepted.Keys == {0} && |s.accepted| == |s.accepted.Keys|;
    assert s.outbox - s.published == {};
  }

  /** So can a completed event without a receipt: the completion count alone does not prove delivery. */
  lemma UnclassifiedErrorCountsAsCompleted(event: NormalizedEvent) returns (steps: seq<Step>)
    ensures Exec(START, steps).Some?
    ensures var s := Exec(START, steps).value;
            && s.accepted == map[0 := event]
            && s.attempts == [Attempt(0, true, None)]
            && s.store == EMPTY_STORE
            && s.queue == map[0 := 0] && s.workers == map[]
            && !DrainedObservation(s)
  {
    hide Exec;
    var first := OnePublishedIsReached(event);
    var second := OneResponse(event, false, OtherError);
    ExecConcat(OneAccepted(event), first, second);
    ExecNothing(START);
    ExecExtend(START, [], Accept(0, event));
    assert START.accepted[0 := event] == map[0 := event] && START.outbox + {0} == {0};
    ExecConcat(START, [] + [Accept(0, event)], first + second);
    steps := [] + [Accept(0, event)] + (first + second);
    assert 0 in Exec(START, steps).value.queue;
  }

  lemma ExecNothing(s: System)
    ensures Exec(s, []) == Some(s)
  {
  }

  lemma {:induction false} ExecConcat(s: System, a: seq<Step>, b: seq<Step>)
    requires Exec(s, a).Some?
    ensures Exec(s, a + b) == Exec(Exec(s, a).value, b)
  {
    if b == [] {
      assert a + b == a;
    } else {
      assert (a + b)[..|a + b| - 1] == a + b[..|b| - 1];
      ExecConcat(s, a, b[..|b| - 1]);
    }
  }
}
