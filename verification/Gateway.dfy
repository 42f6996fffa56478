/**
 The gateway end to end: partner arrivals through persistence, interleaved with
 every delivery step, from the first request to the last receipt.
 */
module Gateway {
  import opened Wrappers
  import opened ShipmentDomain
  import opened EventPersistence
  import opened DownstreamStore
  import opened DeliveryProtocol
  import opened DeliveryWorker
  import opened DeliveryRelay

  datatype State = State(tables: Tables, system: System)

  datatype Input = Arrive(event: NormalizedEvent) | Deliver(step: Step)

  /** Every committed event was accepted for delivery, as it is and under its committed id. */
  ghost predicate CommittedAreAccepted(events: map<(string, string), StoredEvent>, accepted: map<nat, NormalizedEvent>) {
    forall k :: k in events ==> events[k].id in accepted && accepted[events[k].id] == events[k].event
  }

  /** Nothing else was. */
  ghost predicate AcceptedAreCommitted(events: map<(string, string), StoredEvent>, accepted: map<nat, NormalizedEvent>) {
    forall id :: id in accepted ==>
      id < |events| && accepted[id].Key() in events && events[accepted[id].Key()].id == id
  }

  ghost predicate Coupled(g: State) {
    && g.system.outbox == g.tables.outbox
    && CommittedAreAccepted(g.tables.events, g.system.accepted)
    && AcceptedAreCommitted(g.tables.events, g.system.accepted)
  }

  ghost predicate Healthy(g: State) {
    Consistent(g.tables) && Sound(g.system) && Coupled(g)
  }

  ghost predicate Possible(g: State, input: Input) {
    input.Deliver? ==> !input.step.Accept? && Enabled(g.system, input.step)
  }

  /** A new key commits the event and its outbox row together; a known key changes nothing. */
  ghost function After(g: State, input: Input): State
    requires Healthy(g) && Possible(g, input)
  {
    match input
    case Arrive(e) =>
      if e.Key() in g.tables.events then g
      else State(Persisted(g.tables, e), Apply(g.system, Accept(|g.tables.events|, e)))
    case Deliver(step) => State(g.tables, Apply(g.system, step))
  }

  lemma NewIdIsFresh(g: State, e: NormalizedEvent)
    requires Coupled(g) && e.Key() !in g.tables.events
    ensures Enabled(g.system, Accept(|g.tables.events|, e))
  {
  }

  lemma NewEventKeepsAgreement(events: map<(string, string), StoredEvent>, accepted: map<nat, NormalizedEvent>,
                               key: (string, string), stored: StoredEvent)
    requires CommittedAreAccepted(events, accepted) && AcceptedAreCommitted(events, accepted)
    requires key == stored.event.Key() && key !in events && stored.id == |events|
    ensures CommittedAreAccepted(events[key := stored], accepted[stored.id := stored.event])
    ensures AcceptedAreCommitted(events[key := stored], accepted[stored.id := stored.event])
  {
    hide NormalizedEvent.Key;
    var more, known := events[key := stored], accepted[stored.id := stored.event];
    assert more.Keys == events.Keys + {key};
    assert |more.Keys| == |events.Keys| + 1;
    forall k | k in more ensures more[k].id in known && known[more[k].id] == more[k].event {
      if k != key {
        assert more[k] == events[k];
        assert events[k].id < |events|;
      }
    }
    forall id | id in known ensures id < |more| && known[id].Key() in more && more[known[id].Key()].id == id {
      if id != stored.id {
        assert known[id] == accepted[id];
        assert accepted[id].Key() in events && accepted[id].Key() != key;
      }
    }
  }

  lemma ArrivalKeepsCoupled(g: State, e: NormalizedEvent)
    requires Coupled(g) && e.Key() !in g.tables.events
    requires Enabled(g.system, Accept(|g.tables.events|, e))
    ensures Coupled(State(Persisted(g.tables, e), Apply(g.system, Accept(|g.tables.events|, e))))
  {
    hide CommittedAreAccepted, AcceptedAreCommitted, DecisionFor, Lookup, NormalizedEvent.Key;
    var d := DecisionFor(g.tables.shipments, e);
    NewEventKeepsAgreement(g.tables.events, g.system.accepted, e.Key(),
                           StoredEvent(|g.tables.events|, e, d.applied, d.rejection));
  }

  lemma ArrivalKeepsHealthy(g: State, e: NormalizedEvent)
    requires Healthy(g) && e.Key() !in g.tables.events
    ensures Enabled(g.system, Accept(|g.tables.events|, e))
    ensures Healthy(State(Persisted(g.tables, e), Apply(g.system, Accept(|g.tables.events|, e))))
  {
    hide Persisted, Apply, Enabled, Coupled, Sound, IdsDistinct, OutboxMatches, ShipmentsMatch;
    NewIdIsFresh(g, e);
    PersistedKeepsConsistent(g.tables, e);
    ArrivalKeepsCoupled(g, e);
    StepKeepsSound(g.system, Accept(|g.tables.events|, e));
  }

  lemma AfterKeepsHealthy(g: State, input: Input)
    requires Healthy(g) && Possible(g, input)
    ensures Healthy(After(g, input))
  {
    match input
    case Arrive(e) =>
      if e.Key() !in g.tables.events {
        ArrivalKeepsHealthy(g, e);
      }
    case Deliver(step) =>
      StepKeepsSound(g.system, step);
  }

  /** Any interleaving of arrivals and delivery steps that is possible from the start. */
  ghost function Run(inputs: seq<Input>): (r: Option<State>)
    ensures r.Some? ==> Healthy(r.value)
  {
    if inputs == [] then Some(State(EMPTY, START))
    else
      var before, input := Run(inputs[..|inputs| - 1]), inputs[|inputs| - 1];
      if before.Some? && Possible(before.value, input) then
        AfterKeepsHealthy(before.value, input);
        Some(After(before.value, input))
      else None
  }

  function Arrivals(inputs: seq<Input>): seq<NormalizedEvent> {
    if inputs == [] then []
    else
      var last := inputs[|inputs| - 1];
      Arrivals(inputs[..|inputs| - 1]) + if last.Arrive? then [last.event] else []
  }

  /** Delivery never disturbs what was persisted. */
  lemma {:induction false} TablesFollowArrivals(inputs: seq<Input>)
    requires Run(inputs).Some?
    ensures Run(inputs).value.tables == AfterArrivals(Arrivals(inputs))
  {
    if inputs != [] {
      var front, last := inputs[..|inputs| - 1], inputs[|inputs| - 1];
      TablesFollowArrivals(front);
      if last.Arrive? {
        var arrivals := Arrivals(inputs);
        assert arrivals[..|arrivals| - 1] == Arrivals(front);
      } else {
        assert Arrivals(inputs) == Arrivals(front);
      }
    }
  }

  /**
   Once a run is observed drained, every partner event that ever arrived, however
   often it was resent and redelivered, has exactly one receipt, with its first content.
   */
  lemma ExactlyOnceEndToEnd(inputs: seq<Input>, e: NormalizedEvent)
    requires Run(inputs).Some? && e in Arrivals(inputs) && DrainedObservation(Run(inputs).value.system)
    ensures var g := Run(inputs).value;
            && e.Key() in g.tables.events
            && exists i :: && 0 <= i < |g.system.store.receipts|
                           && g.system.store.receipts[i].event == g.tables.events[e.Key()].event
                           && forall j :: 0 <= j < |g.system.store.receipts| && j != i
                                ==> g.system.store.receipts[j].event.Key() != e.Key()
  {
    hide Run, DrainedObservation, Sound, Consistent, NormalizedEvent.Key;
    var g := Run(inputs).value;
    ArrivedIsStored(inputs, e);
    var id := g.tables.events[e.Key()].id;
    var i := DrainedReceipt(g.system, id);
    forall j | 0 <= j < |g.system.store.receipts| && g.system.store.receipts[j].event.Key() == e.Key() ensures j == i {
      OneReceiptPerPartnerKey(g, i, j);
    }
  }

  lemma ArrivedIsStored(inputs: seq<Input>, e: NormalizedEvent)
    requires Run(inputs).Some? && e in Arrivals(inputs)
    ensures var g := Run(inputs).value;
            && e.Key() in g.tables.events
            && g.tables.events[e.Key()].id in g.system.accepted
            && g.system.accepted[g.tables.events[e.Key()].id] == g.tables.events[e.Key()].event
            && g.tables.events[e.Key()].event.Key() == e.Key()
  {
    hide Run, Sound;
    TablesFollowArrivals(inputs);
    StoredKeys(Arrivals(inputs));
  }

  lemma DrainedReceipt(s: System, id: nat) returns (i: nat)
    requires Sound(s) && DrainedObservation(s) && id in s.accepted
    ensures i < |s.store.receipts| && s.store.receipts[i] == Receipt(Some(id), s.accepted[id])
  {
    hide Sound, DrainedObservation;
    DrainedMeansDeliveredOnce(s);
    i :| 0 <= i < |s.store.receipts| && s.store.receipts[i] == Receipt(Some(id), s.accepted[id]);
  }

  /** At any time, drained or not, no partner key has two receipts. */
  lemma OneReceiptPerPartnerKey(g: State, i: nat, j: nat)
    requires Healthy(g) && i < |g.system.store.receipts| && j < |g.system.store.receipts|
    requires g.system.store.receipts[i].event.Key() == g.system.store.receipts[j].event.Key()
    ensures i == j
  {
    var receipts := g.system.store.receipts;
    assert receipts[j].event == g.system.accepted[receipts[j].key.value];
    assert receipts[i].event == g.system.accepted[receipts[i].key.value];
    assert receipts[i].key == receipts[j].key;
  }

  /** At any time, every event that ever arrived is still pending, in a queue, or received. */
  lemma NoArrivalIsLost(inputs: seq<Input>, e: NormalizedEvent)
    requires Run(inputs).Some? && e in Arrivals(inputs)
    ensures var g := Run(inputs).value;
            && e.Key() in g.tables.events
            && var id := g.tables.events[e.Key()].id;
               id in g.system.outbox && (id !in g.system.published || Handed(g.system, id))
  {
    ArrivedIsStored(inputs, e);
  }

  /** Delivery traffic cannot disturb the shipment a manifest leads to. */
  lemma StatusConvergesEndToEnd(inputs: seq<Input>, tracking: string, m: Shipment)
    requires Run(inputs).Some?
    requires KeysIdentify(Arrivals(inputs)) && Latest(Reports(Arrivals(inputs), tracking), m)
    ensures tracking in Run(inputs).value.tables.shipments
    ensures Run(inputs).value.tables.shipments[tracking].status == m.status
  {
    TablesFollowArrivals(inputs);
    StoredStatusConverges(Arrivals(inputs), tracking, m);
  }

  function Deliveries(steps: seq<Step>): (inputs: seq<Input>)
    ensures |inputs| == |steps| && forall i :: 0 <= i < |steps| ==> inputs[i] == Deliver(steps[i])
  {
    seq(|steps|, i requires 0 <= i < |steps| => Deliver(steps[i]))
  }

  lemma DeliveryRuns(inputs: seq<Input>, step: Step)
    requires Run(inputs).Some? && !step.Accept? && Enabled(Run(inputs).value.system, step)
    ensures Run(inputs + [Deliver(step)])
            == Some(State(Run(inputs).value.tables, Apply(Run(inputs).value.system, step)))
  {
    hide Healthy, Enabled, Apply;
    assert (inputs + [Deliver(step)])[..|inputs|] == inputs;
  }

  /** Delivery runs are runs of the gateway. */
  lemma {:induction false} DeliveriesRun(inputs: seq<Input>, steps: seq<Step>)
    requires Run(inputs).Some? && AcceptsNothing(steps) && Exec(Run(inputs).value.system, steps).Some?
    ensures Run(inputs + Deliveries(steps))
            == Some(State(Run(inputs).value.tables, Exec(Run(inputs).value.system, steps).value))
  {
    hide Healthy, Enabled, Apply, Run;
    if steps == [] {
      assert inputs + Deliveries(steps) == inputs;
    } else {
      var front, last := steps[..|steps| - 1], steps[|steps| - 1];
      DeliveriesRun(inputs, front);
      assert last in steps;
      DeliveryRuns(inputs + Deliveries(front), last);
      assert inputs + Deliveries(steps) == inputs + Deliveries(front) + [Deliver(last)];
    }
  }

  /** The end-to-end theorem is about runs that exist: any event can arrive and be drained. */
  lemma DrainedRunExists(e: NormalizedEvent) returns (inputs: seq<Input>)
    ensures Run(inputs).Some? && e in Arrivals(inputs) && DrainedObservation(Run(inputs).value.system)
  {
    var arrived := [Arrive(e)];
    FirstArrival(e);
    var steps := DrainedIsReached(e);
    hide Run, DrainedObservation, Exec;
    DeliveriesRun(arrived, steps);
    inputs := arrived + Deliveries(steps);
    ArrivalsKept(arrived, Deliveries(steps), e);
  }

  lemma FirstArrival(e: NormalizedEvent)
    ensures Run([Arrive(e)]).Some? && Run([Arrive(e)]).value.system == OneAccepted(e)
    ensures Arrivals([Arrive(e)]) == [e]
  {
    assert [Arrive(e)][..0] == [] && Run([]).Some?;
    assert START.accepted[0 := e] == map[0 := e] && START.outbox + {0} == {0};
  }

  lemma {:induction false} ArrivalsKept(a: seq<Input>, b: seq<Input>, e: NormalizedEvent)
    requires e in Arrivals(a)
    ensures e in Arrivals(a + b)
  {
    if b == [] {
      assert a + b == a;
    } else {
      assert (a + b)[..|a + b| - 1] == a + b[..|b| - 1];
      ArrivalsKept(a, b[..|b| - 1], e);
    }
  }

  // ----- the request handler -----

  /** The immediate publication: another relay holds the entry, or one transaction is tried. */
  datatype Publication = HeldElsewhere | Tried(fate: RelayFate)

  datatype Response = Duplicate(id: nat) | Queued(id: nat)

  /** A just accepted event is pending, unpublished and unlocked. */
  lemma AcceptedIsPending(g: State, e: NormalizedEvent)
    requires Healthy(g) && e.Key() !in g.tables.events
    ensures var id := |g.tables.events|;
            var s := Apply(g.system, Accept(id, e));
            && Enabled(g.system, Accept(id, e))
            && Follows(g.system, [Accept(id, e)], s)
            && s == g.system.(accepted := g.system.accepted[id := e], outbox := g.system.outbox + {id})
            && id !in g.system.accepted && id !in s.published && Available(s, [id])
  {
    NewIdIsFresh(g, e);
    var id := |g.tables.events|;
    FollowsStep(g.system, [], g.system, Accept(id, e));
    forall tx | tx in g.system.relays ensures id !in g.system.relays[tx].batch {
    }
  }

  /** All that a new event changes: it is accepted and pending, and the immediate publication enqueues or marks it. */
  ghost predicate NewEventState(s: System, t: System, id: nat, e: NormalizedEvent, publication: Publication) {
    && t == s.(accepted := s.accepted[id := e],
               outbox := s.outbox + {id},
               published := if publication == Tried(Committed) then s.published + {id} else s.published,
               queue := t.queue,
               nextMessage := t.nextMessage)
    && (publication == HeldElsewhere || publication == Tried(EnqueueRaised(0)) ==>
          t.queue == s.queue && t.nextMessage == s.nextMessage)
    && (publication.Tried? && publication.fate != EnqueueRaised(0) ==>
          t.queue == s.queue[s.nextMessage := id] && t.nextMessage == s.nextMessage + 1)
  }

  lemma AcceptedState(s: System, t: System, id: nat, e: NormalizedEvent)
    requires t == s.(accepted := s.accepted[id := e], outbox := s.outbox + {id})
    ensures NewEventState(s, t, id, e, HeldElsewhere)
  {
  }

  lemma PublishedState(s: System, t: System, id: nat, e: NormalizedEvent, fate: RelayFate)
    requires var accepted := s.(accepted := s.accepted[id := e], outbox := s.outbox + {id});
             var sent := Enqueued(accepted, [id], SentCount([id], fate));
             t == if fate.Committed? then sent.(published := accepted.published + Elements([id])) else sent
    ensures NewEventState(s, t, id, e, Tried(fate))
  {
    var accepted := s.(accepted := s.accepted[id := e], outbox := s.outbox + {id});
    assert Enqueued(accepted, [id], 0) == accepted;
    assert Enqueued(accepted, [id], 1) == accepted.(queue := s.queue[s.nextMessage := id], nextMessage := s.nextMessage + 1);
    assert Elements([id]) == {id};
  }

  /**
   Persist, then try to publish at once. A duplicate changes nothing and is not
   published; a publication failure still answers "queued", with the entry pending.
   */
  method IngestPartnerEvent(db: Database, s: System, e: NormalizedEvent, tx: nat, publication: Publication)
    returns (response: Response, t: System, ghost steps: seq<Step>)
    requires Healthy(State(db.Contents(), s)) && tx !in s.relays
    modifies db
    ensures db.Contents() == Persisted(old(db.Contents()), e)
    ensures Healthy(State(db.Contents(), t)) && Follows(s, steps, t)
    ensures e.Key() in db.events && response.id == db.events[e.Key()].id
    ensures response.Duplicate? <==> e.Key() in old(db.events)
    ensures response.Duplicate? ==> t == s
    ensures response.Queued? ==>
              && response.id !in s.accepted
              && t.accepted == s.accepted[response.id := e] && response.id in t.outbox
              && (response.id in t.published <==> publication == Tried(Committed))
              && (publication.Tried? && publication.fate != EnqueueRaised(0) ==> Handed(t, response.id))
              && NewEventState(s, t, response.id, e, publication)
  {
    hide Sound, Exec, Enabled, Apply, Available, Consistent, CommittedAreAccepted, AcceptedAreCommitted, Enqueued,
         NewEventState, Queues, Explained, Follows;
    ghost var before := State(db.Contents(), s);
    if e.Key() !in db.events {
      AcceptedIsPending(before, e);
      ArrivalKeepsHealthy(before, e);
    }
    var id := |db.events|;
    var persistence := db.PersistNormalizedEvent(e);
    if persistence.duplicate {
      FollowsNothing(s);
      return Duplicate(persistence.id), s, [];
    }
    t, steps := Apply(s, Accept(id, e)), [Accept(id, e)];
    assert publication.HeldElsewhere? ==> NewEventState(s, t, id, e, publication) by {
      AcceptedState(s, t, id, e);
    }
    FollowsIsSound(s, steps, t);
    if publication.Tried? {
      var accepted, count := t, 0;
      ghost var more;
      t, count, more := PublishBatch(accepted, tx, [id], publication.fate);
      FollowsConcat(s, steps, accepted, more, t);
      steps := steps + more;
      FollowsIsSound(s, steps, t);
      PublishedState(s, t, id, e, publication.fate);
      if publication.fate != EnqueueRaised(0) {
        SentIsHanded(accepted, [id], publication.fate, t, 0);
      }
    }
    response := Queued(persistence.id);
  }
}
