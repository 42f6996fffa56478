/** The manifests behind the load runs: one CREATED event per scheduled request, or whole histories. */
module LoadManifests {
  import opened Wrappers
  import opened ShipmentDomain
  import EP = EventPersistence
  import opened Manifest
  import opened DeclaredStates
  import Scenarios
  import Workload
  import LoadDriver

  /** The k-th shipment's first event, numbered among the CREATED events only. */
  function CreatedEvent(testRun: string, c: Configuration, draws: seq<Draw>, k: nat): ManifestEvent
    requires k < |draws|
  {
    EventOf(testRun, c, draws[k], k, 0).(sequenceNumber := k + 1)
  }

  /** One event per shipment, in order. */
  ghost predicate CreatedOnly(events: seq<ManifestEvent>, testRun: string, c: Configuration, draws: seq<Draw>) {
    |events| <= |draws| && forall k :: 0 <= k < |events| ==> events[k] == CreatedEvent(testRun, c, draws, k)
  }

  /** Event j of the generated run is kept exactly when it is the first of its shipment. */
  lemma KeptEvent(testRun: string, c: Configuration, draws: seq<Draw>, j: nat)
    requires j < PER_SHIPMENT * |draws|
    ensures var e := GeneratedEvent(testRun, c, draws, j);
            && (e.status == Created <==> j % PER_SHIPMENT == 0)
            && (j % PER_SHIPMENT == 0 ==>
                  e.(sequenceNumber := j / PER_SHIPMENT + 1) == CreatedEvent(testRun, c, draws, j / PER_SHIPMENT))
  {
    hide EventId, Tracking;
  }

  lemma KeptIsGenerated(testRun: string, c: Configuration, draws: seq<Draw>, k: nat)
    requires k < |draws|
    ensures CreatedEvent(testRun, c, draws, k)
            == GeneratedEvent(testRun, c, draws, PER_SHIPMENT * k).(sequenceNumber := k + 1)
  {
    hide EventOf;
    IndexOf(k, 0);
  }

  lemma CreatedPair(testRun: string, c: Configuration, draws: seq<Draw>, i: nat, j: nat)
    requires i < j < |draws| && draws[i].Valid() && draws[j].Valid()
    ensures var e, f := CreatedEvent(testRun, c, draws, i), CreatedEvent(testRun, c, draws, j);
            e.Key() != f.Key() && e.tracking != f.tracking
  {
    hide EventId, Tracking;
    KeptIsGenerated(testRun, c, draws, i);
    KeptIsGenerated(testRun, c, draws, j);
    GeneratedIdsDiffer(testRun, c, draws, PER_SHIPMENT * i, PER_SHIPMENT * j);
    if Tracking(testRun, i + 1, draws[i]) == Tracking(testRun, j + 1, draws[j]) {
      SameTrackingSameShipment(testRun, i + 1, draws[i], j + 1, draws[j]);
    }
  }

  lemma CreatedFields(testRun: string, c: Configuration, draws: seq<Draw>, k: nat)
    requires k < |draws|
    ensures var e := CreatedEvent(testRun, c, draws, k);
            e.sequenceNumber == k + 1 && e.testRun == testRun && e.status == Created
  {
    hide EventId, Tracking;
  }

  lemma CreatedIsOrderly(events: seq<ManifestEvent>, testRun: string, c: Configuration, draws: seq<Draw>)
    requires CreatedOnly(events, testRun, c, draws) && forall d <- draws :: d.Valid()
    ensures Orderly(events, testRun) && forall e :: e in events ==> e.status == Created
    ensures forall i, j :: 0 <= i < j < |events| ==> events[i].tracking != events[j].tracking
  {
    hide CreatedEvent, ManifestEvent.Key;
    forall i, j | 0 <= i < j < |events|
      ensures events[i].Key() != events[j].Key() && events[i].tracking != events[j].tracking
    {
      CreatedPair(testRun, c, draws, i, j);
    }
    forall k | 0 <= k < |events|
      ensures events[k].sequenceNumber == k + 1 && events[k].testRun == testRun && events[k].status == Created
    {
      CreatedFields(testRun, c, draws, k);
    }
  }

  lemma {:induction false} OneStatusIsLast(events: seq<ManifestEvent>, t: string, status: ShipmentStatus)
    requires forall e :: e in events ==> e.status == status
    ensures t in Trackings(events) ==> LastStatus(events, t) == Some(status)
  {
    if events != [] {
      var front, last := events[..|events| - 1], events[|events| - 1];
      assert events == front + [last];
      OneStatusIsLast(front, t, status);
    }
  }

  lemma OrderlyKeepsPromise(m: InputManifest)
    requires Orderly(m.events, m.testRun) && m.finals == LastStatuses(m.events)
    ensures KeepsPromise(m)
  {
    Scenarios.RearrangedKeepsPromise(m, m);
  }

  /**
   Keep the CREATED events of a generated run, renumbered: one event per shipment,
   a valid manifest, and every replay stores each shipment as CREATED.
   */
  method BuildCreatedManifest(testRun: string, c: Configuration, draws: seq<Draw>) returns (m: InputManifest)
    requires c.shipmentCount > 0 && |draws| == c.shipmentCount && forall d <- draws :: d.Valid()
    ensures |m.events| == |m.finals| == c.shipmentCount && CreatedOnly(m.events, testRun, c, draws)
    ensures m.testRun == testRun && forall t :: t in m.finals ==> m.finals[t] == Created
    ensures Validate(m) == None && KeepsPromise(m)
  {
    hide EventOf, Tracking, EventId, Generated, GeneratedEvent, Validate, KeepsPromise, LastStatuses, Orderly,
         DeliveredShipments, CreatedEvent;
    var generated := GenerateInputManifest(testRun, c, draws);
    var created: seq<ManifestEvent> := [];
    for n := 0 to |generated.events|
      invariant |created| == (n + PER_SHIPMENT - 1) / PER_SHIPMENT
      invariant CreatedOnly(created, testRun, c, draws)
    {
      var event := generated.events[n];
      GeneratedAt(testRun, c, draws, |generated.events|, n);
      KeptEvent(testRun, c, draws, n);
      if event.status == Created {
        created := created + [event.(sequenceNumber := |created| + 1)];
      }
    }
    var finals := map e | e in created :: e.tracking := Created;
    m := InputManifest(testRun, |created|, |created|, created, finals);
    CreatedIsOrderly(created, testRun, c, draws);
    CreatedFinals(created);
    LastStatusesCount(created);
    OrderlyManifestsValidate(m);
    OrderlyKeepsPromise(m);
  }

  lemma CreatedFinals(events: seq<ManifestEvent>)
    requires forall e :: e in events ==> e.status == Created
    ensures (map e | e in events :: e.tracking := Created) == LastStatuses(events)
  {
    hide LastStatus;
    forall t | t in Trackings(events) ensures LastStatus(events, t) == Some(Created) {
      OneStatusIsLast(events, t, Created);
    }
    assert LastStatuses(events).Keys == Trackings(events);
    assert (map e | e in events :: e.tracking := Created).Keys == Trackings(events);
  }

  lemma LastStatusesCount(events: seq<ManifestEvent>)
    requires forall i, j :: 0 <= i < j < |events| ==> events[i].tracking != events[j].tracking
    ensures |LastStatuses(events)| == |events|
  {
    DistinctTrackingsCount(events);
    hide LastStatus;
    assert LastStatuses(events).Keys == Trackings(events);
    assert |LastStatuses(events)| == |LastStatuses(events).Keys|;
  }

  lemma {:induction false} DistinctTrackingsCount(events: seq<ManifestEvent>)
    requires forall i, j :: 0 <= i < j < |events| ==> events[i].tracking != events[j].tracking
    ensures |Trackings(events)| == |events|
  {
    if events != [] {
      var front, last := events[..|events| - 1], events[|events| - 1];
      DistinctTrackingsCount(front);
      assert events == front + [last];
      assert Trackings(events) == Trackings(front) + {last.tracking};
    }
  }

  // ----- the elasticity workload -----

  /** One CREATED event per scheduled request, so the load script accepts definition and manifest together. */
  method BuildElasticityManifest(steps: seq<Workload.Step>, testRun: string, partnerId: string, startAt: int, draws: seq<Draw>)
    returns (m: InputManifest)
    requires steps != [] && Workload.ValidSteps(steps)
    requires |draws| == Workload.Offset(steps, |steps|) && forall d <- draws :: d.Valid()
    ensures CreatedOnly(m.events, testRun, Configuration(partnerId, |draws|, startAt), draws)
    ensures LoadDriver.Accepted(LoadDriver.Serialized(steps), |m.events|)
    ensures |m.finals| == |m.events| && forall t :: t in m.finals ==> m.finals[t] == Created
    ensures Validate(m) == None && KeepsPromise(m)
  {
    Workload.OffsetsIncrease(steps, 0, |steps|);
    m := BuildCreatedManifest(testRun, Configuration(partnerId, |draws|, startAt), draws);
    LoadDriver.SerializedDefinitionIsAccepted(steps);
  }

  /** The arrivals a schedule of callbacks causes. */
  function Sent(m: InputManifest, posted: seq<nat>): (arrivals: seq<EP.NormalizedEvent>)
    requires forall i :: 0 <= i < |posted| ==> posted[i] < |m.events|
    ensures |arrivals| == |posted|
    ensures forall i :: 0 <= i < |posted| ==> arrivals[i] == m.events[posted[i]].Normalized()
  {
    seq(|posted|, i requires 0 <= i < |posted| => m.events[posted[i]].Normalized())
  }

  lemma SentEverything(m: InputManifest, posted: seq<nat>)
    requires forall e: nat :: e in posted <==> e < |m.events|
    requires forall i :: 0 <= i < |posted| ==> posted[i] < |m.events|
    ensures Replays(Sent(m, posted), m.events)
  {
    hide ManifestEvent.Normalized;
    var arrivals := Sent(m, posted);
    forall a | a in arrivals ensures exists e :: e in m.events && a == e.Normalized() {
      var i :| 0 <= i < |arrivals| && arrivals[i] == a;
      assert posted[i] in posted;
      assert m.events[posted[i]] in m.events;
    }
    forall e | e in m.events ensures e.Normalized() in arrivals {
      var k: nat :| k < |m.events| && m.events[k] == e;
      assert k in posted;
      var i :| 0 <= i < |posted| && posted[i] == k;
      assert arrivals[i] == e.Normalized();
    }
  }

  /**
   From the schedule to the stored shipments: a complete schedule of distinct calls
   over such a manifest leaves exactly its shipments, each in its declared state.
   */
  lemma CompleteScheduleStoresDeclared(steps: seq<Workload.Step>, calls: seq<LoadDriver.Call>, m: InputManifest)
    requires LoadDriver.Accepted(LoadDriver.Serialized(steps), |m.events|) && KeepsPromise(m)
    requires Distinct(calls) && LoadDriver.Complete(steps, calls)
    ensures var posted := LoadDriver.PostedEvents(steps, calls);
            && (forall i :: 0 <= i < |posted| ==> posted[i] < |m.events|)
            && var stored := EP.AfterArrivals(Sent(m, posted)).shipments;
               stored.Keys == m.finals.Keys && forall t :: t in m.finals ==> stored[t].status == m.finals[t]
  {
    hide LoadDriver.PostedEvents, LoadDriver.Complete, Distinct, EP.AfterArrivals, Replays;
    var posted := LoadDriver.PostedEvents(steps, calls);
    forall e: nat ensures e in posted <==> e < |m.events| {
      LoadDriver.CompleteSchedulePostsEverything(steps, calls, e);
    }
    assert forall i :: 0 <= i < |posted| ==> posted[i] in posted;
    SentEverything(m, posted);
  }

  // ----- one fixed rate -----

  /**
   The performance experiments: CREATED events for the healthy baseline, whole
   histories otherwise. Either way one event per scheduled request.
   */
  method BuildPerformanceManifest(healthy: bool, rate: nat, duration: nat,
                                  testRun: string, partnerId: string, startAt: int, draws: seq<Draw>)
    returns (m: InputManifest)
    requires rate > 0 && duration > 0
    requires !healthy ==> rate * duration % PER_SHIPMENT == 0
    requires |draws| == (if healthy then rate * duration else rate * duration / PER_SHIPMENT)
    requires forall d <- draws :: d.Valid()
    ensures |m.events| == rate * duration && m.testRun == testRun
    ensures forall t :: t in m.finals ==> m.finals[t] == if healthy then Created else Delivered
    ensures Validate(m) == None && KeepsPromise(m)
  {
    hide Generated, Validate, KeepsPromise, LastStatuses, Orderly;
    Workload.PositiveProduct(rate, duration);
    var c := Configuration(partnerId, |draws|, startAt);
    if healthy {
      m := BuildCreatedManifest(testRun, c, draws);
    } else {
      m := GenerateInputManifest(testRun, c, draws);
      GeneratedIsOrderly(testRun, c, draws, PER_SHIPMENT * |draws|);
      OrderlyKeepsPromise(m);
      forall t | t in m.finals ensures m.finals[t] == Delivered {
        DeliveredKeys(testRun, draws, |draws|, t);
      }
    }
  }
}
