/** The correctness scenarios: one normal history, repeated, reversed per shipment or sent as it is. */
module Scenarios {
  import opened Wrappers
  import opened ShipmentDomain
  import EP = EventPersistence
  import opened Manifest
  import opened DeclaredStates

  datatype Scenario = Normal | Duplicate | OutOfOrder | DownstreamOutage

  function Resequenced(events: seq<ManifestEvent>): (all: seq<ManifestEvent>)
    ensures |all| == |events| && forall i :: 0 <= i < |events| ==> all[i] == events[i].(sequenceNumber := i + 1)
  {
    seq(|events|, i requires 0 <= i < |events| => events[i].(sequenceNumber := i + 1))
  }

  /** One shipment's events, last first. */
  function Backwards(events: seq<ManifestEvent>, t: string): (all: seq<ManifestEvent>)
    ensures forall e :: e in all <==> e in events && e.tracking == t
  {
    if events == [] then []
    else
      assert forall e :: e in events <==> e == events[0] || e in events[1..];
      Backwards(events[1..], t) + if events[0].tracking == t then [events[0]] else []
  }

  /** Shipment by shipment, each backwards. */
  function AllBackwards(events: seq<ManifestEvent>, shipments: seq<string>): (all: seq<ManifestEvent>)
    ensures forall e :: e in all <==> e in events && e.tracking in shipments
  {
    if shipments == [] then [] else Backwards(events, shipments[0]) + AllBackwards(events, shipments[1..])
  }

  /** The shipments in the order in which the generator declared them. */
  function DeclaredOrder(testRun: string, draws: seq<Draw>): (order: seq<string>)
    ensures |order| == |draws| && forall k :: 0 <= k < |draws| ==> order[k] == Tracking(testRun, k + 1, draws[k])
  {
    seq(|draws|, k requires 0 <= k < |draws| => Tracking(testRun, k + 1, draws[k]))
  }

  function Arranged(scenario: Scenario, events: seq<ManifestEvent>, shipments: seq<string>): seq<ManifestEvent> {
    match scenario
    case Normal => events
    case Duplicate => events + events
    case OutOfOrder => AllBackwards(events, shipments)
    case DownstreamOutage => events
  }

  // ----- what arranging leaves alone -----

  function Unnumbered(e: ManifestEvent): ManifestEvent {
    e.(sequenceNumber := 0)
  }

  ghost function Contents(events: seq<ManifestEvent>): set<ManifestEvent> {
    set e | e in events :: Unnumbered(e)
  }

  lemma ResequencedContents(events: seq<ManifestEvent>)
    ensures Contents(Resequenced(events)) == Contents(events)
  {
    forall e | e in events ensures Unnumbered(e) in Contents(Resequenced(events)) {
      var i :| 0 <= i < |events| && events[i] == e;
      assert Resequenced(events)[i] in Resequenced(events);
    }
    forall e | e in Resequenced(events) ensures Unnumbered(e) in Contents(events) {
      var i :| 0 <= i < |events| && Resequenced(events)[i] == e;
      assert events[i] in events;
    }
  }

  lemma ArrangedContents(scenario: Scenario, events: seq<ManifestEvent>, shipments: seq<string>)
    requires Trackings(events) == Elements(shipments)
    ensures Contents(Arranged(scenario, events, shipments)) == Contents(events)
  {
    hide Contents;
    var all := Arranged(scenario, events, shipments);
    forall e ensures e in all <==> e in events {
      if e in events {
        assert e.tracking in Trackings(events);
      }
    }
    SameMembersSameContents(all, events);
  }

  lemma SameMembersSameContents(a: seq<ManifestEvent>, b: seq<ManifestEvent>)
    requires forall e :: e in a <==> e in b
    ensures Contents(a) == Contents(b)
  {
  }

  lemma Counterpart(a: seq<ManifestEvent>, b: seq<ManifestEvent>, e: ManifestEvent) returns (f: ManifestEvent)
    requires Contents(a) == Contents(b) && e in a
    ensures f in b && Unnumbered(f) == Unnumbered(e)
    ensures f.Key() == e.Key() && f.Normalized() == e.Normalized()
    ensures f.tracking == e.tracking && f.status == e.status && f.testRun == e.testRun
  {
    assert Unnumbered(e) in Contents(b);
    f :| f in b && Unnumbered(f) == Unnumbered(e);
    assert Unnumbered(f).partnerId == f.partnerId && Unnumbered(e).partnerId == e.partnerId;
  }

  lemma ContentsIncludeSummaries(a: seq<ManifestEvent>, b: seq<ManifestEvent>)
    requires Contents(a) == Contents(b)
    ensures Keys(a) <= Keys(b) && Trackings(a) <= Trackings(b) && States(a) <= States(b)
  {
    hide Contents, ManifestEvent.Key, Unnumbered;
    forall e | e in a
      ensures e.Key() in Keys(b) && e.tracking in Trackings(b) && (e.tracking, e.status) in States(b)
    {
      var f := Counterpart(a, b, e);
      assert f.Key() in Keys(b) && f.tracking in Trackings(b) && (f.tracking, f.status) in States(b);
    }
  }

  lemma SameContentsReplay(a: seq<ManifestEvent>, b: seq<ManifestEvent>, arrivals: seq<EP.NormalizedEvent>)
    requires Contents(a) == Contents(b) && Replays(arrivals, a)
    ensures Replays(arrivals, b)
  {
    hide Contents, ManifestEvent.Normalized, ManifestEvent.Key, Unnumbered;
    forall x | x in arrivals ensures exists f :: f in b && x == f.Normalized() {
      var e :| e in a && x == e.Normalized();
      var f := Counterpart(a, b, e);
    }
    forall f | f in b ensures f.Normalized() in arrivals {
      var e := Counterpart(b, a, f);
    }
  }

  /** Rearranging, repeating and renumbering a valid manifest's events keeps it valid. */
  lemma RearrangedValidates(normal: InputManifest, events: seq<ManifestEvent>)
    requires Validate(normal) == None && Contents(events) == Contents(normal.events)
    requires forall k :: 0 <= k < |events| ==> events[k].sequenceNumber == k + 1
    ensures Validate(InputManifest(normal.testRun, |events|, normal.uniqueEvents, events, normal.finals)) == None
  {
    hide Contents, ManifestEvent.Key, Keys, Trackings, States, Unnumbered;
    ContentsIncludeSummaries(events, normal.events);
    ContentsIncludeSummaries(normal.events, events);
    assert Keys(events) == Keys(normal.events);
    assert Trackings(events) == Trackings(normal.events) && States(events) == States(normal.events);
    forall e | e in events ensures e.testRun == normal.testRun {
      var f := Counterpart(events, normal.events, e);
    }
  }

  lemma RearrangedKeepsPromise(normal: InputManifest, m: InputManifest)
    requires Orderly(normal.events, normal.testRun) && normal.finals == LastStatuses(normal.events)
    requires m.finals == normal.finals && Contents(m.events) == Contents(normal.events)
    ensures KeepsPromise(m)
  {
    hide Contents, Replays, Orderly, EP.AfterArrivals, LastStatuses;
    forall arrivals | Replays(arrivals, m.events)
      ensures EP.AfterArrivals(arrivals).shipments.Keys == m.finals.Keys
      ensures forall t :: t in m.finals ==> EP.AfterArrivals(arrivals).shipments[t].status == m.finals[t]
    {
      SameContentsReplay(m.events, normal.events, arrivals);
      DeclaredStatesAreReached(normal, arrivals);
    }
  }

  lemma DeclaredOrderCovers(testRun: string, c: Configuration, draws: seq<Draw>)
    requires forall d <- draws :: d.Valid()
    ensures Trackings(Generated(testRun, c, draws, PER_SHIPMENT * |draws|)) == Elements(DeclaredOrder(testRun, draws))
  {
    hide Tracking, Generated, DeliveredShipments, Trackings;
    DeliveredIsLast(testRun, c, draws, |draws|);
    var declared := DeliveredShipments(testRun, draws, |draws|);
    var order := DeclaredOrder(testRun, draws);
    forall t ensures t in declared <==> t in Elements(order) {
      DeliveredKeys(testRun, draws, |draws|, t);
      if t in declared {
        var k :| 0 <= k < |draws| && t == Tracking(testRun, k + 1, draws[k]);
        assert order[k] == t;
      }
      if t in order {
        var k :| 0 <= k < |order| && order[k] == t;
      }
    }
    assert declared.Keys == Elements(order);
  }

  // ----- what arranging does -----

  lemma {:induction false} BackwardsOfAppend(events: seq<ManifestEvent>, e: ManifestEvent, t: string)
    ensures Backwards(events + [e], t) == (if e.tracking == t then [e] else []) + Backwards(events, t)
  {
    if events == [] {
      assert ([] + [e])[1..] == [] && ([] + [e])[0] == e;
    } else {
      assert (events + [e])[1..] == events[1..] + [e] && (events + [e])[0] == events[0];
      BackwardsOfAppend(events[1..], e, t);
    }
  }

  /** How many of the first n generated events belong to shipment k. */
  function OfShipment(n: nat, k: nat): (p: nat)
    ensures p <= PER_SHIPMENT
  {
    if n < PER_SHIPMENT * k then 0
    else if n < PER_SHIPMENT * k + PER_SHIPMENT then n - PER_SHIPMENT * k
    else PER_SHIPMENT
  }

  lemma EventTracking(testRun: string, c: Configuration, draws: seq<Draw>, j: nat)
    requires j < PER_SHIPMENT * |draws|
    ensures GeneratedEvent(testRun, c, draws, j).tracking
            == Tracking(testRun, j / PER_SHIPMENT + 1, draws[j / PER_SHIPMENT])
  {
    hide Tracking, EventId;
  }

  lemma TrackingOfEvent(testRun: string, c: Configuration, draws: seq<Draw>, j: nat, k: nat)
    requires j < PER_SHIPMENT * |draws| && k < |draws| && forall d <- draws :: d.Valid()
    ensures GeneratedEvent(testRun, c, draws, j).tracking == Tracking(testRun, k + 1, draws[k]) <==> j / PER_SHIPMENT == k
  {
    hide GeneratedEvent, Tracking;
    EventTracking(testRun, c, draws, j);
    var s := j / PER_SHIPMENT;
    assert draws[s].Valid() && draws[k].Valid();
    if Tracking(testRun, s + 1, draws[s]) == Tracking(testRun, k + 1, draws[k]) {
      SameTrackingSameShipment(testRun, s + 1, draws[s], k + 1, draws[k]);
    }
  }

  /** A generated shipment's events, last first. */
  lemma {:induction false} BackwardsGenerated(testRun: string, c: Configuration, draws: seq<Draw>, n: nat, k: nat)
    requires n <= PER_SHIPMENT * |draws| && k < |draws| && forall d <- draws :: d.Valid()
    ensures var back := Backwards(Generated(testRun, c, draws, n), Tracking(testRun, k + 1, draws[k]));
            && |back| == OfShipment(n, k)
            && forall i :: 0 <= i < |back| ==>
                 back[i] == GeneratedEvent(testRun, c, draws, PER_SHIPMENT * k + OfShipment(n, k) - 1 - i)
  {
    hide Tracking, GeneratedEvent, Backwards;
    if n == 0 {
      NothingBackwards(Tracking(testRun, k + 1, draws[k]));
    } else {
      BackwardsGenerated(testRun, c, draws, n - 1, k);
      TrackingOfEvent(testRun, c, draws, n - 1, k);
      BackwardsOfAppend(Generated(testRun, c, draws, n - 1), GeneratedEvent(testRun, c, draws, n - 1),
                        Tracking(testRun, k + 1, draws[k]));
    }
  }

  lemma NothingBackwards(t: string)
    ensures Backwards([], t) == []
  {
  }

  lemma {:induction false} AllBackwardsAt(events: seq<ManifestEvent>, shipments: seq<string>, k: nat, i: nat)
    requires forall t <- shipments :: |Backwards(events, t)| == PER_SHIPMENT
    ensures |AllBackwards(events, shipments)| == PER_SHIPMENT * |shipments|
    ensures k < |shipments| && i < PER_SHIPMENT ==>
              AllBackwards(events, shipments)[PER_SHIPMENT * k + i] == Backwards(events, shipments[k])[i]
  {
    hide Backwards;
    if shipments != [] {
      AllBackwardsAt(events, shipments[1..], if k == 0 then 0 else k - 1, i);
    }
  }

  /** The report that is as far from the end of its shipment's history as report j is from its start. */
  function Mirrored(testRun: string, c: Configuration, draws: seq<Draw>, j: nat): ManifestEvent
    requires j < PER_SHIPMENT * |draws|
  {
    EventOf(testRun, c, draws[j / PER_SHIPMENT], j / PER_SHIPMENT, 4 - j % PER_SHIPMENT)
  }

  lemma MirroredIs(testRun: string, c: Configuration, draws: seq<Draw>, k: nat, i: nat)
    requires k < |draws| && i < PER_SHIPMENT
    ensures PER_SHIPMENT * k + i < PER_SHIPMENT * |draws|
    ensures Mirrored(testRun, c, draws, PER_SHIPMENT * k + i)
            == GeneratedEvent(testRun, c, draws, PER_SHIPMENT * k + (4 - i))
  {
    hide EventOf;
    IndexOf(k, i);
    IndexOf(k, 4 - i);
  }

  /** Event i carries what the generated event j does, whatever its number. */
  ghost predicate Carries(m: InputManifest, i: nat, e: ManifestEvent) {
    i < |m.events| && m.events[i] == e.(sequenceNumber := i + 1)
  }

  /**
   The shape of each scenario: the normal run as it is, the same run sent twice, or
   every shipment's five reports in exactly the reverse order.
   */
  ghost predicate Shaped(scenario: Scenario, m: InputManifest, testRun: string, c: Configuration, draws: seq<Draw>) {
    var n := PER_SHIPMENT * |draws|;
    match scenario
    case Duplicate =>
      && |m.events| == 2 * n
      && forall j: nat :: j < n ==>
           var e := GeneratedEvent(testRun, c, draws, j);
           Carries(m, j, e) && Carries(m, n + j, e)
    case OutOfOrder =>
      && |m.events| == n
      && forall j: nat :: j < n ==> Carries(m, j, Mirrored(testRun, c, draws, j))
    case _ =>
      |m.events| == n && forall j: nat :: j < n ==> Carries(m, j, GeneratedEvent(testRun, c, draws, j))
  }

  lemma OutOfOrderArranged(testRun: string, c: Configuration, draws: seq<Draw>, j: nat)
    requires forall d <- draws :: d.Valid()
    ensures var all := AllBackwards(Generated(testRun, c, draws, PER_SHIPMENT * |draws|), DeclaredOrder(testRun, draws));
            && |all| == PER_SHIPMENT * |draws|
            && (j < |all| ==> all[j] == Mirrored(testRun, c, draws, j))
  {
    hide Backwards, AllBackwards, GeneratedEvent, Generated, Tracking, Mirrored;
    var events, order := Generated(testRun, c, draws, PER_SHIPMENT * |draws|), DeclaredOrder(testRun, draws);
    forall t | t in order ensures |Backwards(events, t)| == PER_SHIPMENT {
      var s: nat :| s < |order| && order[s] == t;
      BackwardsGenerated(testRun, c, draws, PER_SHIPMENT * |draws|, s);
    }
    var k, i := j / PER_SHIPMENT, j % PER_SHIPMENT;
    assert j == PER_SHIPMENT * k + i;
    AllBackwardsAt(events, order, k, i);
    if k < |draws| {
      MirroredIs(testRun, c, draws, k, i);
      BackwardsGenerated(testRun, c, draws, PER_SHIPMENT * |draws|, k);
    }
  }

  lemma ScenarioIsShaped(scenario: Scenario, m: InputManifest, testRun: string, c: Configuration, draws: seq<Draw>)
    requires forall d <- draws :: d.Valid()
    requires m.events == Resequenced(Arranged(scenario, Generated(testRun, c, draws, PER_SHIPMENT * |draws|),
                                              DeclaredOrder(testRun, draws)))
    ensures Shaped(scenario, m, testRun, c, draws)
  {
    hide AllBackwards, GeneratedEvent, Generated, DeclaredOrder, Mirrored;
    var n := PER_SHIPMENT * |draws|;
    forall j: nat | j < n
      ensures Generated(testRun, c, draws, n)[j] == GeneratedEvent(testRun, c, draws, j)
    {
      GeneratedAt(testRun, c, draws, n, j);
    }
    if scenario.OutOfOrder? {
      OutOfOrderArranged(testRun, c, draws, 0);
      forall j: nat | j < n ensures Carries(m, j, Mirrored(testRun, c, draws, j)) {
        OutOfOrderArranged(testRun, c, draws, j);
      }
    }
  }

  /**
   Every scenario's manifest satisfies the validator and keeps its promise: the
   duplicates and the reversed histories reach the same declared states.
   */
  method BuildCorrectnessManifest(scenario: Scenario, testRun: string, c: Configuration, draws: seq<Draw>)
    returns (m: InputManifest)
    requires c.shipmentCount > 0 && |draws| == c.shipmentCount && forall d <- draws :: d.Valid()
    ensures var normal := Generated(testRun, c, draws, PER_SHIPMENT * c.shipmentCount);
            m.events == Resequenced(Arranged(scenario, normal, DeclaredOrder(testRun, draws)))
    ensures m.finals == DeliveredShipments(testRun, draws, c.shipmentCount)
    ensures Validate(m) == None && KeepsPromise(m)
    ensures Shaped(scenario, m, testRun, c, draws)
  {
    hide Shaped, Resequenced, Arranged, Generated, DeclaredOrder, Contents, Validate, LastStatuses, KeepsPromise, DeliveredShipments, Orderly;
    var normal := GenerateInputManifest(testRun, c, draws);
    var order := DeclaredOrder(testRun, draws);
    var ordered := Arranged(scenario, normal.events, order);
    var events := Resequenced(ordered);
    m := InputManifest(testRun, |events|, normal.uniqueEvents, events, normal.finals);
    DeclaredOrderCovers(testRun, c, draws);
    ArrangedContents(scenario, normal.events, order);
    ResequencedContents(ordered);
    RearrangedValidates(normal, events);
    GeneratedIsOrderly(testRun, c, draws, PER_SHIPMENT * c.shipmentCount);
    RearrangedKeepsPromise(normal, m);
    ScenarioIsShaped(scenario, m, testRun, c, draws);
  }

  // ----- the answers a scenario expects -----

  /** The answers the sender expects: created for a new identity, found for a repeated one. */
  method ExpectedStatusCodes(events: seq<ManifestEvent>) returns (codes: seq<int>)
    ensures |codes| == |events|
    ensures forall i :: 0 <= i < |events| ==> codes[i] == if KnownBefore(events, i) then 200 else 201
  {
    var seen: set<(string, string)> := {};
    codes := [];
    for n := 0 to |events|
      invariant |codes| == n && seen == Keys(events[..n])
      invariant forall i :: 0 <= i < n ==> codes[i] == if KnownBefore(events, i) then 200 else 201
    {
      codes := codes + [if events[n].Key() in seen then 200 else 201];
      assert events[..n + 1] == events[..n] + [events[n]];
      seen := seen + {events[n].Key()};
    }
  }

  /** The identity of event i was used by an earlier event. */
  predicate KnownBefore(events: seq<ManifestEvent>, i: nat)
    requires i < |events|
  {
    events[i].Key() in Keys(events[..i])
  }

  /** Sent in order, the gateway takes an event for a duplicate exactly where 200 is expected. */
  lemma AnswersAreExpected(events: seq<ManifestEvent>, i: nat)
    requires i < |events|
    ensures KnownBefore(events, i) <==>
            events[i].Normalized().Key() in EP.AfterArrivals(NormalizedAll(events[..i])).events
  {
    hide EP.AfterArrivals, ManifestEvent.Normalized, ManifestEvent.Key, EP.NormalizedEvent.Key;
    var sent := events[..i];
    MembersNormalized(sent);
    EP.StoredKeys(NormalizedAll(sent));
    NormalizedKeys(events[i]);
    forall e: ManifestEvent ensures e.Normalized().Key() == e.Key() {
      NormalizedKeys(e);
    }
    if KnownBefore(events, i) {
      var e :| e in sent && e.Key() == events[i].Key();
      assert e.Normalized() in NormalizedAll(sent);
    }
    if a :| a in NormalizedAll(sent) && a.Key() == events[i].Key() {
      var e :| e in sent && a == e.Normalized();
      assert e.Key() in Keys(sent);
    }
  }
}
