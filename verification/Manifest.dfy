/** Input manifests: the validator, the generators and the states they declare. */
module Manifest {
  import opened Wrappers
  import opened ShipmentDomain
  import opened Identifiers
  import EventPersistence

  const STATUSES := [Created, PickedUp, InTransit, OutForDelivery, Delivered]
  const PER_SHIPMENT := 5
  const MINUTE := 60

  datatype ManifestEvent = ManifestEvent(
    sequenceNumber: int,
    testRun: string,
    partnerId: string,
    partnerEventId: string,
    tracking: string,
    status: ShipmentStatus,
    at: int)
  {
    function Key(): (string, string) {
      (partnerId, partnerEventId)
    }

    /** What the gateway stores once the payload has been normalized. */
    function Normalized(): EventPersistence.NormalizedEvent {
      EventPersistence.NormalizedEvent(partnerId, partnerEventId, tracking, status, at)
    }
  }

  datatype InputManifest = InputManifest(
    testRun: string,
    eventsGenerated: int,
    uniqueEvents: int,
    events: seq<ManifestEvent>,
    finals: map<string, ShipmentStatus>)

  datatype Inconsistency =
    | CountMismatch
    | UniqueCountMismatch
    | SequenceNotContiguous
    | ForeignTestRun
    | TrackingMismatch
    | FinalStateNotInHistory

  function Keys(events: seq<ManifestEvent>): set<(string, string)> {
    set e | e in events :: e.Key()
  }

  function Trackings(events: seq<ManifestEvent>): set<string> {
    set e | e in events :: e.tracking
  }

  function States(events: seq<ManifestEvent>): set<(string, ShipmentStatus)> {
    set e | e in events :: (e.tracking, e.status)
  }

  /** The validator: the first clause that fails, in the order they are checked. */
  function Validate(m: InputManifest): Option<Inconsistency> {
    if m.eventsGenerated != |m.events| then Some(CountMismatch)
    else if m.uniqueEvents != |Keys(m.events)| then Some(UniqueCountMismatch)
    else if exists k :: 0 <= k < |m.events| && m.events[k].sequenceNumber != k + 1 then Some(SequenceNotContiguous)
    else if exists e :: e in m.events && e.testRun != m.testRun then Some(ForeignTestRun)
    else if Trackings(m.events) != m.finals.Keys then Some(TrackingMismatch)
    else if exists t :: t in m.finals && (t, m.finals[t]) !in States(m.events) then Some(FinalStateNotInHistory)
    else None
  }

  // ----- what the validator accepts -----

  predicate CountHolds(m: InputManifest) {
    m.eventsGenerated == |m.events|
  }

  /** As many identities, of partner and partner event id, as declared. */
  ghost predicate UniqueCountHolds(m: InputManifest) {
    m.uniqueEvents == |set e | e in m.events :: (e.partnerId, e.partnerEventId)|
  }

  predicate NumberedThrough(m: InputManifest) {
    forall k :: 0 <= k < |m.events| ==> m.events[k].sequenceNumber == k + 1
  }

  predicate OwnRun(m: InputManifest) {
    forall k :: 0 <= k < |m.events| ==> m.events[k].testRun == m.testRun
  }

  /** Exactly the shipments with an event have a declared final state. */
  ghost predicate DeclaresReported(m: InputManifest) {
    forall t :: t in m.finals <==> exists k :: 0 <= k < |m.events| && m.events[k].tracking == t
  }

  ghost predicate DeclaresHistorical(m: InputManifest) {
    forall t :: t in m.finals ==>
      exists k :: 0 <= k < |m.events| && m.events[k].tracking == t && m.events[k].status == m.finals[t]
  }

  lemma CountedByIdentity(m: InputManifest)
    ensures Keys(m.events) == set e | e in m.events :: (e.partnerId, e.partnerEventId)
  {
  }

  lemma TrackingsIff(m: InputManifest)
    ensures Trackings(m.events) == m.finals.Keys <==> DeclaresReported(m)
  {
    forall t ensures t in Trackings(m.events) <==> exists k :: 0 <= k < |m.events| && m.events[k].tracking == t {
      if t in Trackings(m.events) {
        var e :| e in m.events && e.tracking == t;
        var k :| 0 <= k < |m.events| && m.events[k] == e;
      }
      if k :| 0 <= k < |m.events| && m.events[k].tracking == t {
        assert m.events[k] in m.events;
      }
    }
  }

  lemma HistoricalIff(m: InputManifest)
    ensures (forall t :: t in m.finals ==> (t, m.finals[t]) in States(m.events)) <==> DeclaresHistorical(m)
  {
    forall t | t in m.finals
      ensures (t, m.finals[t]) in States(m.events) <==>
              exists k :: 0 <= k < |m.events| && m.events[k].tracking == t && m.events[k].status == m.finals[t]
    {
      if (t, m.finals[t]) in States(m.events) {
        var e :| e in m.events && (e.tracking, e.status) == (t, m.finals[t]);
        var k :| 0 <= k < |m.events| && m.events[k] == e;
      }
      if k :| 0 <= k < |m.events| && m.events[k].tracking == t && m.events[k].status == m.finals[t] {
        assert m.events[k] in m.events;
      }
    }
  }

  /** A manifest is accepted exactly when all six clauses hold, and otherwise refused for the first that does not. */
  lemma ValidateIff(m: InputManifest)
    ensures Validate(m) == Some(CountMismatch) <==> !CountHolds(m)
    ensures Validate(m) == Some(UniqueCountMismatch) <==> CountHolds(m) && !UniqueCountHolds(m)
    ensures Validate(m) == Some(SequenceNotContiguous) <==> CountHolds(m) && UniqueCountHolds(m) && !NumberedThrough(m)
    ensures Validate(m) == Some(ForeignTestRun) <==>
            CountHolds(m) && UniqueCountHolds(m) && NumberedThrough(m) && !OwnRun(m)
    ensures Validate(m) == Some(TrackingMismatch) <==>
            CountHolds(m) && UniqueCountHolds(m) && NumberedThrough(m) && OwnRun(m) && !DeclaresReported(m)
    ensures Validate(m) == Some(FinalStateNotInHistory) <==>
            CountHolds(m) && UniqueCountHolds(m) && NumberedThrough(m) && OwnRun(m) && DeclaresReported(m)
            && !DeclaresHistorical(m)
    ensures Validate(m) == None <==>
            CountHolds(m) && UniqueCountHolds(m) && NumberedThrough(m) && OwnRun(m) && DeclaresReported(m)
            && DeclaresHistorical(m)
  {
    CountedByIdentity(m);
    TrackingsIff(m);
    HistoricalIff(m);
    assert OwnRun(m) <==> forall e <- m.events :: e.testRun == m.testRun;
    hide Keys, Trackings, States, DeclaresReported, DeclaresHistorical;
  }

  // ----- generation -----

  datatype Configuration = Configuration(partnerId: string, shipmentCount: nat, startAt: int)

  /** What the seeded random source yields for one shipment: eight hex digits and a start offset. */
  datatype Draw = Draw(suffix: string, seconds: int) {
    predicate Valid() {
      |suffix| == 8 && 0 <= seconds < 60
    }
  }

  function RunPrefix(testRun: string): string {
    "SYN-" + testRun + "-"
  }

  function Tracking(testRun: string, shipment: nat, draw: Draw): string {
    Identifier(RunPrefix(testRun), shipment, 6, "-" + draw.suffix)
  }

  function EventId(testRun: string, number: nat): string {
    Identifier(RunPrefix(testRun), number, 8, "")
  }

  /** The event with this status of one shipment. */
  function EventOf(testRun: string, c: Configuration, draw: Draw, shipment: nat, offset: nat): ManifestEvent
    requires offset < PER_SHIPMENT
  {
    var number := PER_SHIPMENT * shipment + offset + 1;
    ManifestEvent(
      number,
      testRun,
      c.partnerId,
      EventId(testRun, number),
      Tracking(testRun, shipment + 1, draw),
      STATUSES[offset],
      c.startAt + shipment * PER_SHIPMENT * MINUTE + draw.seconds + offset * MINUTE)
  }

  /** Event j of the run: status j % 5 of shipment j / 5. */
  function GeneratedEvent(testRun: string, c: Configuration, draws: seq<Draw>, j: nat): ManifestEvent
    requires j < PER_SHIPMENT * |draws|
  {
    EventOf(testRun, c, draws[j / PER_SHIPMENT], j / PER_SHIPMENT, j % PER_SHIPMENT)
  }

  /** The first n events of the run. */
  function Generated(testRun: string, c: Configuration, draws: seq<Draw>, n: nat): (events: seq<ManifestEvent>)
    requires n <= PER_SHIPMENT * |draws|
    ensures |events| == n
  {
    if n == 0 then [] else Generated(testRun, c, draws, n - 1) + [GeneratedEvent(testRun, c, draws, n - 1)]
  }

  lemma {:induction false} GeneratedAt(testRun: string, c: Configuration, draws: seq<Draw>, n: nat, j: nat)
    requires j < n <= PER_SHIPMENT * |draws|
    ensures Generated(testRun, c, draws, n)[j] == GeneratedEvent(testRun, c, draws, j)
  {
    hide GeneratedEvent;
    if j < n - 1 {
      GeneratedAt(testRun, c, draws, n - 1, j);
    }
  }

  lemma {:induction false} GeneratedPrefix(testRun: string, c: Configuration, draws: seq<Draw>, n: nat, k: nat)
    requires k <= n <= PER_SHIPMENT * |draws|
    ensures Generated(testRun, c, draws, n)[..k] == Generated(testRun, c, draws, k)
  {
    hide GeneratedEvent;
    if k < n {
      GeneratedPrefix(testRun, c, draws, n - 1, k);
      assert Generated(testRun, c, draws, n)[..k] == Generated(testRun, c, draws, n - 1)[..k];
    }
  }

  /** The final states the generator declares for its first n shipments. */
  function DeliveredShipments(testRun: string, draws: seq<Draw>, n: nat): map<string, ShipmentStatus>
    requires n <= |draws|
  {
    if n == 0 then map[]
    else DeliveredShipments(testRun, draws, n - 1)[Tracking(testRun, n, draws[n - 1]) := Delivered]
  }

  /** One shipment's whole history. */
  function ShipmentHistory(testRun: string, c: Configuration, draw: Draw, shipment: nat, n: nat): seq<ManifestEvent>
    requires n <= PER_SHIPMENT
  {
    if n == 0 then []
    else ShipmentHistory(testRun, c, draw, shipment, n - 1) + [EventOf(testRun, c, draw, shipment, n - 1)]
  }

  /** The inner loop: one event per status, a minute apart, numbered on from `sequenceNumber`. */
  method GenerateShipment(testRun: string, c: Configuration, draw: Draw, shipment: nat, sequenceNumber: nat)
    returns (events: seq<ManifestEvent>, next: nat)
    requires sequenceNumber == PER_SHIPMENT * shipment + 1
    ensures events == ShipmentHistory(testRun, c, draw, shipment, PER_SHIPMENT)
    ensures next == PER_SHIPMENT * (shipment + 1) + 1
  {
    hide EventId, Tracking;
    var tracking := Tracking(testRun, shipment + 1, draw);
    var shipmentStart := c.startAt + shipment * PER_SHIPMENT * MINUTE + draw.seconds;
    events, next := [], sequenceNumber;
    for offset := 0 to PER_SHIPMENT
      invariant next == PER_SHIPMENT * shipment + offset + 1
      invariant events == ShipmentHistory(testRun, c, draw, shipment, offset)
    {
      events := events + [ManifestEvent(next, testRun, c.partnerId, EventId(testRun, next),
                                        tracking, STATUSES[offset], shipmentStart + offset * MINUTE)];
      next := next + 1;
    }
  }

  lemma {:induction false} HistoryExtends(testRun: string, c: Configuration, draws: seq<Draw>, shipment: nat, n: nat)
    requires shipment < |draws| && n <= PER_SHIPMENT
    ensures PER_SHIPMENT * shipment + n <= PER_SHIPMENT * |draws|
    ensures Generated(testRun, c, draws, PER_SHIPMENT * shipment + n)
            == Generated(testRun, c, draws, PER_SHIPMENT * shipment)
               + ShipmentHistory(testRun, c, draws[shipment], shipment, n)
  {
    hide EventOf, Generated;
    if n > 0 {
      HistoryExtends(testRun, c, draws, shipment, n - 1);
      GeneratedStep(testRun, c, draws, shipment, n - 1);
      var front := ShipmentHistory(testRun, c, draws[shipment], shipment, n - 1);
      var event := EventOf(testRun, c, draws[shipment], shipment, n - 1);
      assert ShipmentHistory(testRun, c, draws[shipment], shipment, n) == front + [event];
      hide ShipmentHistory;
    }
  }

  /** Five events per shipment, numbered through, and DELIVERED declared for every shipment. */
  method GenerateInputManifest(testRun: string, c: Configuration, draws: seq<Draw>) returns (m: InputManifest)
    requires c.shipmentCount > 0 && |draws| == c.shipmentCount && forall d <- draws :: d.Valid()
    ensures m.events == Generated(testRun, c, draws, PER_SHIPMENT * c.shipmentCount)
    ensures m.testRun == testRun
    ensures m.finals == DeliveredShipments(testRun, draws, c.shipmentCount)
    ensures m.finals == LastStatuses(m.events)
    ensures Validate(m) == None
  {
    hide EventOf, Tracking, Validate, ShipmentHistory;
    var events: seq<ManifestEvent> := [];
    var finals: map<string, ShipmentStatus> := map[];
    var sequenceNumber := 1;
    for shipment := 0 to c.shipmentCount
      invariant sequenceNumber == PER_SHIPMENT * shipment + 1
      invariant events == Generated(testRun, c, draws, PER_SHIPMENT * shipment)
      invariant finals == DeliveredShipments(testRun, draws, shipment)
    {
      var history;
      history, sequenceNumber := GenerateShipment(testRun, c, draws[shipment], shipment, sequenceNumber);
      HistoryExtends(testRun, c, draws, shipment, PER_SHIPMENT);
      events := events + history;
      finals := finals[Tracking(testRun, shipment + 1, draws[shipment]) := Delivered];
    }
    m := InputManifest(testRun, |events|, |events|, events, finals);
    DeliveredIsLast(testRun, c, draws, c.shipmentCount);
    GeneratedIsOrderly(testRun, c, draws, |events|);
    OrderlyManifestsValidate(m);
  }

  lemma GeneratedStep(testRun: string, c: Configuration, draws: seq<Draw>, shipment: nat, offset: nat)
    requires shipment < |draws| && offset < PER_SHIPMENT
    ensures PER_SHIPMENT * shipment + offset + 1 <= PER_SHIPMENT * |draws|
    ensures Generated(testRun, c, draws, PER_SHIPMENT * shipment + offset + 1)
            == Generated(testRun, c, draws, PER_SHIPMENT * shipment + offset)
               + [EventOf(testRun, c, draws[shipment], shipment, offset)]
  {
    hide EventOf;
    IndexOf(shipment, offset);
  }

  lemma IndexOf(shipment: nat, offset: nat)
    requires offset < PER_SHIPMENT
    ensures (PER_SHIPMENT * shipment + offset) / PER_SHIPMENT == shipment
    ensures (PER_SHIPMENT * shipment + offset) % PER_SHIPMENT == offset
  {
  }

  /** The last status a shipment has in this event list. */
  function LastStatus(events: seq<ManifestEvent>, t: string): (s: Option<ShipmentStatus>)
    ensures s.Some? <==> exists e :: e in events && e.tracking == t
  {
    if events == [] then None
    else
      var front, last := events[..|events| - 1], events[|events| - 1];
      assert events == front + [last];
      if last.tracking == t then Some(last.status) else LastStatus(front, t)
  }

  function LastStatuses(events: seq<ManifestEvent>): map<string, ShipmentStatus> {
    map t | t in Trackings(events) :: LastStatus(events, t).value
  }

  /** Exactly n events, possibly ending in the middle of a shipment's history. */
  method BuildExactEventManifest(n: nat, testRun: string, partnerId: string, startAt: int, draws: seq<Draw>)
    returns (m: InputManifest)
    requires n > 0 && |draws| == (n + PER_SHIPMENT - 1) / PER_SHIPMENT && forall d <- draws :: d.Valid()
    ensures m.events == Generated(testRun, Configuration(partnerId, |draws|, startAt), draws, n)
    ensures m.testRun == testRun
    ensures m.finals == LastStatuses(m.events)
    ensures Validate(m) == None
  {
    var c := Configuration(partnerId, |draws|, startAt);
    var generated := GenerateInputManifest(testRun, c, draws);
    var events := generated.events[..n];
    GeneratedPrefix(testRun, c, draws, |generated.events|, n);
    var finals := map t | t in Trackings(events) :: LastStatus(events, t).value;
    m := InputManifest(testRun, n, n, events, finals);
    GeneratedIsOrderly(testRun, c, draws, n);
    OrderlyManifestsValidate(m);
  }

  // ----- why the declared states are reached -----

  /** Events of one shipment appear in strictly rising status and time. */
  ghost predicate Chronological(events: seq<ManifestEvent>) {
    forall i, j :: 0 <= i < j < |events| && events[i].tracking == events[j].tracking ==>
      events[i].at < events[j].at && StatusOrder(events[i].status) < StatusOrder(events[j].status)
  }

  ghost predicate DistinctKeys(events: seq<ManifestEvent>) {
    forall i, j :: 0 <= i < j < |events| ==> events[i].Key() != events[j].Key()
  }

  ghost predicate Numbered(events: seq<ManifestEvent>, testRun: string) {
    forall k :: 0 <= k < |events| ==> events[k].sequenceNumber == k + 1 && events[k].testRun == testRun
  }

  ghost predicate Orderly(events: seq<ManifestEvent>, testRun: string) {
    Chronological(events) && DistinctKeys(events) && Numbered(events, testRun)
  }

  /**
   When the events of a generated run occur: shipment s starts five minutes after the
   one before, plus its drawn seconds, and its statuses follow a minute apart.
   */
  lemma GeneratedTimes(testRun: string, c: Configuration, draws: seq<Draw>, s: nat, offset: nat)
    requires s < |draws| && offset < 5
    ensures 5 * s + offset < PER_SHIPMENT * |draws|
    ensures var e := GeneratedEvent(testRun, c, draws, 5 * s + offset);
            && e.at == c.startAt + 300 * s + draws[s].seconds + 60 * offset
            && StatusOrder(e.status) == offset
            && e.partnerId == c.partnerId && e.testRun == testRun && e.sequenceNumber == 5 * s + offset + 1
  {
    hide EventId, Tracking;
    IndexOf(s, offset);
  }

  /** A generated run is listed in the order in which its events occur, across all shipments. */
  lemma GeneratedRunIsChronological(testRun: string, c: Configuration, draws: seq<Draw>, i: nat, j: nat)
    requires i < j < PER_SHIPMENT * |draws| && forall d <- draws :: d.Valid()
    ensures GeneratedEvent(testRun, c, draws, i).at < GeneratedEvent(testRun, c, draws, j).at
  {
    GeneratedTimes(testRun, c, draws, i / 5, i % 5);
    GeneratedTimes(testRun, c, draws, j / 5, j % 5);
    hide GeneratedEvent;
    var s, t := i / 5, j / 5;
    assert i == 5 * s + i % 5 && j == 5 * t + j % 5;
    assert draws[s].Valid() && draws[t].Valid();
    LaterInRun(s, t, i % 5, j % 5, draws[s].seconds, draws[t].seconds);
  }

  lemma LaterInRun(s: nat, t: nat, a: nat, b: nat, x: int, y: int)
    requires 5 * s + a < 5 * t + b && a < 5 && b < 5
    requires 0 <= x < 60 && 0 <= y < 60 && (s == t ==> x == y)
    ensures 300 * s + x + 60 * a < 300 * t + y + 60 * b
  {
  }

  lemma SameTrackingSameShipment(testRun: string, a: nat, x: Draw, b: nat, y: Draw)
    requires x.Valid() && y.Valid() && Tracking(testRun, a, x) == Tracking(testRun, b, y)
    ensures a == b
  {
    IdentifierIsInjective(RunPrefix(testRun), 6, a, "-" + x.suffix, b, "-" + y.suffix);
  }

  lemma GeneratedIdsDiffer(testRun: string, c: Configuration, draws: seq<Draw>, i: nat, j: nat)
    requires i < j < PER_SHIPMENT * |draws|
    ensures GeneratedEvent(testRun, c, draws, i).Key() != GeneratedEvent(testRun, c, draws, j).Key()
  {
    hide Identifier, Tracking;
    var e, f := GeneratedEvent(testRun, c, draws, i), GeneratedEvent(testRun, c, draws, j);
    if e.partnerEventId == f.partnerEventId {
      IdentifierIsInjective(RunPrefix(testRun), 8, i + 1, "", j + 1, "");
    }
  }

  lemma GeneratedPair(testRun: string, c: Configuration, draws: seq<Draw>, i: nat, j: nat)
    requires i < j < PER_SHIPMENT * |draws|
    requires draws[i / PER_SHIPMENT].Valid() && draws[j / PER_SHIPMENT].Valid()
    ensures var e, f := GeneratedEvent(testRun, c, draws, i), GeneratedEvent(testRun, c, draws, j);
            && e.Key() != f.Key()
            && (e.tracking == f.tracking ==> e.at < f.at && StatusOrder(e.status) < StatusOrder(f.status))
  {
    hide EventId, Tracking, ManifestEvent.Key;
    GeneratedIdsDiffer(testRun, c, draws, i, j);
    var e, f := GeneratedEvent(testRun, c, draws, i), GeneratedEvent(testRun, c, draws, j);
    var s, t := i / PER_SHIPMENT, j / PER_SHIPMENT;
    if e.tracking == f.tracking {
      SameTrackingSameShipment(testRun, s + 1, draws[s], t + 1, draws[t]);
    }
  }

  lemma GeneratedIsOrderly(testRun: string, c: Configuration, draws: seq<Draw>, n: nat)
    requires n <= PER_SHIPMENT * |draws| && forall d <- draws :: d.Valid()
    ensures Orderly(Generated(testRun, c, draws, n), testRun)
  {
    var events := Generated(testRun, c, draws, n);
    forall j | 0 <= j < n ensures events[j] == GeneratedEvent(testRun, c, draws, j) {
      GeneratedAt(testRun, c, draws, n, j);
    }
    forall i, j | 0 <= i < j < n
      ensures events[i].Key() != events[j].Key()
      ensures events[i].tracking == events[j].tracking ==>
                events[i].at < events[j].at && StatusOrder(events[i].status) < StatusOrder(events[j].status)
    {
      GeneratedPair(testRun, c, draws, i, j);
    }
    forall k | 0 <= k < n ensures events[k].sequenceNumber == k + 1 && events[k].testRun == testRun {
      assert k == PER_SHIPMENT * (k / PER_SHIPMENT) + k % PER_SHIPMENT;
    }
  }

  lemma {:induction false} DistinctKeysCount(events: seq<ManifestEvent>)
    requires DistinctKeys(events)
    ensures |Keys(events)| == |events|
  {
    if events != [] {
      var front, last := events[..|events| - 1], events[|events| - 1];
      DistinctKeysCount(front);
      assert events == front + [last];
      assert Keys(events) == Keys(front) + {last.Key()};
      forall i | 0 <= i < |front| ensures front[i].Key() != last.Key() {
        assert events[i].Key() != events[|front|].Key();
      }
    }
  }

  lemma {:induction false} LastStatusIsReported(events: seq<ManifestEvent>, t: string)
    requires t in Trackings(events)
    ensures (t, LastStatus(events, t).value) in States(events)
  {
    var front, last := events[..|events| - 1], events[|events| - 1];
    assert events == front + [last];
    if last.tracking == t {
      assert (last.tracking, last.status) in States(events);
    } else {
      LastStatusIsReported(front, t);
      var e :| e in front && (e.tracking, e.status) == (t, LastStatus(front, t).value);
      assert e in events;
    }
  }

  /** Orderly events with their last statuses declared satisfy every clause of the validator. */
  lemma OrderlyManifestsValidate(m: InputManifest)
    requires Orderly(m.events, m.testRun)
    requires m.eventsGenerated == m.uniqueEvents == |m.events|
    requires m.finals == LastStatuses(m.events)
    ensures Validate(m) == None
  {
    DistinctKeysCount(m.events);
    forall t | t in m.finals ensures (t, m.finals[t]) in States(m.events) {
      LastStatusIsReported(m.events, t);
    }
  }

  /** What the gateway is told about shipment t by the manifest. */
  ghost function ReportsOf(events: seq<ManifestEvent>, t: string): set<Shipment> {
    set e | e in events && e.tracking == t :: Shipment(e.status, e.at)
  }

  /** In chronological events the last report of a shipment is the latest and furthest along. */
  lemma LastEventIsLatest(events: seq<ManifestEvent>)
    requires Chronological(events) && events != []
    ensures var last := events[|events| - 1];
            Latest(ReportsOf(events, last.tracking), Shipment(last.status, last.at))
  {
    var last := events[|events| - 1];
    var m := Shipment(last.status, last.at);
    forall x | x in ReportsOf(events, last.tracking)
      ensures x.at <= m.at && StatusOrder(x.status) <= StatusOrder(m.status)
    {
      var i :| 0 <= i < |events| && events[i].tracking == last.tracking
               && x == Shipment(events[i].status, events[i].at);
    }
    assert last in events;
  }

  lemma OtherTrackingAddsNothing(events: seq<ManifestEvent>, t: string)
    requires events != [] && events[|events| - 1].tracking != t
    ensures ReportsOf(events, t) == ReportsOf(events[..|events| - 1], t)
  {
    var front, last := events[..|events| - 1], events[|events| - 1];
    assert forall e :: e in events <==> e in front || e == last;
  }

  lemma {:induction false} LastStatusIsLatest(events: seq<ManifestEvent>, t: string) returns (m: Shipment)
    requires Chronological(events) && t in Trackings(events)
    ensures Latest(ReportsOf(events, t), m) && m.status == LastStatus(events, t).value
  {
    var front, last := events[..|events| - 1], events[|events| - 1];
    assert events == front + [last];
    if last.tracking == t {
      m := Shipment(last.status, last.at);
      LastEventIsLatest(events);
    } else {
      hide Latest;
      m := LastStatusIsLatest(front, t);
      OtherTrackingAddsNothing(events, t);
    }
  }

  /** An arrival sequence of exactly the manifest's events, in any order, with any repetitions. */
  ghost predicate Replays(arrivals: seq<EventPersistence.NormalizedEvent>, events: seq<ManifestEvent>) {
    && (forall a :: a in arrivals ==> exists e :: e in events && a == e.Normalized())
    && (forall e :: e in events ==> e.Normalized() in arrivals)
  }

  lemma ReplayReports(arrivals: seq<EventPersistence.NormalizedEvent>, events: seq<ManifestEvent>, t: string)
    requires Replays(arrivals, events)
    ensures EventPersistence.Reports(arrivals, t) == ReportsOf(events, t)
  {
    forall x | x in ReportsOf(events, t) ensures x in EventPersistence.Reports(arrivals, t) {
      var e :| e in events && e.tracking == t && x == Shipment(e.status, e.at);
      assert e.Normalized() in arrivals && e.Normalized().Report() == x;
    }
  }

  /** Events that share a partner key are the same report, as in every manifest with repeated sends. */
  ghost predicate KeysAgree(events: seq<ManifestEvent>) {
    forall e, f :: e in events && f in events && e.Key() == f.Key() ==> e.Normalized() == f.Normalized()
  }

  lemma DistinctKeysAgree(events: seq<ManifestEvent>)
    requires DistinctKeys(events)
    ensures KeysAgree(events)
  {
    forall e, f | e in events && f in events && e.Key() == f.Key() ensures e == f {
      var i :| 0 <= i < |events| && events[i] == e;
      var j :| 0 <= j < |events| && events[j] == f;
      assert events[i].Key() == events[j].Key();
    }
  }

  lemma ReplayKeysIdentify(arrivals: seq<EventPersistence.NormalizedEvent>, events: seq<ManifestEvent>)
    requires Replays(arrivals, events) && KeysAgree(events)
    ensures EventPersistence.KeysIdentify(arrivals)
  {
    forall a, b | a in arrivals && b in arrivals && a.Key() == b.Key() ensures a == b {
      var e :| e in events && a == e.Normalized();
      var f :| f in events && b == f.Normalized();
      assert e.Key() == f.Key();
    }
  }

  lemma DeclaredStateIsReached(m: InputManifest, arrivals: seq<EventPersistence.NormalizedEvent>, t: string)
    requires Orderly(m.events, m.testRun) && m.finals == LastStatuses(m.events)
    requires Replays(arrivals, m.events)
    ensures var stored := EventPersistence.AfterArrivals(arrivals).shipments;
            && (t in stored <==> t in m.finals)
            && (t in m.finals ==> stored[t].status == m.finals[t])
  {
    hide EventPersistence.AfterArrivals, Latest, EventPersistence.Reports, ReportsOf, EventPersistence.KeysIdentify;
    DistinctKeysAgree(m.events);
    ReplayKeysIdentify(arrivals, m.events);
    if t in m.finals {
      var latest := LastStatusIsLatest(m.events, t);
      ReplayReports(arrivals, m.events, t);
      EventPersistence.StoredStatusConverges(arrivals, t, latest);
    } else {
      forall a | a in arrivals ensures a.tracking != t {
        var e :| e in m.events && a == e.Normalized();
        assert e.tracking in Trackings(m.events);
      }
      EventPersistence.UnreportedShipmentsStayAbsent(arrivals, t);
    }
  }

  /**
   The confluence theorem: however the events of an orderly manifest arrive and
   however often they repeat, the stored shipments are exactly the declared ones,
   each in exactly its declared final status.
   */
  lemma DeclaredStatesAreReached(m: InputManifest, arrivals: seq<EventPersistence.NormalizedEvent>)
    requires Orderly(m.events, m.testRun) && m.finals == LastStatuses(m.events)
    requires Replays(arrivals, m.events)
    ensures var stored := EventPersistence.AfterArrivals(arrivals).shipments;
            && stored.Keys == m.finals.Keys
            && forall t :: t in m.finals ==> stored[t].status == m.finals[t]
  {
    hide Orderly, Replays, EventPersistence.AfterArrivals, LastStatuses;
    forall t ensures t in EventPersistence.AfterArrivals(arrivals).shipments <==> t in m.finals
             ensures t in m.finals ==> EventPersistence.AfterArrivals(arrivals).shipments[t].status == m.finals[t]
    {
      DeclaredStateIsReached(m, arrivals, t);
    }
  }

  /** The theorem for every generated manifest, complete or cut after any number of events. */
  lemma GeneratedStatesAreReached(testRun: string, c: Configuration, draws: seq<Draw>, n: nat,
                                  arrivals: seq<EventPersistence.NormalizedEvent>)
    requires n <= PER_SHIPMENT * |draws| && forall d <- draws :: d.Valid()
    requires Replays(arrivals, Generated(testRun, c, draws, n))
    ensures var finals := LastStatuses(Generated(testRun, c, draws, n));
            var stored := EventPersistence.AfterArrivals(arrivals).shipments;
            && stored.Keys == finals.Keys
            && forall t :: t in finals ==> stored[t].status == finals[t]
  {
    var events := Generated(testRun, c, draws, n);
    GeneratedIsOrderly(testRun, c, draws, n);
    DeclaredStatesAreReached(InputManifest(testRun, n, n, events, LastStatuses(events)), arrivals);
  }

  // ----- the generator's own declaration agrees with the last statuses -----

  lemma {:induction false} DeliveredKeys(testRun: string, draws: seq<Draw>, n: nat, t: string)
    requires n <= |draws|
    ensures t in DeliveredShipments(testRun, draws, n) <==>
            exists k :: 0 <= k < n && t == Tracking(testRun, k + 1, draws[k])
    ensures t in DeliveredShipments(testRun, draws, n) ==> DeliveredShipments(testRun, draws, n)[t] == Delivered
  {
    hide Tracking;
    if n > 0 {
      DeliveredKeys(testRun, draws, n - 1, t);
    }
  }

  lemma LaterIsAnotherShipment(testRun: string, c: Configuration, draws: seq<Draw>, k: nat, i: nat)
    requires PER_SHIPMENT * k + 4 < i < PER_SHIPMENT * |draws|
    requires draws[k].Valid() && draws[i / PER_SHIPMENT].Valid()
    ensures GeneratedEvent(testRun, c, draws, i).tracking != Tracking(testRun, k + 1, draws[k])
  {
    if GeneratedEvent(testRun, c, draws, i).tracking == Tracking(testRun, k + 1, draws[k]) {
      SameTrackingSameShipment(testRun, i / PER_SHIPMENT + 1, draws[i / PER_SHIPMENT], k + 1, draws[k]);
    }
  }

  /** Appending an event of another shipment leaves a shipment's last status alone. */
  lemma LastStatusOfAppend(events: seq<ManifestEvent>, e: ManifestEvent, t: string)
    ensures LastStatus(events + [e], t) == if e.tracking == t then Some(e.status) else LastStatus(events, t)
  {
    assert (events + [e])[..|events|] == events;
  }

  lemma LastOfShipment(testRun: string, c: Configuration, draws: seq<Draw>, k: nat)
    requires PER_SHIPMENT * k + 5 <= PER_SHIPMENT * |draws|
    ensures var last := GeneratedEvent(testRun, c, draws, PER_SHIPMENT * k + 4);
            last.tracking == Tracking(testRun, k + 1, draws[k]) && last.status == Delivered
  {
    hide Tracking, EventId;
    IndexOf(k, 4);
  }

  lemma {:induction false} LastOfWholeShipments(testRun: string, c: Configuration, draws: seq<Draw>, n: nat, k: nat)
    requires PER_SHIPMENT * k + 5 <= n <= PER_SHIPMENT * |draws| && forall d <- draws :: d.Valid()
    ensures LastStatus(Generated(testRun, c, draws, n), Tracking(testRun, k + 1, draws[k])) == Some(Delivered)
  {
    hide Tracking, EventId, LastStatus, GeneratedEvent;
    assert GeneratedEvent(testRun, c, draws, PER_SHIPMENT * k + 4).tracking == Tracking(testRun, k + 1, draws[k])
           && GeneratedEvent(testRun, c, draws, PER_SHIPMENT * k + 4).status == Delivered by {
      LastOfShipment(testRun, c, draws, k);
    }
    LastStatusOfAppend(Generated(testRun, c, draws, n - 1), GeneratedEvent(testRun, c, draws, n - 1),
                       Tracking(testRun, k + 1, draws[k]));
    if n > PER_SHIPMENT * k + 5 {
      LastOfWholeShipments(testRun, c, draws, n - 1, k);
      LaterIsAnotherShipment(testRun, c, draws, k, n - 1);
    }
  }

  lemma GeneratedTracking(testRun: string, c: Configuration, draws: seq<Draw>, n: nat, t: string) returns (k: nat)
    requires n <= |draws| && t in Trackings(Generated(testRun, c, draws, PER_SHIPMENT * n))
    ensures k < n && t == Tracking(testRun, k + 1, draws[k])
  {
    var events := Generated(testRun, c, draws, PER_SHIPMENT * n);
    var e :| e in events && e.tracking == t;
    var j :| 0 <= j < |events| && events[j] == e;
    GeneratedAt(testRun, c, draws, PER_SHIPMENT * n, j);
    k := j / PER_SHIPMENT;
  }

  lemma DeliveredIsLast(testRun: string, c: Configuration, draws: seq<Draw>, n: nat)
    requires n <= |draws| && forall d <- draws :: d.Valid()
    ensures DeliveredShipments(testRun, draws, n) == LastStatuses(Generated(testRun, c, draws, PER_SHIPMENT * n))
  {
    hide Tracking, Generated, DeliveredShipments;
    var last := LastStatuses(Generated(testRun, c, draws, PER_SHIPMENT * n));
    var declared := DeliveredShipments(testRun, draws, n);
    forall t ensures t in declared <==> t in last
             ensures t in declared ==> declared[t] == last[t]
    {
      DeliveredKeys(testRun, draws, n, t);
      if t in declared {
        var k :| 0 <= k < n && t == Tracking(testRun, k + 1, draws[k]);
        LastOfWholeShipments(testRun, c, draws, PER_SHIPMENT * n, k);
      }
      if t in last {
        var k := GeneratedTracking(testRun, c, draws, n, t);
      }
    }
    assert declared.Keys == last.Keys;
  }
}
