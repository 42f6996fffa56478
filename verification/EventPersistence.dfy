/** The transactional persistence of normalized events: shipment state, event and outbox row together. */
module EventPersistence {
  import opened Wrappers
  import opened ShipmentDomain

  datatype NormalizedEvent = NormalizedEvent(
    partnerId: string,
    partnerEventId: string,
    tracking: string,
    status: ShipmentStatus,
    at: int)
  {
    function Key(): (string, string) {
      (partnerId, partnerEventId)
    }

    function Report(): Shipment {
      Shipment(status, at)
    }
  }

  datatype StoredEvent = StoredEvent(id: nat, event: NormalizedEvent, applied: bool, rejection: Option<RejectionReason>)

  /** The committed tables. */
  datatype Tables = Tables(
    shipments: map<string, Shipment>,
    events: map<(string, string), StoredEvent>,
    outbox: set<nat>)

  datatype Persistence = Persistence(id: nat, duplicate: bool)

  const EMPTY := Tables(map[], map[], {})

  function Lookup(shipments: map<string, Shipment>, tracking: string): Option<Shipment> {
    if tracking in shipments then Some(shipments[tracking]) else None
  }

  function DecisionFor(shipments: map<string, Shipment>, e: NormalizedEvent): Decision {
    match Lookup(shipments, e.tracking)
    case None => Decision(true, None)
    case Some(current) => EvaluateTransition(current, e.Report())
  }

  /** The committed effect of one persistence call. */
  function Persisted(t: Tables, e: NormalizedEvent): Tables {
    if e.Key() in t.events then t
    else
      var d := DecisionFor(t.shipments, e);
      Tables(
        t.shipments[e.tracking := Advance(Lookup(t.shipments, e.tracking), e.Report())],
        t.events[e.Key() := StoredEvent(|t.events|, e, d.applied, d.rejection)],
        t.outbox + {|t.events|})
  }

  function AfterArrivals(arrivals: seq<NormalizedEvent>): Tables {
    if arrivals == [] then EMPTY
    else Persisted(AfterArrivals(arrivals[..|arrivals| - 1]), arrivals[|arrivals| - 1])
  }

  ghost predicate IdsDistinct(events: map<(string, string), StoredEvent>) {
    && (forall k :: k in events ==> events[k].event.Key() == k && events[k].id < |events|)
    && (forall k, l :: k in events && l in events && events[k].id == events[l].id ==> k == l)
  }

  ghost predicate OutboxMatches(t: Tables) {
    forall id: nat :: id in t.outbox <==> id < |t.events|
  }

  ghost predicate HasEvent(t: Tables, tracking: string) {
    exists k :: k in t.events && t.events[k].event.tracking == tracking
  }

  ghost predicate ShipmentsMatch(t: Tables) {
    forall x :: x in t.shipments <==> HasEvent(t, x)
  }

  /** Ids are handed out consecutively, each event has its own outbox row, each shipment an event. */
  ghost predicate Consistent(t: Tables) {
    IdsDistinct(t.events) && OutboxMatches(t) && ShipmentsMatch(t)
  }

  lemma HasEventAfter(t: Tables, e: NormalizedEvent, x: string)
    requires e.Key() !in t.events
    ensures HasEvent(Persisted(t, e), x) <==> x == e.tracking || HasEvent(t, x)
  {
    var u := Persisted(t, e);
    if HasEvent(t, x) {
      var k :| k in t.events && t.events[k].event.tracking == x;
      assert k in u.events && u.events[k] == t.events[k];
    }
    if x == e.tracking {
      assert u.events[e.Key()].event.tracking == x;
    }
  }

  lemma InsertedIdIsDistinct(events: map<(string, string), StoredEvent>, stored: StoredEvent)
    requires IdsDistinct(events) && stored.event.Key() !in events && stored.id == |events|
    ensures |events[stored.event.Key() := stored]| == |events| + 1
    ensures IdsDistinct(events[stored.event.Key() := stored])
  {
    hide NormalizedEvent.Key;
    var more := events[stored.event.Key() := stored];
    assert more.Keys == events.Keys + {stored.event.Key()};
    assert |more| == |more.Keys| && |events| == |events.Keys|;
  }

  lemma IdsStayDistinct(t: Tables, e: NormalizedEvent)
    requires IdsDistinct(t.events) && e.Key() !in t.events
    ensures |Persisted(t, e).events| == |t.events| + 1
    ensures IdsDistinct(Persisted(t, e).events)
  {
    var d := DecisionFor(t.shipments, e);
    InsertedIdIsDistinct(t.events, StoredEvent(|t.events|, e, d.applied, d.rejection));
  }

  lemma ShipmentsStayMatched(t: Tables, e: NormalizedEvent)
    requires ShipmentsMatch(t) && e.Key() !in t.events
    ensures ShipmentsMatch(Persisted(t, e))
  {
    forall x ensures x in Persisted(t, e).shipments <==> HasEvent(Persisted(t, e), x) {
      HasEventAfter(t, e, x);
    }
  }

  lemma PersistedKeepsConsistent(t: Tables, e: NormalizedEvent)
    requires Consistent(t)
    ensures Consistent(Persisted(t, e))
  {
    if e.Key() !in t.events {
      IdsStayDistinct(t, e);
      ShipmentsStayMatched(t, e);
    }
  }

  lemma StoredIsPending(t: Tables, k: (string, string))
    requires Consistent(t)
    ensures if k in t.events then t.events[k].id in t.outbox else |t.events| !in t.outbox
  {
  }

  /**
   What is stored of one new event, against the row it met: applied exactly when the
   row was created or its status rose, and otherwise the reason why it did not.
   */
  predicate Explained(before: Option<Shipment>, e: NormalizedEvent, stored: StoredEvent, after: Shipment) {
    && stored.event == e
    && match before
       case None =>
         stored.applied && stored.rejection == None && after == Shipment(e.status, e.at)
       case Some(row) =>
         && (stored.applied <==> StatusOrder(row.status) < StatusOrder(after.status))
         && (stored.applied <==> row.at <= e.at && StatusOrder(row.status) < StatusOrder(e.status))
         && after == (if stored.applied then Shipment(e.status, e.at) else row)
         && (stored.rejection == None <==> stored.applied)
         && (stored.rejection == Some(StaleEvent) <==> e.at < row.at)
         && (stored.rejection == Some(TerminalState) <==> row.at <= e.at && row.status == Delivered)
         && (stored.rejection == Some(NonForwardTransition) <==>
               && row.at <= e.at && row.status != Delivered
               && StatusOrder(e.status) <= StatusOrder(row.status))
  }

  lemma StoredDecisionExplained(t: Tables, e: NormalizedEvent)
    requires e.Key() !in t.events
    ensures var u := Persisted(t, e);
            Explained(Lookup(t.shipments, e.tracking), e, u.events[e.Key()], u.shipments[e.tracking])
  {
    if e.tracking in t.shipments {
      TransitionIff(t.shipments[e.tracking], e.Report());
    }
  }

  /** The rows of a persisted event, as a transaction that rolls back on a known key writes them. */
  lemma PersistedTables(t: Tables, e: NormalizedEvent)
    ensures e.Key() in t.events ==> Persisted(t, e) == t
    ensures e.Key() !in t.events ==>
              var current := Lookup(t.shipments, e.tracking);
              var d := if current.Some? then EvaluateTransition(current.value, e.Report()) else Decision(true, None);
              Persisted(t, e) == Tables(if d.applied then t.shipments[e.tracking := e.Report()] else t.shipments,
                                        t.events[e.Key() := StoredEvent(|t.events|, e, d.applied, d.rejection)],
                                        t.outbox + {|t.events|})
  {
    hide EvaluateTransition, NormalizedEvent.Key;
    if e.tracking in t.shipments {
      assert t.shipments[e.tracking := t.shipments[e.tracking]] == t.shipments;
    }
  }

  /** The database as an object: a transaction that either commits all its rows or none. */
  class Database {
    var shipments: map<string, Shipment>
    var events: map<(string, string), StoredEvent>
    var outbox: set<nat>

    ghost function Contents(): Tables
      reads this
    {
      Tables(shipments, events, outbox)
    }

    constructor ()
      ensures Contents() == EMPTY
    {
      shipments, events, outbox := map[], map[], {};
    }

    /** Update the shipment, insert the event, insert its outbox row; roll back on a duplicate key. */
    method PersistNormalizedEvent(e: NormalizedEvent) returns (result: Persistence)
      requires Consistent(Contents())
      modifies this
      ensures Contents() == Persisted(old(Contents()), e)
      ensures Consistent(Contents())
      ensures result.duplicate <==> e.Key() in old(events)
      ensures e.Key() in events && result.id == events[e.Key()].id && result.id in outbox
      ensures !result.duplicate ==> result.id !in old(outbox)
      ensures !result.duplicate ==>
                && e.tracking in shipments
                && Explained(Lookup(old(shipments), e.tracking), e, events[e.Key()], shipments[e.tracking])
    {
      if e.Key() !in events {
        StoredDecisionExplained(Contents(), e);
      }
      PersistedTables(Contents(), e);
      hide Consistent, EvaluateTransition, Explained, NormalizedEvent.Key, Persisted;
      PersistedKeepsConsistent(Contents(), e);
      StoredIsPending(Contents(), e.Key());
      var savedShipments := shipments;
      var applied, rejection := true, None;
      if e.tracking !in shipments {
        shipments := shipments[e.tracking := e.Report()];
      } else {
        var decision := EvaluateTransition(shipments[e.tracking], e.Report());
        applied, rejection := decision.applied, decision.rejection;
        if decision.applied {
          shipments := shipments[e.tracking := e.Report()];
        }
      }
      if e.Key() in events {
        shipments := savedShipments;
        return Persistence(events[e.Key()].id, true);
      }
      var id := |events|;
      events := events[e.Key() := StoredEvent(id, e, applied, rejection)];
      outbox := outbox + {id};
      return Persistence(id, false);
    }
  }

  // ----- whole arrival sequences -----

  /** Events that share a partner key are the same event, as in every manifest. */
  ghost predicate KeysIdentify(arrivals: seq<NormalizedEvent>) {
    forall a, b :: a in arrivals && b in arrivals && a.Key() == b.Key() ==> a == b
  }

  /** What shipment t was told, in order, after duplicates were refused. */
  function History(arrivals: seq<NormalizedEvent>, t: string): seq<Shipment> {
    if arrivals == [] then []
    else
      var front, last := arrivals[..|arrivals| - 1], arrivals[|arrivals| - 1];
      History(front, t) +
      if last.tracking == t && last.Key() !in AfterArrivals(front).events then [last.Report()] else []
  }

  ghost function Reports(arrivals: seq<NormalizedEvent>, t: string): set<Shipment> {
    set e | e in arrivals && e.tracking == t :: e.Report()
  }

  lemma {:induction false} StoredKeys(arrivals: seq<NormalizedEvent>)
    ensures forall k :: k in AfterArrivals(arrivals).events <==> exists e :: e in arrivals && e.Key() == k
  {
    if arrivals != [] {
      var front, last := arrivals[..|arrivals| - 1], arrivals[|arrivals| - 1];
      StoredKeys(front);
      assert forall e :: e in arrivals <==> e in front || e == last;
    }
  }

  /** A shipment's row is the fold of its own history. */
  lemma {:induction false} ShipmentIsFoldOfHistory(arrivals: seq<NormalizedEvent>, t: string)
    ensures Lookup(AfterArrivals(arrivals).shipments, t) == Final(History(arrivals, t))
  {
    if arrivals != [] {
      var front, last := arrivals[..|arrivals| - 1], arrivals[|arrivals| - 1];
      ShipmentIsFoldOfHistory(front, t);
      if last.tracking == t && last.Key() !in AfterArrivals(front).events {
        var h := History(arrivals, t);
        assert h[..|h| - 1] == History(front, t);
      } else {
        assert History(arrivals, t) == History(front, t);
      }
    }
  }

  /** Refusing duplicates loses no report. */
  lemma {:induction false} HistoryHasEveryReport(arrivals: seq<NormalizedEvent>, t: string)
    requires KeysIdentify(arrivals)
    ensures Elements(History(arrivals, t)) == Reports(arrivals, t)
  {
    if arrivals != [] {
      var front, last := arrivals[..|arrivals| - 1], arrivals[|arrivals| - 1];
      assert arrivals == front + [last];
      assert forall e :: e in front ==> e in arrivals;
      HistoryHasEveryReport(front, t);
      var added := last.tracking == t && last.Key() !in AfterArrivals(front).events;
      if last.tracking == t && !added {
        KnownEventIsCounted(front, last);
      }
      ElementsGrow(History(front, t), last.Report());
      ReportsGrow(front, last, t);
      hide Reports, Elements, AfterArrivals, KeysIdentify, NormalizedEvent.Key;
      assert arrivals == front + [last];
      assert History(arrivals, t) == History(front, t) + if added then [last.Report()] else [];
    }
  }

  lemma KnownEventIsCounted(front: seq<NormalizedEvent>, last: NormalizedEvent)
    requires KeysIdentify(front + [last]) && last.Key() in AfterArrivals(front).events
    ensures last.Report() in Reports(front, last.tracking)
  {
    hide AfterArrivals;
    StoredKeys(front);
    var e :| e in front && e.Key() == last.Key();
    assert e in front + [last] && last in front + [last];
    ReportIsCounted(front, last);
  }

  lemma ElementsGrow(history: seq<Shipment>, report: Shipment)
    ensures Elements(history + [report]) == Elements(history) + {report} && Elements(history + []) == Elements(history)
  {
    assert history + [] == history;
    assert forall x :: x in history + [report] <==> x in history || x == report;
  }

  lemma ReportsGrow(front: seq<NormalizedEvent>, last: NormalizedEvent, t: string)
    ensures Reports(front + [last], t) == Reports(front, t) + if last.tracking == t then {last.Report()} else {}
  {
    assert forall e :: e in front + [last] <==> e in front || e == last;
  }

  lemma ReportIsCounted(arrivals: seq<NormalizedEvent>, e: NormalizedEvent)
    requires e in arrivals
    ensures e.Report() in Reports(arrivals, e.tracking)
  {
  }

  /**
   When some report of shipment t is both the latest and the furthest along, every
   arrival sequence with the same events stores exactly its status.
   */
  lemma StoredStatusConverges(arrivals: seq<NormalizedEvent>, t: string, m: Shipment)
    requires KeysIdentify(arrivals) && Latest(Reports(arrivals, t), m)
    ensures t in AfterArrivals(arrivals).shipments
    ensures AfterArrivals(arrivals).shipments[t].status == m.status
  {
    ShipmentIsFoldOfHistory(arrivals, t);
    HistoryHasEveryReport(arrivals, t);
    assert m in Elements(History(arrivals, t));
    LatestWins(History(arrivals, t), Reports(arrivals, t), m);
  }

  lemma UnreportedShipmentsStayAbsent(arrivals: seq<NormalizedEvent>, t: string)
    requires KeysIdentify(arrivals) && forall e :: e in arrivals ==> e.tracking != t
    ensures t !in AfterArrivals(arrivals).shipments
  {
    ShipmentIsFoldOfHistory(arrivals, t);
    HistoryHasEveryReport(arrivals, t);
    assert Reports(arrivals, t) == {};
    NonemptyHasElements(History(arrivals, t));
  }

  /** A shipment's history starts with its first arrival. */
  lemma {:induction false} HistoryStarts(arrivals: seq<NormalizedEvent>)
    requires arrivals != []
    ensures var history := History(arrivals, arrivals[0].tracking);
            history != [] && history[0] == arrivals[0].Report()
  {
    var front := arrivals[..|arrivals| - 1];
    if front == [] {
      assert History(front, arrivals[0].tracking) == [];
    } else {
      HistoryStarts(front);
    }
  }

  /** The stored shipment is one of the reports, and nothing its first arrival reported is ahead of it. */
  lemma StoredDominatesFirst(arrivals: seq<NormalizedEvent>) returns (stored: Shipment)
    requires arrivals != [] && KeysIdentify(arrivals)
    ensures Lookup(AfterArrivals(arrivals).shipments, arrivals[0].tracking) == Some(stored)
    ensures stored in Reports(arrivals, arrivals[0].tracking)
    ensures arrivals[0].at <= stored.at && StatusOrder(arrivals[0].status) <= StatusOrder(stored.status)
  {
    var t := arrivals[0].tracking;
    var history := History(arrivals, t);
    HistoryStarts(arrivals);
    ShipmentIsFoldOfHistory(arrivals, t);
    HistoryHasEveryReport(arrivals, t);
    FinalDominatesPrefix(history, 1);
    assert history[..1] == [history[0]];
    stored := Final(history).value;
    assert stored in Elements(history);
  }

  /** A stored event is never rewritten. */
  lemma {:induction false} StoredEventStays(arrivals: seq<NormalizedEvent>, n: nat, k: (string, string))
    requires n <= |arrivals| && k in AfterArrivals(arrivals[..n]).events
    ensures k in AfterArrivals(arrivals).events
    ensures AfterArrivals(arrivals).events[k] == AfterArrivals(arrivals[..n]).events[k]
  {
    if n == |arrivals| {
      assert arrivals[..n] == arrivals;
    } else {
      var front := arrivals[..|arrivals| - 1];
      assert front[..n] == arrivals[..n];
      StoredEventStays(front, n, k);
    }
  }

  /**
   Over any arrivals: the first arrival of a key stores, for good, whether and why it
   moved its shipment at that moment, and moves no other shipment.
   */
  lemma EveryDecisionIsExplained(arrivals: seq<NormalizedEvent>, n: nat)
    requires n < |arrivals| && forall i :: 0 <= i < n ==> arrivals[i].Key() != arrivals[n].Key()
    ensures var e, before, after := arrivals[n], AfterArrivals(arrivals[..n]), AfterArrivals(arrivals[..n + 1]);
            && e.Key() in AfterArrivals(arrivals).events && e.tracking in after.shipments
            && Explained(Lookup(before.shipments, e.tracking), e, AfterArrivals(arrivals).events[e.Key()],
                         after.shipments[e.tracking])
            && forall t :: t != e.tracking ==> Lookup(after.shipments, t) == Lookup(before.shipments, t)
  {
    hide NormalizedEvent.Key, Explained, AfterArrivals, Persisted;
    var e, before := arrivals[n], AfterArrivals(arrivals[..n]);
    KeyIsNew(arrivals, n);
    StoredDecisionExplained(before, e);
    PersistedRows(before, e);
    assert arrivals[..n + 1] == arrivals[..n] + [e];
    AfterOneMore(arrivals[..n], e);
    StoredEventStays(arrivals, n + 1, e.Key());
  }

  lemma KeyIsNew(arrivals: seq<NormalizedEvent>, n: nat)
    requires n < |arrivals| && forall i :: 0 <= i < n ==> arrivals[i].Key() != arrivals[n].Key()
    ensures arrivals[n].Key() !in AfterArrivals(arrivals[..n]).events
  {
    hide NormalizedEvent.Key, AfterArrivals;
    StoredKeys(arrivals[..n]);
  }

  lemma PersistedRows(t: Tables, e: NormalizedEvent)
    requires e.Key() !in t.events
    ensures e.Key() in Persisted(t, e).events && e.tracking in Persisted(t, e).shipments
    ensures forall x :: x != e.tracking ==> Lookup(Persisted(t, e).shipments, x) == Lookup(t.shipments, x)
  {
  }

  // ----- conflicting reports under one partner key -----

  /** The arrivals that were not refused as duplicates. */
  function FirstArrivals(arrivals: seq<NormalizedEvent>): seq<NormalizedEvent> {
    if arrivals == [] then []
    else
      var front, last := arrivals[..|arrivals| - 1], arrivals[|arrivals| - 1];
      FirstArrivals(front) + if last.Key() in AfterArrivals(front).events then [] else [last]
  }

  lemma AfterOneMore(arrivals: seq<NormalizedEvent>, e: NormalizedEvent)
    ensures AfterArrivals(arrivals + [e]) == Persisted(AfterArrivals(arrivals), e)
  {
    assert (arrivals + [e])[..|arrivals|] == arrivals;
  }

  /** Whatever a key's later arrivals claim, its first arrival alone decides the tables. */
  lemma {:induction false} FirstArrivalsDecide(arrivals: seq<NormalizedEvent>)
    ensures AfterArrivals(FirstArrivals(arrivals)) == AfterArrivals(arrivals)
    ensures forall e :: e in FirstArrivals(arrivals) ==> e in arrivals
    ensures KeysIdentify(FirstArrivals(arrivals))
  {
    if arrivals != [] {
      var front, last := arrivals[..|arrivals| - 1], arrivals[|arrivals| - 1];
      FirstArrivalsDecide(front);
      assert forall e :: e in arrivals <==> e in front || e == last;
      StoredKeys(FirstArrivals(front));
      hide Persisted;
      if last.Key() in AfterArrivals(front).events {
        assert FirstArrivals(arrivals) == FirstArrivals(front);
        KnownKeyChangesNothing(AfterArrivals(front), last);
      } else {
        AfterOneMore(FirstArrivals(front), last);
      }
    }
  }

  /** Every arrival's key was first used by some arrival that was not refused. */
  lemma FirstOfKey(arrivals: seq<NormalizedEvent>, a: NormalizedEvent) returns (first: NormalizedEvent)
    requires a in arrivals
    ensures first in FirstArrivals(arrivals) && first.Key() == a.Key()
  {
    hide AfterArrivals, FirstArrivals, NormalizedEvent.Key;
    FirstArrivalsDecide(arrivals);
    StoredKeys(arrivals);
    StoredKeys(FirstArrivals(arrivals));
    assert a.Key() in AfterArrivals(arrivals).events;
    first :| first in FirstArrivals(arrivals) && first.Key() == a.Key();
  }

  lemma KnownKeyChangesNothing(t: Tables, e: NormalizedEvent)
    requires e.Key() in t.events
    ensures Persisted(t, e) == t
  {
  }

  /** Arrivals whose keys are all known add nothing. */
  lemma {:induction false} KnownArrivalsChangeNothing(a: seq<NormalizedEvent>, b: seq<NormalizedEvent>)
    requires forall e :: e in b ==> e.Key() in AfterArrivals(a).events
    ensures AfterArrivals(a + b) == AfterArrivals(a)
  {
    if b == [] {
      assert a + b == a;
    } else {
      var front, last := b[..|b| - 1], b[|b| - 1];
      KnownArrivalsChangeNothing(a, front);
      assert a + b == (a + front) + [last];
      AfterOneMore(a + front, last);
      KnownKeyChangesNothing(AfterArrivals(a), last);
    }
  }
}
