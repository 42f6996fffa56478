/** Exactly when the states a manifest declares are reached, whatever the order and repetition of its events. */
module DeclaredStates {
  import opened Wrappers
  import opened ShipmentDomain
  import EP = EventPersistence
  import opened Manifest

  /** Every replay of the events leaves shipment t in this status. */
  ghost predicate AlwaysStores(events: seq<ManifestEvent>, t: string, status: ShipmentStatus) {
    forall arrivals: seq<EP.NormalizedEvent> :: Replays(arrivals, events) ==>
      var stored := EP.AfterArrivals(arrivals).shipments;
      t in stored && stored[t].status == status
  }

  /** One report of the shipment, with this status, is the latest and the furthest along. */
  ghost predicate HasLatest(events: seq<ManifestEvent>, t: string, status: ShipmentStatus) {
    exists m :: Latest(ReportsOf(events, t), m) && m.status == status
  }

  function NormalizedAll(events: seq<ManifestEvent>): (all: seq<EP.NormalizedEvent>)
    ensures |all| == |events| && forall i :: 0 <= i < |events| ==> all[i] == events[i].Normalized()
  {
    seq(|events|, i requires 0 <= i < |events| => events[i].Normalized())
  }

  lemma MembersNormalized(events: seq<ManifestEvent>)
    ensures forall e :: e in events ==> e.Normalized() in NormalizedAll(events)
    ensures forall a :: a in NormalizedAll(events) ==> exists e :: e in events && a == e.Normalized()
  {
    forall e | e in events ensures e.Normalized() in NormalizedAll(events) {
      var i :| 0 <= i < |events| && events[i] == e;
      assert NormalizedAll(events)[i] == e.Normalized();
    }
  }

  /** Any arrivals of the events, followed by all of them, are a replay. */
  lemma CompletedReplay(arrivals: seq<EP.NormalizedEvent>, events: seq<ManifestEvent>)
    requires forall a :: a in arrivals ==> exists e :: e in events && a == e.Normalized()
    ensures Replays(arrivals + NormalizedAll(events), events)
  {
    hide ManifestEvent.Normalized;
    MembersNormalized(events);
    var all := arrivals + NormalizedAll(events);
    assert forall a :: a in all <==> a in arrivals || a in NormalizedAll(events);
  }

  // ----- when repeated keys repeat the same report -----

  /** Replaying one event first shows a final state that is not behind it. */
  lemma ReplayedFirst(events: seq<ManifestEvent>, t: string, status: ShipmentStatus, x: Shipment) returns (m: Shipment)
    requires KeysAgree(events) && AlwaysStores(events, t, status) && x in ReportsOf(events, t)
    ensures m in ReportsOf(events, t) && m.status == status
    ensures x.at <= m.at && StatusOrder(x.status) <= StatusOrder(status)
  {
    hide EP.Reports, EP.AfterArrivals, KeysAgree, EP.KeysIdentify, Replays;
    var e :| e in events && e.tracking == t && x == Shipment(e.status, e.at);
    assert forall a :: a in [e.Normalized()] ==> a == e.Normalized();
    CompletedReplay([e.Normalized()], events);
    var arrivals := [e.Normalized()] + NormalizedAll(events);
    ReplayKeysIdentify(arrivals, events);
    ReplayReports(arrivals, events, t);
    m := EP.StoredDominatesFirst(arrivals);
  }

  lemma AlwaysStoredIsReported(events: seq<ManifestEvent>, t: string, status: ShipmentStatus) returns (x: Shipment)
    requires KeysAgree(events) && AlwaysStores(events, t, status)
    ensures x in ReportsOf(events, t)
  {
    hide EP.AfterArrivals, KeysAgree, EP.KeysIdentify, Replays;
    var arrivals := [] + NormalizedAll(events);
    CompletedReplay([], events);
    ReplayKeysIdentify(arrivals, events);
    ReplayReports(arrivals, events, t);
    if forall a :: a in arrivals ==> a.tracking != t {
      EP.UnreportedShipmentsStayAbsent(arrivals, t);
    }
    var a :| a in arrivals && a.tracking == t;
    x := a.Report();
    assert x in EP.Reports(arrivals, t);
  }

  /**
   For events whose repeated keys repeat the same report, a state is reached under
   every replay if and only if one report of the shipment, with that status, is both
   the latest in time and the furthest along.
   */
  lemma DeclaredStateIsReachedIff(events: seq<ManifestEvent>, t: string, status: ShipmentStatus)
    requires KeysAgree(events)
    ensures AlwaysStores(events, t, status) <==> HasLatest(events, t, status)
  {
    hide KeysAgree;
    if AlwaysStores(events, t, status) {
      hide AlwaysStores, ReportsOf;
      var any := AlwaysStoredIsReported(events, t, status);
      var reached := ReplayedFirst(events, t, status, any);
      var m := LatestWithStatus(ReportsOf(events, t), status);
      forall x | x in ReportsOf(events, t) ensures x.at <= m.at && StatusOrder(x.status) <= StatusOrder(m.status) {
        var final := ReplayedFirst(events, t, status, x);
      }
      assert Latest(ReportsOf(events, t), m);
    }
    if HasLatest(events, t, status) {
      LatestIsAlwaysStored(events, t, status);
    }
  }

  lemma LatestIsAlwaysStored(events: seq<ManifestEvent>, t: string, status: ShipmentStatus)
    requires KeysAgree(events) && HasLatest(events, t, status)
    ensures AlwaysStores(events, t, status)
  {
    var m :| Latest(ReportsOf(events, t), m) && m.status == status;
    hide Replays, KeysAgree, Latest, ReportsOf, EP.AfterArrivals, EP.KeysIdentify, EP.Reports;
    forall arrivals | Replays(arrivals, events)
      ensures t in EP.AfterArrivals(arrivals).shipments
      ensures EP.AfterArrivals(arrivals).shipments[t].status == status
    {
      ReplayKeysIdentify(arrivals, events);
      ReplayReports(arrivals, events, t);
      EP.StoredStatusConverges(arrivals, t, m);
    }
  }

  // ----- any events at all -----

  /** One event for every key: the choice that an arrival order makes when reports conflict. */
  ghost predicate Choice(chosen: seq<ManifestEvent>, events: seq<ManifestEvent>) {
    && (forall e :: e in chosen ==> e in events)
    && Keys(chosen) == Keys(events)
    && KeysAgree(chosen)
  }

  /** Offering a choice first refuses everything else. */
  lemma ChoiceDecides(chosen: seq<ManifestEvent>, events: seq<ManifestEvent>, arrivals: seq<EP.NormalizedEvent>)
    requires Choice(chosen, events) && Replays(arrivals, chosen)
    ensures Replays(arrivals + NormalizedAll(events), events)
    ensures EP.AfterArrivals(arrivals + NormalizedAll(events)) == EP.AfterArrivals(arrivals)
  {
    hide EP.AfterArrivals, KeysAgree;
    forall a | a in arrivals ensures exists e :: e in events && a == e.Normalized() {
      var c :| c in chosen && a == c.Normalized();
      assert c in events;
    }
    CompletedReplay(arrivals, events);
    MembersNormalized(events);
    EP.StoredKeys(arrivals);
    forall a | a in NormalizedAll(events) ensures a.Key() in EP.AfterArrivals(arrivals).events {
      var e :| e in events && a == e.Normalized();
      assert e.Key() in Keys(chosen);
      var c :| c in chosen && c.Key() == e.Key();
      assert c.Normalized() in arrivals;
    }
    EP.KnownArrivalsChangeNothing(arrivals, NormalizedAll(events));
  }

  lemma AlwaysStoredByChoice(chosen: seq<ManifestEvent>, events: seq<ManifestEvent>, t: string, status: ShipmentStatus)
    requires Choice(chosen, events) && AlwaysStores(events, t, status)
    ensures AlwaysStores(chosen, t, status)
  {
    hide Choice, Replays, EP.AfterArrivals;
    forall arrivals | Replays(arrivals, chosen)
      ensures t in EP.AfterArrivals(arrivals).shipments
      ensures EP.AfterArrivals(arrivals).shipments[t].status == status
    {
      ChoiceDecides(chosen, events, arrivals);
    }
  }

  /** Manifest events behind given arrivals. */
  lemma {:induction false} EventsBehind(arrivals: seq<EP.NormalizedEvent>, events: seq<ManifestEvent>)
    returns (chosen: seq<ManifestEvent>)
    requires forall a :: a in arrivals ==> exists e :: e in events && a == e.Normalized()
    ensures NormalizedAll(chosen) == arrivals && forall e :: e in chosen ==> e in events
  {
    hide ManifestEvent.Normalized;
    if arrivals == [] {
      chosen := [];
    } else {
      var front, last := arrivals[..|arrivals| - 1], arrivals[|arrivals| - 1];
      assert last in arrivals && forall a :: a in front ==> a in arrivals;
      var before := EventsBehind(front, events);
      var e :| e in events && last == e.Normalized();
      chosen := before + [e];
      assert NormalizedAll(chosen) == front + [last];
    }
  }

  lemma NormalizedKeys(e: ManifestEvent)
    ensures e.Normalized().Key() == e.Key()
  {
  }

  /** Events behind arrivals that agree on keys agree on keys themselves. */
  lemma ChosenAgree(chosen: seq<ManifestEvent>)
    requires EP.KeysIdentify(NormalizedAll(chosen))
    ensures KeysAgree(chosen)
  {
    hide ManifestEvent.Normalized, ManifestEvent.Key, EP.NormalizedEvent.Key;
    MembersNormalized(chosen);
    forall e, f | e in chosen && f in chosen && e.Key() == f.Key() ensures e.Normalized() == f.Normalized() {
      NormalizedKeys(e);
      NormalizedKeys(f);
    }
  }

  /** Events behind the first arrivals of a replay use every key. */
  lemma ChosenCover(arrivals: seq<EP.NormalizedEvent>, events: seq<ManifestEvent>, chosen: seq<ManifestEvent>)
    requires Replays(arrivals, events) && NormalizedAll(chosen) == EP.FirstArrivals(arrivals)
    requires forall e :: e in chosen ==> e in events
    ensures Keys(chosen) == Keys(events)
  {
    hide EP.FirstArrivals, ManifestEvent.Normalized, ManifestEvent.Key, EP.NormalizedEvent.Key;
    MembersNormalized(chosen);
    forall e | e in events ensures e.Key() in Keys(chosen) {
      var a := EP.FirstOfKey(arrivals, e.Normalized());
      var c :| c in chosen && a == c.Normalized();
      NormalizedKeys(c);
      NormalizedKeys(e);
      assert c.Key() in Keys(chosen);
    }
  }

  /** Every replay makes a choice, and ends as a replay of that choice alone does. */
  lemma ReplayMakesChoice(arrivals: seq<EP.NormalizedEvent>, events: seq<ManifestEvent>)
    returns (chosen: seq<ManifestEvent>)
    requires Replays(arrivals, events)
    ensures Choice(chosen, events)
    ensures Replays(EP.FirstArrivals(arrivals), chosen)
    ensures EP.AfterArrivals(EP.FirstArrivals(arrivals)) == EP.AfterArrivals(arrivals)
  {
    hide EP.AfterArrivals, EP.FirstArrivals, EP.KeysIdentify, KeysAgree, Keys, ManifestEvent.Normalized;
    var first := EP.FirstArrivals(arrivals);
    EP.FirstArrivalsDecide(arrivals);
    chosen := EventsBehind(first, events);
    MembersNormalized(chosen);
    ChosenAgree(chosen);
    ChosenCover(arrivals, events, chosen);
  }

  /**
   For any events, even with conflicting reports under one key: a state is reached
   under every replay if and only if every choice of one event per key leaves the
   shipment a report with that status that is the latest and the furthest along.
   */
  lemma AnyStateIsReachedIff(events: seq<ManifestEvent>, t: string, status: ShipmentStatus)
    ensures AlwaysStores(events, t, status) <==> forall chosen :: Choice(chosen, events) ==> HasLatest(chosen, t, status)
  {
    hide HasLatest, Replays, EP.AfterArrivals, KeysAgree;
    if AlwaysStores(events, t, status) {
      forall chosen | Choice(chosen, events) ensures HasLatest(chosen, t, status) {
        AlwaysStoredByChoice(chosen, events, t, status);
        DeclaredStateIsReachedIff(chosen, t, status);
      }
    }
    if forall chosen :: Choice(chosen, events) ==> HasLatest(chosen, t, status) {
      forall arrivals | Replays(arrivals, events)
        ensures t in EP.AfterArrivals(arrivals).shipments
        ensures EP.AfterArrivals(arrivals).shipments[t].status == status
      {
        var chosen := ReplayMakesChoice(arrivals, events);
        DeclaredStateIsReachedIff(chosen, t, status);
        assert AlwaysStores(chosen, t, status);
      }
    }
  }

  // ----- the same condition, read off the events -----

  /** Whatever is chosen for this key, it reports the shipment in this status, no earlier than this. */
  predicate KeySettles(events: seq<ManifestEvent>, f: ManifestEvent, t: string, status: ShipmentStatus, from: Option<int>) {
    forall e :: e in events && e.Key() == f.Key() ==>
      e.tracking == t && e.status == status && (from.Some? ==> from.value <= e.at)
  }

  predicate SomeKeySettles(events: seq<ManifestEvent>, t: string, status: ShipmentStatus, from: Option<int>) {
    exists f :: f in events && KeySettles(events, f, t, status, from)
  }

  /**
   Some key has only events of the shipment with this status. No event of the
   shipment is further along, and each has this status or some key has only events
   of the shipment with this status that are no earlier.
   */
  predicate Decided(events: seq<ManifestEvent>, t: string, status: ShipmentStatus) {
    && SomeKeySettles(events, t, status, None)
    && forall x :: x in events && x.tracking == t ==>
         && StatusOrder(x.status) <= StatusOrder(status)
         && (x.status == status || SomeKeySettles(events, t, status, Some(x.at)))
  }

  ghost function KeySet(kept: set<ManifestEvent>): set<(string, string)> {
    set e | e in kept :: e.Key()
  }

  /** The kept events are some of the events and use every key. */
  ghost predicate UsesEveryKey(kept: set<ManifestEvent>, events: seq<ManifestEvent>) {
    (forall f :: f in kept ==> f in events) && Keys(events) <= KeySet(kept)
  }

  lemma KeptForKey(events: seq<ManifestEvent>, kept: set<ManifestEvent>, f: ManifestEvent) returns (e: ManifestEvent)
    requires UsesEveryKey(kept, events) && f in events
    ensures e in kept && e.Key() == f.Key()
  {
    hide ManifestEvent.Key;
    assert f.Key() in Keys(events);
    e :| e in kept && e.Key() == f.Key();
  }

  /** Pick one kept event for every key. */
  lemma {:induction false} OnePerKey(events: seq<ManifestEvent>, kept: set<ManifestEvent>)
    returns (chosen: seq<ManifestEvent>)
    requires Keys(events) <= KeySet(kept)
    ensures forall c :: c in chosen ==> c in kept
    ensures Keys(chosen) == Keys(events) && KeysAgree(chosen)
  {
    hide ManifestEvent.Key, ManifestEvent.Normalized;
    if events == [] {
      chosen := [];
    } else {
      var front, last := events[..|events| - 1], events[|events| - 1];
      assert events == front + [last];
      assert Keys(events) == Keys(front) + {last.Key()};
      chosen := OnePerKey(front, kept);
      if last.Key() !in Keys(chosen) {
        var f :| f in kept && f.Key() == last.Key();
        assert forall c :: c in chosen + [f] <==> c in chosen || c == f;
        assert Keys(chosen + [f]) == Keys(chosen) + {f.Key()};
        assert forall c :: c in chosen ==> c.Key() in Keys(chosen);
        chosen := chosen + [f];
      }
    }
  }

  /** Whatever each key can contribute at worst, some choice contributes. */
  lemma ChoiceAmong(events: seq<ManifestEvent>, kept: set<ManifestEvent>) returns (chosen: seq<ManifestEvent>)
    requires UsesEveryKey(kept, events)
    ensures Choice(chosen, events) && forall c :: c in chosen ==> c in kept
  {
    hide Keys, KeysAgree;
    chosen := OnePerKey(events, kept);
  }

  lemma ChosenForKey(chosen: seq<ManifestEvent>, events: seq<ManifestEvent>, f: ManifestEvent) returns (c: ManifestEvent)
    requires Choice(chosen, events) && f in events
    ensures c in chosen && c in events && c.Key() == f.Key()
  {
    hide KeysAgree, ManifestEvent.Key;
    assert f.Key() in Keys(chosen);
    c :| c in chosen && c.Key() == f.Key();
  }

  lemma DecidedMeansLatest(chosen: seq<ManifestEvent>, events: seq<ManifestEvent>, t: string, status: ShipmentStatus)
    requires Choice(chosen, events) && Decided(events, t, status)
    ensures HasLatest(chosen, t, status)
  {
    hide Choice, KeysAgree, ManifestEvent.Key;
    assert forall c :: c in chosen ==> c in events by {
      ChoiceIsInside(chosen, events);
    }
    var reports := ReportsOf(chosen, t);
    var f :| f in events && KeySettles(events, f, t, status, None);
    var c := ChosenForKey(chosen, events, f);
    assert Shipment(c.status, c.at) in reports;
    var m := LatestWithStatus(reports, status);
    forall x | x in reports ensures x.at <= m.at && StatusOrder(x.status) <= StatusOrder(m.status) {
      var e :| e in chosen && e.tracking == t && x == Shipment(e.status, e.at);
      if e.status != status {
        var g :| g in events && KeySettles(events, g, t, status, Some(e.at));
        var later := ChosenForKey(chosen, events, g);
        assert Shipment(later.status, later.at) in reports;
      }
    }
    assert Latest(reports, m);
  }

  lemma ChoiceIsInside(chosen: seq<ManifestEvent>, events: seq<ManifestEvent>)
    requires Choice(chosen, events)
    ensures forall e :: e in chosen ==> e in events
  {
  }

  /** The event that shows a key does not settle the shipment. */
  predicate Unsettling(e: ManifestEvent, t: string, status: ShipmentStatus, from: Option<int>) {
    e.tracking == t && e.status == status ==> from.Some? && e.at < from.value
  }

  lemma UnsettledKey(events: seq<ManifestEvent>, f: ManifestEvent, t: string, status: ShipmentStatus, from: Option<int>)
    returns (e: ManifestEvent)
    requires f in events && !SomeKeySettles(events, t, status, from)
    ensures e in events && e.Key() == f.Key() && Unsettling(e, t, status, from)
  {
    assert !KeySettles(events, f, t, status, from);
    e :| e in events && e.Key() == f.Key() && Unsettling(e, t, status, from);
  }

  /** The event behind the latest report of a choice. */
  lemma LatestEvent(chosen: seq<ManifestEvent>, t: string, status: ShipmentStatus) returns (c: ManifestEvent)
    requires HasLatest(chosen, t, status)
    ensures c in chosen && c.tracking == t && c.status == status
    ensures forall x :: x in chosen && x.tracking == t ==> x.at <= c.at && StatusOrder(x.status) <= StatusOrder(status)
  {
    var m :| Latest(ReportsOf(chosen, t), m) && m.status == status;
    c :| c in chosen && c.tracking == t && m == Shipment(c.status, c.at);
    forall x | x in chosen && x.tracking == t ensures x.at <= c.at && StatusOrder(x.status) <= StatusOrder(status) {
      assert Shipment(x.status, x.at) in ReportsOf(chosen, t);
    }
  }

  lemma UnsettlingEvents(events: seq<ManifestEvent>, t: string, status: ShipmentStatus, from: Option<int>)
    returns (kept: set<ManifestEvent>)
    requires !SomeKeySettles(events, t, status, from)
    ensures UsesEveryKey(kept, events) && forall e :: e in kept ==> Unsettling(e, t, status, from)
  {
    hide SomeKeySettles, Unsettling, ManifestEvent.Key;
    kept := set e | e in events && Unsettling(e, t, status, from);
    forall f | f in events ensures f.Key() in KeySet(kept) {
      var e := UnsettledKey(events, f, t, status, from);
      assert e in kept;
    }
  }

  /** When no key settles the shipment, a choice of unsettling events leaves no report to be the latest. */
  lemma LatestNeedsSettledKey(events: seq<ManifestEvent>, t: string, status: ShipmentStatus)
    requires forall chosen :: Choice(chosen, events) ==> HasLatest(chosen, t, status)
    ensures SomeKeySettles(events, t, status, None)
  {
    hide Choice, HasLatest, SomeKeySettles, UsesEveryKey;
    if !SomeKeySettles(events, t, status, None) {
      var kept := UnsettlingEvents(events, t, status, None);
      var chosen := ChoiceAmong(events, kept);
      var c := LatestEvent(chosen, t, status);
    }
  }

  /** This event for its own key, and the kept ones for all others. */
  lemma KeptWith(events: seq<ManifestEvent>, x: ManifestEvent, kept: set<ManifestEvent>)
    requires x in events && UsesEveryKey(kept, events)
    ensures UsesEveryKey((set e | e in kept && e.Key() != x.Key()) + {x}, events)
  {
    hide ManifestEvent.Key;
    var all := (set e | e in kept && e.Key() != x.Key()) + {x};
    assert x in all;
    forall f | f in events ensures f.Key() in KeySet(all) {
      var e := KeptForKey(events, kept, f);
      assert e in all || x.Key() == f.Key();
    }
  }

  lemma ChoiceWith(events: seq<ManifestEvent>, x: ManifestEvent, kept: set<ManifestEvent>) returns (chosen: seq<ManifestEvent>)
    requires x in events && UsesEveryKey(kept, events)
    ensures Choice(chosen, events) && x in chosen && forall c :: c in chosen ==> c == x || c in kept
  {
    hide Choice, ManifestEvent.Key, UsesEveryKey;
    KeptWith(events, x, kept);
    chosen := ChoiceAmong(events, (set e | e in kept && e.Key() != x.Key()) + {x});
    var c := ChosenForKey(chosen, events, x);
  }

  /** An event in another status can be chosen along with unsettling ones for all other keys. */
  lemma LatestBoundsEvent(events: seq<ManifestEvent>, t: string, status: ShipmentStatus, x: ManifestEvent)
    requires forall chosen :: Choice(chosen, events) ==> HasLatest(chosen, t, status)
    requires x in events && x.tracking == t
    ensures StatusOrder(x.status) <= StatusOrder(status)
    ensures x.status == status || SomeKeySettles(events, t, status, Some(x.at))
  {
    hide Choice, HasLatest, SomeKeySettles, UsesEveryKey;
    AllUseEveryKey(events);
    var chosen := ChoiceWith(events, x, Elements(events));
    var c := LatestEvent(chosen, t, status);
    if x.status != status && !SomeKeySettles(events, t, status, Some(x.at)) {
      var kept := UnsettlingEvents(events, t, status, Some(x.at));
      chosen := ChoiceWith(events, x, kept);
      c := LatestEvent(chosen, t, status);
    }
  }

  lemma AllUseEveryKey(events: seq<ManifestEvent>)
    ensures UsesEveryKey(Elements(events), events)
  {
    hide ManifestEvent.Key;
    forall e | e in events ensures e.Key() in KeySet(Elements(events)) {
      assert e in Elements(events);
    }
  }

  /** Every choice has such a report exactly when the events decide the status. */
  lemma ChoicesDecideIff(events: seq<ManifestEvent>, t: string, status: ShipmentStatus)
    ensures Decided(events, t, status) <==> forall chosen :: Choice(chosen, events) ==> HasLatest(chosen, t, status)
  {
    hide Choice, HasLatest, SomeKeySettles;
    if Decided(events, t, status) {
      forall chosen | Choice(chosen, events) ensures HasLatest(chosen, t, status) {
        DecidedMeansLatest(chosen, events, t, status);
      }
    }
    if forall chosen :: Choice(chosen, events) ==> HasLatest(chosen, t, status) {
      LatestNeedsSettledKey(events, t, status);
      forall x | x in events && x.tracking == t
        ensures StatusOrder(x.status) <= StatusOrder(status)
        ensures x.status == status || SomeKeySettles(events, t, status, Some(x.at))
      {
        LatestBoundsEvent(events, t, status, x);
      }
    }
  }

  /** For any events: every replay stores the status exactly when the events decide it. */
  lemma DecidedStateIsReachedIff(events: seq<ManifestEvent>, t: string, status: ShipmentStatus)
    ensures AlwaysStores(events, t, status) <==> Decided(events, t, status)
  {
    hide AlwaysStores, Decided, Choice, HasLatest;
    AnyStateIsReachedIff(events, t, status);
    ChoicesDecideIff(events, t, status);
  }

  // ----- what the validator leaves open -----

  /** The manifest keeps its promise: every replay stores exactly the declared states. */
  ghost predicate KeepsPromise(m: InputManifest) {
    forall arrivals: seq<EP.NormalizedEvent> :: Replays(arrivals, m.events) ==>
      var stored := EP.AfterArrivals(arrivals).shipments;
      stored.Keys == m.finals.Keys && forall t :: t in m.finals ==> stored[t].status == m.finals[t]
  }

  lemma OnlyReportedAreStored(arrivals: seq<EP.NormalizedEvent>, events: seq<ManifestEvent>, t: string)
    requires Replays(arrivals, events) && t in EP.AfterArrivals(arrivals).shipments
    ensures t in Trackings(events)
  {
    var chosen := ReplayMakesChoice(arrivals, events);
    var first := EP.FirstArrivals(arrivals);
    EP.FirstArrivalsDecide(arrivals);
    hide EP.AfterArrivals, EP.FirstArrivals;
    if forall a :: a in first ==> a.tracking != t {
      EP.UnreportedShipmentsStayAbsent(first, t);
    }
    var a :| a in first && a.tracking == t;
    assert a in arrivals;
    var e :| e in events && a == e.Normalized();
    assert e.tracking == t;
  }

  /** For every manifest the validator accepts, exactly when its declared states are reached. */
  lemma ValidManifestKeepsPromiseIff(m: InputManifest)
    requires Validate(m) == None
    ensures KeepsPromise(m) <==> forall t :: t in m.finals ==> Decided(m.events, t, m.finals[t])
  {
    hide Decided, Replays, EP.AfterArrivals, Validate;
    ValidTrackings(m);
    if KeepsPromise(m) {
      forall t | t in m.finals ensures Decided(m.events, t, m.finals[t]) {
        assert AlwaysStores(m.events, t, m.finals[t]);
        DecidedStateIsReachedIff(m.events, t, m.finals[t]);
      }
    }
    if forall t :: t in m.finals ==> Decided(m.events, t, m.finals[t]) {
      forall t | t in m.finals ensures AlwaysStores(m.events, t, m.finals[t]) {
        DecidedStateIsReachedIff(m.events, t, m.finals[t]);
      }
      forall arrivals | Replays(arrivals, m.events)
        ensures EP.AfterArrivals(arrivals).shipments.Keys == m.finals.Keys
        ensures forall t :: t in m.finals ==> EP.AfterArrivals(arrivals).shipments[t].status == m.finals[t]
      {
        var stored := EP.AfterArrivals(arrivals).shipments;
        forall t ensures t in stored <==> t in m.finals {
          if t in stored {
            OnlyReportedAreStored(arrivals, m.events, t);
          }
        }
      }
    }
  }

  lemma ValidTrackings(m: InputManifest)
    requires Validate(m) == None
    ensures Trackings(m.events) == m.finals.Keys
  {
  }

  function TwoEvents(secondKey: string): seq<ManifestEvent> {
    [ManifestEvent(1, "r", "p", "a", "t", Created, 0), ManifestEvent(2, "r", "p", secondKey, "t", Delivered, 1)]
  }

  /** Two reports under different keys, or conflicting ones under one key; either state may be declared. */
  function TwoEventManifest(secondKey: string, declared: ShipmentStatus): InputManifest {
    InputManifest("r", 2, if secondKey == "a" then 1 else 2, TwoEvents(secondKey), map["t" := declared])
  }

  lemma TwoEventsValidate(secondKey: string, declared: ShipmentStatus)
    requires declared == Created || declared == Delivered
    ensures Validate(TwoEventManifest(secondKey, declared)) == None
  {
    var events := TwoEvents(secondKey);
    var first, second := events[0], events[1];
    assert forall e :: e in events <==> e == first || e == second;
    assert Keys(events) == {first.Key(), second.Key()};
    assert first.Key() == ("p", "a") && second.Key() == ("p", secondKey);
    assert Trackings(events) == {"t"};
    assert first in events && second in events;
    assert (first.tracking, first.status) in States(events) && (second.tracking, second.status) in States(events);
  }

  lemma TwoEventsLatest(secondKey: string)
    ensures Latest(ReportsOf(TwoEvents(secondKey), "t"), Shipment(Delivered, 1))
  {
    var events := TwoEvents(secondKey);
    var second := events[1];
    assert forall e :: e in events <==> e == events[0] || e == second;
    assert second in events && Shipment(second.status, second.at) in ReportsOf(events, "t");
  }

  /** A manifest every validator clause accepts although its declared state is never reached. */
  lemma ValidatedButUnreachable(arrivals: seq<EP.NormalizedEvent>)
    requires Replays(arrivals, TwoEvents("b"))
    ensures Validate(TwoEventManifest("b", Created)) == None
    ensures "t" in EP.AfterArrivals(arrivals).shipments
    ensures EP.AfterArrivals(arrivals).shipments["t"].status == Delivered
  {
    TwoEventsValidate("b", Created);
    TwoEventsLatest("b");
    DistinctKeysAgree(TwoEvents("b"));
    assert HasLatest(TwoEvents("b"), "t", Delivered);
    hide HasLatest, Replays, EP.AfterArrivals, Validate;
    DeclaredStateIsReachedIff(TwoEvents("b"), "t", Delivered);
  }

  /**
   A manifest every clause accepts, whose declared state is the latest and furthest
   report, and which still does not always reach it: its two reports share a key.
   */
  lemma ConflictingKeysLoseTheLatest()
    ensures Validate(TwoEventManifest("a", Delivered)) == None
    ensures HasLatest(TwoEvents("a"), "t", Delivered)
    ensures !AlwaysStores(TwoEvents("a"), "t", Delivered)
  {
    TwoEventsValidate("a", Delivered);
    TwoEventsLatest("a");
    CreatedIsAChoice();
    AnyStateIsReachedIff(TwoEvents("a"), "t", Delivered);
  }

  lemma CreatedIsAChoice()
    ensures Choice([TwoEvents("a")[0]], TwoEvents("a"))
    ensures !HasLatest([TwoEvents("a")[0]], "t", Delivered)
  {
    var events := TwoEvents("a");
    var first := events[0];
    assert forall e :: e in events <==> e == first || e == events[1];
    assert forall e :: e in [first] <==> e == first;
    assert Keys(events) == {first.Key()} == Keys([first]);
    assert ReportsOf([first], "t") == {Shipment(Created, 0)};
  }
}
