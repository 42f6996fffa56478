/** The shipment transition rule, and when it makes arrival order irrelevant. */
module ShipmentDomain {
  import opened Wrappers

  datatype ShipmentStatus = Created | PickedUp | InTransit | OutForDelivery | Delivered

  datatype RejectionReason = StaleEvent | NonForwardTransition | TerminalState

  datatype Decision = Decision(applied: bool, rejection: Option<RejectionReason>)

  /** The status a shipment has and when that status occurred; also what an event reports. */
  datatype Shipment = Shipment(status: ShipmentStatus, at: int)

  function StatusOrder(s: ShipmentStatus): (n: nat)
    ensures n < 5
  {
    match s
    case Created => 0
    case PickedUp => 1
    case InTransit => 2
    case OutForDelivery => 3
    case Delivered => 4
  }

  function EvaluateTransition(current: Shipment, incoming: Shipment): Decision {
    if incoming.at < current.at then Decision(false, Some(StaleEvent))
    else if current.status == Delivered then Decision(false, Some(TerminalState))
    else if StatusOrder(incoming.status) <= StatusOrder(current.status) then Decision(false, Some(NonForwardTransition))
    else Decision(true, None)
  }

  /** The first event creates the shipment; later ones go through the transition rule. */
  function Advance(current: Option<Shipment>, incoming: Shipment): Shipment {
    match current
    case None => incoming
    case Some(c) => if EvaluateTransition(c, incoming).applied then incoming else c
  }

  /** The shipment after a whole sequence of arrivals. */
  function Final(arrivals: seq<Shipment>): (final: Option<Shipment>)
    ensures final.Some? <==> arrivals != []
  {
    if arrivals == [] then None
    else Some(Advance(Final(arrivals[..|arrivals| - 1]), arrivals[|arrivals| - 1]))
  }

  /** The state never leaves the arrivals, never moves back, and keeps its time as long as its status. */
  lemma {:induction false} FinalDominatesPrefix(arrivals: seq<Shipment>, n: nat)
    requires 0 < n <= |arrivals|
    ensures Final(arrivals).value in arrivals
    ensures Final(arrivals[..n]).value.at <= Final(arrivals).value.at
    ensures StatusOrder(Final(arrivals[..n]).value.status) <= StatusOrder(Final(arrivals).value.status)
    ensures Final(arrivals[..n]).value.status == Final(arrivals).value.status ==> Final(arrivals[..n]) == Final(arrivals)
  {
    var front := arrivals[..|arrivals| - 1];
    if n < |arrivals| {
      assert front[..n] == arrivals[..n];
      FinalDominatesPrefix(front, n);
    } else {
      assert arrivals[..n] == arrivals;
      if front != [] {
        FinalDominatesPrefix(front, |front|);
      }
    }
  }

  /**
   The rule on its fields: an incoming report is applied exactly when it is not older
   and strictly further along, and each rejection has exactly its own case.
   */
  lemma TransitionIff(current: Shipment, incoming: Shipment)
    ensures var d := EvaluateTransition(current, incoming);
            && (d.applied <==> current.at <= incoming.at && StatusOrder(current.status) < StatusOrder(incoming.status))
            && (d.applied <==> d.rejection == None)
            && (d.rejection == Some(StaleEvent) <==> incoming.at < current.at)
            && (d.rejection == Some(TerminalState) <==> current.at <= incoming.at && current.status == Delivered)
            && (d.rejection == Some(NonForwardTransition) <==>
                  && current.at <= incoming.at && current.status != Delivered
                  && StatusOrder(incoming.status) <= StatusOrder(current.status))
  {
  }

  /** The statuses in the order a shipment goes through them. */
  lemma StatusesAreOrdered()
    ensures StatusOrder(Created) < StatusOrder(PickedUp) < StatusOrder(InTransit)
    ensures StatusOrder(InTransit) < StatusOrder(OutForDelivery) < StatusOrder(Delivered)
  {
  }

  /**
   Over any arrivals the stored shipment changes at step n exactly when arrival n is
   not older than it and strictly further along, and then becomes that arrival. A
   report of the status already held changes neither the status nor its time.
   */
  lemma ChangesIff(arrivals: seq<Shipment>, n: nat)
    requires 0 < n < |arrivals|
    ensures var before, after := Final(arrivals[..n]).value, Final(arrivals[..n + 1]).value;
            && (after != before <==>
                  before.at <= arrivals[n].at && StatusOrder(before.status) < StatusOrder(arrivals[n].status))
            && (after != before ==> after == arrivals[n])
            && (arrivals[n].status == before.status ==> after == before)
  {
    assert arrivals[..n + 1][..n] == arrivals[..n];
    TransitionIff(Final(arrivals[..n]).value, arrivals[n]);
  }

  /** How often the shipment changed after its creation. */
  function Changes(arrivals: seq<Shipment>): nat {
    if |arrivals| <= 1 then 0
    else
      var front := arrivals[..|arrivals| - 1];
      Changes(front) + if Final(arrivals) != Final(front) then 1 else 0
  }

  /** However many reports arrive, every change moves the shipment on, so there are at most four. */
  lemma {:induction false} ChangesAreBounded(arrivals: seq<Shipment>)
    requires arrivals != []
    ensures Changes(arrivals) <= StatusOrder(Final(arrivals).value.status) - StatusOrder(arrivals[0].status) <= 4
  {
    var n := |arrivals| - 1;
    if n > 0 {
      ChangesAreBounded(arrivals[..n]);
      ChangesIff(arrivals, n);
      assert arrivals[..n + 1] == arrivals;
    } else {
      assert arrivals[..0] == [];
    }
  }

  /** m is at once the latest and the most advanced of the reported states. */
  ghost predicate Latest(s: set<Shipment>, m: Shipment) {
    && m in s
    && forall x :: x in s ==> x.at <= m.at && StatusOrder(x.status) <= StatusOrder(m.status)
  }

  /** Once such an m has arrived, its status stays, whatever came before or comes after. */
  lemma {:induction false} LatestWins(arrivals: seq<Shipment>, s: set<Shipment>, m: Shipment)
    requires Latest(s, m) && arrivals != [] && Elements(arrivals) <= s
    ensures Final(arrivals).value in s
    ensures m in arrivals ==> Final(arrivals).value.status == m.status
  {
    var front, last := arrivals[..|arrivals| - 1], arrivals[|arrivals| - 1];
    assert last in Elements(arrivals);
    if front != [] {
      assert Elements(front) <= Elements(arrivals);
      LatestWins(front, s, m);
      SameOrderSameStatus(Final(arrivals).value.status, m.status);
      SameOrderSameStatus(Final(front).value.status, m.status);
    }
  }

  lemma SameOrderSameStatus(a: ShipmentStatus, b: ShipmentStatus)
    ensures StatusOrder(a) == StatusOrder(b) ==> a == b
  {
  }

  lemma {:induction false} Enumerate<T>(s: set<T>) returns (order: seq<T>)
    ensures Elements(order) == s
  {
    if s == {} {
      order := [];
    } else {
      var x :| x in s;
      var rest := Enumerate(s - {x});
      order := [x] + rest;
      assert forall y :: y in order <==> y == x || y in rest;
      assert forall y :: y in rest <==> y in Elements(rest);
    }
  }

  /** The latest element with a given status, if there is one. */
  lemma {:induction false} LatestWithStatus(s: set<Shipment>, status: ShipmentStatus) returns (m: Shipment)
    requires exists x :: x in s && x.status == status
    ensures m in s && m.status == status
    ensures forall x :: x in s && x.status == status ==> x.at <= m.at
    decreases s
  {
    m :| m in s && m.status == status;
    if x :| x in s && x.status == status && x.at > m.at {
      m := LatestWithStatus(s - {m}, status);
    }
  }

  /** Every order and every repetition of the reports in s ends in this status. */
  ghost predicate AlwaysEndsIn(s: set<Shipment>, status: ShipmentStatus) {
    forall arrivals: seq<Shipment> :: Elements(arrivals) == s ==>
      arrivals != [] && Final(arrivals).value.status == status
  }

  lemma StartingWith(s: set<Shipment>, status: ShipmentStatus, x: Shipment) returns (final: Shipment)
    requires AlwaysEndsIn(s, status) && x in s
    ensures final in s && final.status == status
    ensures x.at <= final.at && StatusOrder(x.status) <= StatusOrder(status)
  {
    var order := Enumerate(s);
    var arrivals := [x] + order;
    assert forall y :: y in arrivals <==> y == x || y in Elements(order);
    assert Elements(arrivals) == s;
    final := Final(arrivals).value;
    FinalDominatesPrefix(arrivals, 1);
    assert arrivals[..1] == [x];
    assert final in Elements(arrivals);
  }

  /**
   Confluence, exactly: a set of reports ends in one status under every arrival
   order and any repetition if and only if one of them, with that status, is both
   the latest in time and the furthest along.
   */
  lemma ConfluenceIff(s: set<Shipment>, status: ShipmentStatus)
    requires s != {}
    ensures AlwaysEndsIn(s, status) <==> exists m :: Latest(s, m) && m.status == status
  {
    if AlwaysEndsIn(s, status) {
      var any :| any in s;
      var reached := StartingWith(s, status, any);
      var m := LatestWithStatus(s, status);
      forall x | x in s ensures x.at <= m.at && StatusOrder(x.status) <= StatusOrder(m.status) {
        var final := StartingWith(s, status, x);
      }
      assert Latest(s, m);
    }
    if m :| Latest(s, m) && m.status == status {
      forall arrivals: seq<Shipment> | Elements(arrivals) == s
        ensures arrivals != [] && Final(arrivals).value.status == status
      {
        assert m in Elements(arrivals);
        LatestWins(arrivals, s, m);
      }
    }
  }
}
