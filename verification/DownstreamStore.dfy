/** The idempotent receipt store of the downstream simulator. */
module DownstreamStore {
  import opened Wrappers
  import opened EventPersistence

  /** One retained request and the idempotency key it carried, if any. */
  datatype Receipt = Receipt(key: Option<nat>, event: NormalizedEvent)

  datatype Store = Store(receipts: seq<Receipt>, keys: set<nat>)

  const EMPTY_STORE := Store([], {})

  /** A known key is a replay and changes nothing; anything else is appended. */
  function Recorded(s: Store, event: NormalizedEvent, key: Option<nat>): Store {
    if key.Some? && key.value in s.keys then s
    else Store(s.receipts + [Receipt(key, event)], if key.Some? then s.keys + {key.value} else s.keys)
  }

  /** The keys are those of the receipts, and no key has two receipts. */
  ghost predicate Idempotent(s: Store) {
    && (forall k: nat :: k in s.keys <==> exists i :: 0 <= i < |s.receipts| && s.receipts[i].key == Some(k))
    && (forall i, j :: 0 <= i < j < |s.receipts| && s.receipts[i].key.Some? ==> s.receipts[i].key != s.receipts[j].key)
  }

  lemma RecordKeepsIdempotent(s: Store, event: NormalizedEvent, key: Option<nat>)
    requires Idempotent(s)
    ensures Idempotent(Recorded(s, event, key))
    ensures s.keys <= Recorded(s, event, key).keys
    ensures key.Some? ==> key.value in Recorded(s, event, key).keys
    ensures s.receipts <= Recorded(s, event, key).receipts
  {
    var t := Recorded(s, event, key);
    if t != s {
      forall k: nat ensures k in t.keys <==> exists i :: 0 <= i < |t.receipts| && t.receipts[i].key == Some(k) {
        if k in s.keys {
          var i :| 0 <= i < |s.receipts| && s.receipts[i].key == Some(k);
          assert t.receipts[i].key == Some(k);
        }
        if key == Some(k) {
          assert t.receipts[|s.receipts|].key == Some(k);
        }
      }
    }
  }

  function AfterRequests(requests: seq<(Option<nat>, NormalizedEvent)>): Store {
    if requests == [] then EMPTY_STORE
    else
      var last := requests[|requests| - 1];
      Recorded(AfterRequests(requests[..|requests| - 1]), last.1, last.0)
  }

  lemma {:induction false} RequestsKeepIdempotent(requests: seq<(Option<nat>, NormalizedEvent)>)
    ensures Idempotent(AfterRequests(requests))
    ensures forall r :: r in AfterRequests(requests).receipts ==> (r.key, r.event) in requests
  {
    if requests != [] {
      var front, last := requests[..|requests| - 1], requests[|requests| - 1];
      RequestsKeepIdempotent(front);
      RecordKeepsIdempotent(AfterRequests(front), last.1, last.0);
    }
  }

  /** The first request with key k, if there is one. */
  predicate FirstWithKey(requests: seq<(Option<nat>, NormalizedEvent)>, k: nat, i: nat) {
    i < |requests| && requests[i].0 == Some(k) && forall j :: 0 <= j < i ==> requests[j].0 != Some(k)
  }

  /** Over any requests, a key that was ever used has exactly one receipt: the first request's. */
  lemma {:induction false} OneReceiptPerKey(requests: seq<(Option<nat>, NormalizedEvent)>, k: nat, i: nat)
    requires FirstWithKey(requests, k, i)
    ensures exists r :: && 0 <= r < |AfterRequests(requests).receipts|
                        && AfterRequests(requests).receipts[r] == Receipt(Some(k), requests[i].1)
                        && forall q :: 0 <= q < |AfterRequests(requests).receipts| && q != r
                             ==> AfterRequests(requests).receipts[q].key != Some(k)
  {
    RequestsKeepIdempotent(requests);
    var r := FirstIsRetained(requests, k, i);
    assert AfterRequests(requests).receipts[r] == Receipt(Some(k), requests[i].1);
  }

  lemma KeyWasRequested(requests: seq<(Option<nat>, NormalizedEvent)>, k: nat)
    ensures k in AfterRequests(requests).keys ==> exists j :: 0 <= j < |requests| && requests[j].0 == Some(k)
  {
    RequestsKeepIdempotent(requests);
    if k in AfterRequests(requests).keys {
      var q :| 0 <= q < |AfterRequests(requests).receipts| && AfterRequests(requests).receipts[q].key == Some(k);
      var event := AfterRequests(requests).receipts[q].event;
      var j :| 0 <= j < |requests| && requests[j] == (Some(k), event);
      assert requests[j].0 == Some(k);
    }
  }

  lemma {:induction false} FirstIsRetained(requests: seq<(Option<nat>, NormalizedEvent)>, k: nat, i: nat) returns (r: nat)
    requires FirstWithKey(requests, k, i)
    ensures r < |AfterRequests(requests).receipts|
    ensures AfterRequests(requests).receipts[r] == Receipt(Some(k), requests[i].1)
  {
    var front, last := requests[..|requests| - 1], requests[|requests| - 1];
    RequestsKeepIdempotent(front);
    if i < |front| {
      r := FirstIsRetained(front, k, i);
    } else {
      KeyWasRequested(front, k);
      r := |AfterRequests(front).receipts|;
    }
  }

  function UnkeyedReceipts(receipts: seq<Receipt>): seq<NormalizedEvent> {
    if receipts == [] then []
    else
      var last := receipts[|receipts| - 1];
      UnkeyedReceipts(receipts[..|receipts| - 1]) + if last.key.None? then [last.event] else []
  }

  function UnkeyedRequests(requests: seq<(Option<nat>, NormalizedEvent)>): seq<NormalizedEvent> {
    if requests == [] then []
    else
      var last := requests[|requests| - 1];
      UnkeyedRequests(requests[..|requests| - 1]) + if last.0.None? then [last.1] else []
  }

  /** A request without a key is never taken for a replay: all of them are retained, in order. */
  lemma {:induction false} UnkeyedAreRetained(requests: seq<(Option<nat>, NormalizedEvent)>)
    ensures UnkeyedReceipts(AfterRequests(requests).receipts) == UnkeyedRequests(requests)
  {
    if requests != [] {
      var front, last := requests[..|requests| - 1], requests[|requests| - 1];
      UnkeyedAreRetained(front);
      var before := AfterRequests(front).receipts;
      assert (before + [Receipt(last.0, last.1)])[..|before|] == before;
    }
  }

  /** The store as the object behind the simulator's endpoints. */
  class DownstreamEventStore {
    var events: seq<NormalizedEvent>
    var keys: set<nat>
    ghost var receipts: seq<Receipt>

    ghost predicate Valid()
      reads this
    {
      && |events| == |receipts|
      && (forall i :: 0 <= i < |events| ==> events[i] == receipts[i].event)
      && Idempotent(Contents())
    }

    ghost function Contents(): Store
      reads this
    {
      Store(receipts, keys)
    }

    constructor ()
      ensures Valid() && Contents() == EMPTY_STORE
    {
      events, keys, receipts := [], {}, [];
    }

    method Record(event: NormalizedEvent, key: Option<nat>) returns (receivedCount: nat, duplicate: bool)
      requires Valid()
      modifies this
      ensures Valid() && Contents() == Recorded(old(Contents()), event, key)
      ensures duplicate <==> key.Some? && key.value in old(keys)
      ensures receivedCount == |receipts|
    {
      RecordKeepsIdempotent(Contents(), event, key);
      if key.Some? && key.value in keys {
        return |events|, true;
      }
      events := events + [event];
      receipts := receipts + [Receipt(key, event)];
      if key.Some? {
        keys := keys + {key.value};
      }
      return |events|, false;
    }

    method All() returns (snapshot: seq<NormalizedEvent>)
      requires Valid()
      ensures |snapshot| == |receipts| && forall i :: 0 <= i < |snapshot| ==> snapshot[i] == receipts[i].event
    {
      snapshot := events;
    }

    method Clear() returns (cleared: nat)
      requires Valid()
      modifies this
      ensures Valid() && Contents() == EMPTY_STORE && cleared == |old(receipts)|
    {
      cleared := |events|;
      events, keys, receipts := [], {}, [];
    }
  }
}
