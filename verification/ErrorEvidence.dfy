/**
 Bounded evidence for a failure: a depth-first walk over an error graph that may
 be cyclic through causes, workflow errors and cleanup errors.
 */
module ErrorEvidence {
  import opened Wrappers

  const LIMIT := 20
  const MESSAGE_LIMIT := 2000

  /** One exception object, as the walk can see it. */
  datatype Error = Error(
    name: string,
    fromController: bool,      // its module starts with "trackrelay.aws_"
    message: string,
    workflowError: Option<nat>,
    cause: Option<nat>,
    cleanupErrors: seq<nat>)

  /** What an error contributes by itself: foreign messages are withheld. */
  datatype Label = Label(name: string, message: Option<string>)

  datatype Nested = Absent | Recorded(record: Option<Record>)

  datatype Record = Record(summary: Label, cause: Nested, cleanup: seq<Option<Record>>)

  function Describe(error: Error): Label {
    Label(error.name,
          if error.fromController
          then Some(if |error.message| <= MESSAGE_LIMIT then error.message else error.message[..MESSAGE_LIMIT])
          else None)
  }

  function NestedError(error: Error): Option<nat> {
    if error.workflowError.Some? then error.workflowError else error.cause
  }

  /** The links the walk follows: the workflow error, the cause where there is no workflow error, and the cleanup errors. */
  predicate Successor(graph: nat -> Error, from: nat, to: nat) {
    || graph(from).workflowError == Some(to)
    || (graph(from).workflowError == None && graph(from).cause == Some(to))
    || to in graph(from).cleanupErrors
  }

  function Rank(seen: set<nat>): nat {
    if |seen| >= LIMIT then 0 else LIMIT - |seen|
  }

  lemma UnionGrows(a: set<nat>, b: set<nat>)
    ensures |a| <= |a + b|
    ensures Rank(a + b) <= Rank(a)
  {
    assert a + b == a + (b - a);
  }

  /** The record of an error, and the errors it visits, in order. */
  function Trace(graph: nat -> Error, error: Option<nat>, seen: set<nat>): (r: (Option<Record>, seq<nat>))
    ensures r.1 != [] ==> |seen| < LIMIT
    decreases Rank(seen), 0, 0
  {
    if error.None? || error.value in seen || |seen| >= LIMIT then (None, [])
    else
      var id := error.value;
      var node := graph(id);
      var inner := seen + {id};
      var nested := if NestedError(node).None? then (None, []) else Trace(graph, NestedError(node), inner);
      UnionGrows(inner, Elements(nested.1));
      var rest := TraceAll(graph, node.cleanupErrors, inner + Elements(nested.1));
      (Some(Record(Describe(node), if NestedError(node).None? then Absent else Recorded(nested.0), rest.0)),
       [id] + nested.1 + rest.1)
  }

  function TraceAll(graph: nat -> Error, errors: seq<nat>, seen: set<nat>): (r: (seq<Option<Record>>, seq<nat>))
    ensures |r.0| == |errors|
    decreases Rank(seen), 1, |errors|
  {
    if errors == [] then ([], [])
    else
      var first := Trace(graph, Some(errors[0]), seen);
      UnionGrows(seen, Elements(first.1));
      var rest := TraceAll(graph, errors[1..], seen + Elements(first.1));
      ([first.0] + rest.0, first.1 + rest.1)
  }

  function NestedTrace(graph: nat -> Error, id: nat, seen: set<nat>): (Option<Record>, seq<nat>) {
    if NestedError(graph(id)).None? then (None, []) else Trace(graph, NestedError(graph(id)), seen + {id})
  }

  /** What the errors nested in a visited error have been offered before its cleanup errors are. */
  function Inner(graph: nat -> Error, id: nat, seen: set<nat>): set<nat> {
    seen + {id} + Elements(NestedTrace(graph, id, seen).1)
  }

  function RecordOf(graph: nat -> Error, id: nat, nested: Option<Record>, cleanup: seq<Option<Record>>): Record {
    Record(Describe(graph(id)), if NestedError(graph(id)).None? then Absent else Recorded(nested), cleanup)
  }

  lemma TraceUnfolds(graph: nat -> Error, id: nat, seen: set<nat>)
    requires id !in seen && |seen| < LIMIT
    ensures var nested := NestedTrace(graph, id, seen);
            var rest := TraceAll(graph, graph(id).cleanupErrors, Inner(graph, id, seen));
            Trace(graph, Some(id), seen) == (Some(RecordOf(graph, id, nested.0, rest.0)), [id] + nested.1 + rest.1)
    ensures |seen + {id}| == |seen| + 1 && Rank(seen + {id}) < Rank(seen)
    ensures |seen + {id}| <= |Inner(graph, id, seen)| && Rank(Inner(graph, id, seen)) < Rank(seen)
  {
    UnionGrows(seen + {id}, Elements(NestedTrace(graph, id, seen).1));
  }

  lemma TraceAllUnfolds(graph: nat -> Error, errors: seq<nat>, seen: set<nat>)
    requires errors != []
    ensures var first := Trace(graph, Some(errors[0]), seen);
            var rest := TraceAll(graph, errors[1..], seen + Elements(first.1));
            && TraceAll(graph, errors, seen) == ([first.0] + rest.0, first.1 + rest.1)
            && |seen| <= |seen + Elements(first.1)| && Rank(seen + Elements(first.1)) <= Rank(seen)
  {
    UnionGrows(seen, Elements(Trace(graph, Some(errors[0]), seen).1));
  }

  // ----- what one record shows -----

  /** The record of a newly met error shows its own name, and its message exactly when a controller raised it. */
  lemma RecordShowsError(graph: nat -> Error, id: nat, seen: set<nat>)
    requires id !in seen && |seen| < LIMIT
    ensures var (record, order) := Trace(graph, Some(id), seen);
            && record.Some? && |order| > 0 && order[0] == id
            && record.value.summary.name == graph(id).name
            && ShowsMessage(record.value.summary.message, graph(id))
            && |record.value.cleanup| == |graph(id).cleanupErrors|
            && (record.value.cause == Absent <==> graph(id).workflowError == None && graph(id).cause == None)
  {
    TraceUnfolds(graph, id, seen);
    hide Trace, TraceAll, NestedTrace;
  }

  /** The records of several errors keep their places. */
  lemma {:induction false} PlacesAreKept(graph: nat -> Error, errors: seq<nat>, seen: set<nat>, i: nat)
    requires i < |errors|
    ensures TraceAll(graph, errors, seen).0[i].Some? ==>
              TraceAll(graph, errors, seen).0[i].value.summary.name == graph(errors[i]).name
    decreases i
  {
    hide Trace, TraceAll;
    TraceAllUnfolds(graph, errors, seen);
    var first := Trace(graph, Some(errors[0]), seen);
    if i > 0 {
      PlacesAreKept(graph, errors[1..], seen + Elements(first.1), i - 1);
    } else if errors[0] in seen || |seen| >= LIMIT {
      NothingToTrace(graph, Some(errors[0]), seen);
    } else {
      RecordShowsError(graph, errors[0], seen);
    }
  }

  /** A record's cleanup list has one entry per cleanup error, at its place. */
  lemma CleanupIsShownInOrder(graph: nat -> Error, id: nat, seen: set<nat>, i: nat)
    requires id !in seen && |seen| < LIMIT && i < |graph(id).cleanupErrors|
    ensures var record := Trace(graph, Some(id), seen).0;
            && record.Some? && |record.value.cleanup| == |graph(id).cleanupErrors|
            && (record.value.cleanup[i].Some? ==>
                  record.value.cleanup[i].value.summary.name == graph(graph(id).cleanupErrors[i]).name)
  {
    TraceUnfolds(graph, id, seen);
    PlacesAreKept(graph, graph(id).cleanupErrors, Inner(graph, id, seen), i);
    hide Trace, TraceAll, Inner;
  }

  /** A controller's message, cut after 2000 characters; nothing of any other message. */
  predicate ShowsMessage(shown: Option<string>, error: Error) {
    && (shown.Some? <==> error.fromController)
    && (shown.Some? ==> shown.value <= error.message)
    && (shown.Some? ==> |shown.value| == if |error.message| <= 2000 then |error.message| else 2000)
  }

  /** The error is followed as the cause of another: its own record, made next unless it was met or there is no room. */
  ghost predicate FollowedNext(graph: nat -> Error, id: nat, seen: set<nat>, next: nat) {
    var (record, order) := Trace(graph, Some(id), seen);
    && record.Some? && record.value.cause.Recorded?
    && record.value.cause.record == Trace(graph, Some(next), seen + {id}).0
    && (next !in seen + {id} && |seen| + 1 < LIMIT ==>
          && |order| > 1 && order[1] == next && record.value.cause.record.Some?
          && record.value.cause.record.value.summary.name == graph(next).name)
  }

  lemma NestedIsFollowed(graph: nat -> Error, id: nat, seen: set<nat>, next: nat)
    requires id !in seen && |seen| < LIMIT && NestedError(graph(id)) == Some(next)
    ensures FollowedNext(graph, id, seen, next)
  {
    TraceUnfolds(graph, id, seen);
    if next !in seen + {id} && |seen| + 1 < LIMIT {
      RecordShowsError(graph, next, seen + {id});
    }
    hide Trace, TraceAll;
  }

  /** A workflow error is the record's cause whatever the exception was raised from. */
  lemma WorkflowErrorIsFollowed(graph: nat -> Error, id: nat, seen: set<nat>, next: nat)
    requires id !in seen && |seen| < LIMIT && graph(id).workflowError == Some(next)
    ensures FollowedNext(graph, id, seen, next)
  {
    NestedIsFollowed(graph, id, seen, next);
  }

  /** Without a workflow error, the cause is. */
  lemma CauseIsFollowed(graph: nat -> Error, id: nat, seen: set<nat>, next: nat)
    requires id !in seen && |seen| < LIMIT && graph(id).workflowError == None && graph(id).cause == Some(next)
    ensures FollowedNext(graph, id, seen, next)
  {
    NestedIsFollowed(graph, id, seen, next);
  }

  /** A newly met error leads first to its workflow error, or without one to its cause. */
  ghost predicate LeadsOn(graph: nat -> Error, error: Option<nat>, seen: set<nat>) {
    error.Some? && error.value !in seen && |seen| < 20 ==>
      var e := graph(error.value);
      && (e.workflowError.Some? ==> FollowedNext(graph, error.value, seen, e.workflowError.value))
      && (e.workflowError.None? && e.cause.Some? ==> FollowedNext(graph, error.value, seen, e.cause.value))
  }

  lemma TraceLeadsOn(graph: nat -> Error, error: Option<nat>, seen: set<nat>)
    ensures LeadsOn(graph, error, seen)
  {
    hide FollowedNext;
    if error.Some? && error.value !in seen && |seen| < LIMIT {
      var e := graph(error.value);
      if e.workflowError.Some? {
        WorkflowErrorIsFollowed(graph, error.value, seen, e.workflowError.value);
      } else if e.cause.Some? {
        CauseIsFollowed(graph, error.value, seen, e.cause.value);
      }
    }
  }

  // ----- the walk visits each error once, at most twenty, in order -----

  /** New errors only, each once, and never past the limit. */
  predicate Bounded(order: seq<nat>, seen: set<nat>) {
    && Distinct(order)
    && Elements(order) !! seen
    && (order != [] ==> |seen| + |order| <= LIMIT)
  }

  lemma {:induction false} DistinctCount(order: seq<nat>)
    requires Distinct(order)
    ensures |Elements(order)| == |order|
  {
    if order == [] {
      assert Elements(order) == {};
    } else {
      DistinctCount(order[1..]);
      assert Elements(order) == {order[0]} + Elements(order[1..]);
    }
  }

  lemma ElementsConcat(a: seq<nat>, b: seq<nat>)
    ensures Elements(a + b) == Elements(a) + Elements(b)
  {
  }

  lemma DistinctConcat(a: seq<nat>, b: seq<nat>)
    requires Distinct(a) && Distinct(b) && Elements(a) !! Elements(b)
    ensures Distinct(a + b)
  {
    forall i, j | 0 <= i < j < |a + b| ensures (a + b)[i] != (a + b)[j] {
      if i < |a| <= j {
        assert a[i] in Elements(a) && b[j - |a|] in Elements(b);
      }
    }
  }

  lemma DisjointUnion(a: set<nat>, b: set<nat>)
    requires a !! b
    ensures |a + b| == |a| + |b|
  {
  }

  lemma BoundedConcat(a: seq<nat>, b: seq<nat>, seen: set<nat>)
    requires Bounded(a, seen) && Bounded(b, seen + Elements(a))
    ensures Bounded(a + b, seen)
    ensures seen + Elements(a) + Elements(b) == seen + Elements(a + b)
    ensures |seen + Elements(a)| == |seen| + |a|
  {
    hide Elements, Distinct;
    DistinctCount(a);
    ElementsConcat(a, b);
    DistinctConcat(a, b);
    DisjointUnion(seen, Elements(a));
  }

  lemma {:induction false} TraceIsBounded(graph: nat -> Error, error: Option<nat>, seen: set<nat>)
    ensures Bounded(Trace(graph, error, seen).1, seen)
    decreases Rank(seen), 0, 1
  {
    if error.Some? && error.value !in seen && |seen| < LIMIT {
      hide Trace, TraceAll, Rank, Elements;
      var id := error.value;
      TraceUnfolds(graph, id, seen);
      OneIsBounded(id, seen);
      var nested := NestedTrace(graph, id, seen);
      NestedIsBounded(graph, id, seen);
      BoundedConcat([id], nested.1, seen);
      TraceAllIsBounded(graph, graph(id).cleanupErrors, Inner(graph, id, seen));
      BoundedConcat([id] + nested.1, TraceAll(graph, graph(id).cleanupErrors, Inner(graph, id, seen)).1, seen);
    } else {
      OneIsBounded(0, seen);
    }
  }

  lemma OneIsBounded(id: nat, seen: set<nat>)
    ensures Elements([id]) == {id} && Bounded([], seen)
    ensures id !in seen && |seen| < LIMIT ==> Bounded([id], seen)
  {
  }

  lemma {:induction false} NestedIsBounded(graph: nat -> Error, id: nat, seen: set<nat>)
    requires id !in seen && |seen| < LIMIT
    ensures Bounded(NestedTrace(graph, id, seen).1, seen + {id})
    decreases Rank(seen), 0, 0
  {
    TraceUnfolds(graph, id, seen);
    if NestedError(graph(id)).Some? {
      TraceIsBounded(graph, NestedError(graph(id)), seen + {id});
    }
  }

  lemma {:induction false} TraceAllIsBounded(graph: nat -> Error, errors: seq<nat>, seen: set<nat>)
    ensures Bounded(TraceAll(graph, errors, seen).1, seen)
    decreases Rank(seen), 1, |errors|
  {
    if errors != [] {
      hide Trace, TraceAll, Rank, Elements;
      TraceAllUnfolds(graph, errors, seen);
      var first := Trace(graph, Some(errors[0]), seen);
      TraceIsBounded(graph, Some(errors[0]), seen);
      TraceAllIsBounded(graph, errors[1..], seen + Elements(first.1));
      BoundedConcat(first.1, TraceAll(graph, errors[1..], seen + Elements(first.1)).1, seen);
    } else {
      OneIsBounded(0, seen);
    }
  }

  // ----- the records are exactly the visited errors, in order -----

  /** The summaries of a record and everything nested in it, in the order they were made. */
  function Summaries(record: Option<Record>): seq<Label>
    decreases record, 0
  {
    if record.None? then []
    else
      [record.value.summary]
      + (if record.value.cause.Recorded? then Summaries(record.value.cause.record) else [])
      + AllSummaries(record.value.cleanup)
  }

  function AllSummaries(records: seq<Option<Record>>): seq<Label>
    decreases records, |records|
  {
    if records == [] then [] else Summaries(records[0]) + AllSummaries(records[1..])
  }

  function Describes(graph: nat -> Error, order: seq<nat>): seq<Label> {
    seq(|order|, i requires 0 <= i < |order| => Describe(graph(order[i])))
  }

  lemma DescribesConcat(graph: nat -> Error, a: seq<nat>, b: seq<nat>)
    ensures Describes(graph, a + b) == Describes(graph, a) + Describes(graph, b)
  {
  }

  lemma {:induction false} TraceSummaries(graph: nat -> Error, error: Option<nat>, seen: set<nat>)
    ensures Summaries(Trace(graph, error, seen).0) == Describes(graph, Trace(graph, error, seen).1)
    decreases Rank(seen), 0, 0
  {
    if error.Some? && error.value !in seen && |seen| < LIMIT {
      hide Describe, Trace, TraceAll, Rank, Inner, Elements, Summaries, AllSummaries, Describes;
      var id := error.value;
      TraceUnfolds(graph, id, seen);
      var nested := NestedTrace(graph, id, seen);
      if NestedError(graph(id)).Some? {
        TraceSummaries(graph, NestedError(graph(id)), seen + {id});
      }
      var rest := TraceAll(graph, graph(id).cleanupErrors, Inner(graph, id, seen));
      TraceAllSummaries(graph, graph(id).cleanupErrors, Inner(graph, id, seen));
      RecordSummaries(graph, id, nested, rest);
    } else {
      assert Trace(graph, error, seen) == (None, []);
    }
  }

  lemma RecordSummaries(graph: nat -> Error, id: nat, nested: (Option<Record>, seq<nat>),
                        rest: (seq<Option<Record>>, seq<nat>))
    requires if NestedError(graph(id)).None? then nested.1 == [] else Summaries(nested.0) == Describes(graph, nested.1)
    requires AllSummaries(rest.0) == Describes(graph, rest.1)
    ensures Summaries(Some(RecordOf(graph, id, nested.0, rest.0))) == Describes(graph, [id] + nested.1 + rest.1)
  {
    DescribesConcat(graph, [id], nested.1);
    DescribesConcat(graph, [id] + nested.1, rest.1);
  }

  lemma {:induction false} TraceAllSummaries(graph: nat -> Error, errors: seq<nat>, seen: set<nat>)
    ensures AllSummaries(TraceAll(graph, errors, seen).0) == Describes(graph, TraceAll(graph, errors, seen).1)
    decreases Rank(seen), 1, |errors|
  {
    if errors != [] {
      hide Describe, Trace, TraceAll, Rank;
      TraceAllUnfolds(graph, errors, seen);
      var first := Trace(graph, Some(errors[0]), seen);
      TraceSummaries(graph, Some(errors[0]), seen);
      var rest := TraceAll(graph, errors[1..], seen + Elements(first.1));
      TraceAllSummaries(graph, errors[1..], seen + Elements(first.1));
      DescribesConcat(graph, first.1, rest.1);
      assert ([first.0] + rest.0)[1..] == rest.0;
    }
  }

  // ----- below the limit, exactly what is reachable is recorded -----

  ghost predicate ClosedUnder(graph: nat -> Error, set0: iset<nat>) {
    forall from, to :: from in set0 && Successor(graph, from, to) ==> to in set0
  }

  /** Unless the limit was met, the successors of every visited error have been seen too. */
  ghost predicate Covered(graph: nat -> Error, order: seq<nat>, seen: set<nat>) {
    |seen + Elements(order)| < LIMIT ==>
      forall from, to :: from in order && Successor(graph, from, to) ==> to in seen + Elements(order)
  }

  lemma CoveredConcat(graph: nat -> Error, a: seq<nat>, b: seq<nat>, seen: set<nat>)
    requires Covered(graph, a, seen) && Covered(graph, b, seen + Elements(a))
    ensures Covered(graph, a + b, seen)
  {
    ElementsConcat(a, b);
    assert seen + Elements(a + b) == seen + Elements(a) + Elements(b);
    UnionGrows(seen + Elements(a), Elements(b));
  }

  lemma HeadCovers(graph: nat -> Error, id: nat, others: seq<nat>, seen: set<nat>)
    requires Covered(graph, others, seen + {id})
    requires |seen + {id} + Elements(others)| < LIMIT ==>
               forall to :: Successor(graph, id, to) ==> to in seen + {id} + Elements(others)
    ensures Covered(graph, [id] + others, seen)
    ensures id in seen + Elements([id] + others)
  {
    ElementsConcat([id], others);
    assert seen + Elements([id] + others) == seen + {id} + Elements(others);
  }

  /** The visited error, what its nested error visits, and what its cleanup errors visit. */
  lemma VisitCovers(graph: nat -> Error, id: nat, nested: seq<nat>, rest: seq<nat>, seen: set<nat>)
    requires Covered(graph, nested, seen + {id}) && Covered(graph, rest, seen + {id} + Elements(nested))
    requires |seen + {id} + Elements(nested)| < LIMIT ==>
               NestedError(graph(id)).None? || NestedError(graph(id)).value in seen + {id} + Elements(nested)
    requires |seen + {id} + Elements(nested) + Elements(rest)| < LIMIT ==>
               forall to :: to in graph(id).cleanupErrors ==> to in seen + {id} + Elements(nested) + Elements(rest)
    ensures Covered(graph, [id] + nested + rest, seen)
    ensures id in seen + Elements([id] + nested + rest)
  {
    hide Covered, Elements;
    UnionGrows(seen + {id} + Elements(nested), Elements(rest));
    ElementsConcat(nested, rest);
    CoveredConcat(graph, nested, rest, seen + {id});
    assert seen + {id} + Elements(nested + rest) == seen + {id} + Elements(nested) + Elements(rest);
    HeadCovers(graph, id, nested + rest, seen);
    assert [id] + nested + rest == [id] + (nested + rest);
  }

  lemma {:induction false} TraceCovers(graph: nat -> Error, error: Option<nat>, seen: set<nat>)
    ensures var order := Trace(graph, error, seen).1;
            && Covered(graph, order, seen)
            && (error.Some? && |seen + Elements(order)| < LIMIT ==> error.value in seen + Elements(order))
    decreases Rank(seen), 0, 1
  {
    if error.Some? && error.value !in seen && |seen| < LIMIT {
      hide Trace, TraceAll, Rank, Covered, Elements, NestedTrace;
      var id := error.value;
      TraceUnfolds(graph, id, seen);
      var nested := NestedTrace(graph, id, seen);
      NestedCovers(graph, id, seen);
      var rest := TraceAll(graph, graph(id).cleanupErrors, Inner(graph, id, seen));
      TraceAllCovers(graph, graph(id).cleanupErrors, Inner(graph, id, seen));
      VisitCovers(graph, id, nested.1, rest.1, seen);
    } else {
      assert seen + Elements<nat>([]) == seen;
    }
  }

  lemma {:induction false} NestedCovers(graph: nat -> Error, id: nat, seen: set<nat>)
    requires id !in seen && |seen| < LIMIT
    ensures Covered(graph, NestedTrace(graph, id, seen).1, seen + {id})
    ensures |Inner(graph, id, seen)| < LIMIT ==>
              NestedError(graph(id)).None? || NestedError(graph(id)).value in Inner(graph, id, seen)
    decreases Rank(seen), 0, 0
  {
    TraceUnfolds(graph, id, seen);
    if NestedError(graph(id)).Some? {
      TraceCovers(graph, NestedError(graph(id)), seen + {id});
    }
  }

  lemma {:induction false} TraceAllCovers(graph: nat -> Error, errors: seq<nat>, seen: set<nat>)
    ensures var order := TraceAll(graph, errors, seen).1;
            && Covered(graph, order, seen)
            && (|seen + Elements(order)| < LIMIT ==> forall id :: id in errors ==> id in seen + Elements(order))
    decreases Rank(seen), 1, |errors|
  {
    if errors != [] {
      TraceAllUnfolds(graph, errors, seen);
      hide Trace, TraceAll, Covered, Rank, Elements;
      var first := Trace(graph, Some(errors[0]), seen);
      TraceCovers(graph, Some(errors[0]), seen);
      var after := seen + Elements(first.1);
      UnionGrows(seen, Elements(first.1));
      var rest := TraceAll(graph, errors[1..], after);
      TraceAllCovers(graph, errors[1..], after);
      UnionGrows(after, Elements(rest.1));
      ElementsConcat(first.1, rest.1);
      assert seen + Elements(first.1 + rest.1) == after + Elements(rest.1);
      CoveredConcat(graph, first.1, rest.1, seen);
      assert forall id :: id in errors ==> id == errors[0] || id in errors[1..];
    }
  }

  /** The walk never leaves a set that is closed under the links it follows. */
  lemma {:induction false} TraceStays(graph: nat -> Error, error: Option<nat>, seen: set<nat>, world: iset<nat>)
    requires ClosedUnder(graph, world) && (error.Some? ==> error.value in world)
    ensures forall id :: id in Trace(graph, error, seen).1 ==> id in world
    decreases Rank(seen), 0, 0
  {
    if error.Some? && error.value !in seen && |seen| < LIMIT {
      var id := error.value;
      var node := graph(id);
      var inner := seen + {id};
      var nested := if NestedError(node).None? then (None, []) else Trace(graph, NestedError(node), inner);
      if NestedError(node).Some? {
        assert Successor(graph, id, NestedError(node).value);
        TraceStays(graph, NestedError(node), inner, world);
      }
      UnionGrows(inner, Elements(nested.1));
      forall to | to in node.cleanupErrors ensures to in world {
        assert Successor(graph, id, to);
      }
      TraceAllStays(graph, node.cleanupErrors, inner + Elements(nested.1), world);
    }
  }

  lemma {:induction false} TraceAllStays(graph: nat -> Error, errors: seq<nat>, seen: set<nat>, world: iset<nat>)
    requires ClosedUnder(graph, world) && forall id :: id in errors ==> id in world
    ensures forall id :: id in TraceAll(graph, errors, seen).1 ==> id in world
    decreases Rank(seen), 1, |errors|
  {
    if errors != [] {
      var first := Trace(graph, Some(errors[0]), seen);
      TraceStays(graph, Some(errors[0]), seen, world);
      UnionGrows(seen, Elements(first.1));
      TraceAllStays(graph, errors[1..], seen + Elements(first.1), world);
    }
  }

  // ----- what the evidence means -----

  /**
   On any graph the evidence summarises at most twenty errors, each once, starting
   with the given one and in the order they were first met.
   */
  lemma EvidenceIsBounded(graph: nat -> Error, error: nat)
    ensures var (record, order) := Trace(graph, Some(error), {});
            && record.Some? && 0 < |order| <= 20 && order[0] == error && Distinct(order)
            && Summaries(record) == Describes(graph, order)
  {
    TraceIsBounded(graph, Some(error), {});
    TraceSummaries(graph, Some(error), {});
  }

  /** Below twenty errors nothing is missing: the walk visits the least closed set around the error. */
  lemma EvidenceIsComplete(graph: nat -> Error, error: nat)
    requires |Trace(graph, Some(error), {}).1| < 20
    ensures var visited := iset id | id in Trace(graph, Some(error), {}).1;
            && error in visited && ClosedUnder(graph, visited)
            && forall world: iset<nat> :: ClosedUnder(graph, world) && error in world ==> visited <= world
  {
    var order := Trace(graph, Some(error), {}).1;
    TraceIsBounded(graph, Some(error), {});
    DistinctCount(order);
    assert {} + Elements(order) == Elements(order);
    TraceCovers(graph, Some(error), {});
    forall world: iset<nat> | ClosedUnder(graph, world) && error in world
      ensures (iset id | id in order) <= world
    {
      TraceStays(graph, Some(error), {}, world);
    }
  }

  /** A message that is retained belongs to a controller error and is bounded. */
  lemma ForeignMessagesAreWithheld(graph: nat -> Error, error: nat, k: nat)
    requires k < |Summaries(Trace(graph, Some(error), {}).0)|
    requires Summaries(Trace(graph, Some(error), {}).0)[k].message.Some?
    ensures var order := Trace(graph, Some(error), {}).1;
            && k < |order| && graph(order[k]).fromController
            && |Summaries(Trace(graph, Some(error), {}).0)[k].message.value| <= MESSAGE_LIMIT
  {
    EvidenceIsBounded(graph, error);
  }

  /** Every summary is that of the error visited at its place: its name, and its message as far as it may be shown. */
  lemma SummariesAreExact(graph: nat -> Error, error: nat, k: nat)
    requires k < |Trace(graph, Some(error), {}).1|
    ensures var (record, order) := Trace(graph, Some(error), {});
            && |Summaries(record)| == |order|
            && Summaries(record)[k].name == graph(order[k]).name
            && ShowsMessage(Summaries(record)[k].message, graph(order[k]))
  {
    EvidenceIsBounded(graph, error);
    hide Trace, Summaries;
  }

  // ----- the recursion, over a shared mutable set -----

  class SeenErrors {
    var ids: set<nat>

    constructor ()
      ensures ids == {}
    {
      ids := {};
    }
  }

  /** The record of one error; every error met is added to the shared set. */
  method Collect(graph: nat -> Error, error: Option<nat>, seen: SeenErrors) returns (record: Option<Record>)
    modifies seen
    ensures record == Trace(graph, error, old(seen.ids)).0
    ensures seen.ids == old(seen.ids) + Elements(Trace(graph, error, old(seen.ids)).1)
    ensures LeadsOn(graph, error, old(seen.ids))
    decreases Rank(seen.ids), 0
  {
    hide Trace, TraceAll, Describe, Rank, Elements, LeadsOn;
    TraceLeadsOn(graph, error, seen.ids);
    if error.None? || error.value in seen.ids || |seen.ids| >= LIMIT {
      NothingToTrace(graph, error, seen.ids);
      return None;
    }
    var id := error.value;
    ghost var start := seen.ids;
    TraceUnfolds(graph, id, start);
    seen.ids := seen.ids + {id};
    var nested := None;
    if NestedError(graph(id)).Some? {
      nested := Collect(graph, NestedError(graph(id)), seen);
    } else {
      assert Elements<nat>([]) == {} by { NothingToTrace(graph, None, {}); }
    }
    assert seen.ids == Inner(graph, id, start);
    var cleanup := CollectAll(graph, graph(id).cleanupErrors, seen);
    VisitedUnion(id, NestedTrace(graph, id, start).1,
                 TraceAll(graph, graph(id).cleanupErrors, Inner(graph, id, start)).1, start);
    record := Some(RecordOf(graph, id, nested, cleanup));
  }

  lemma NothingToTrace(graph: nat -> Error, error: Option<nat>, seen: set<nat>)
    requires error.None? || error.value in seen || |seen| >= LIMIT
    ensures Trace(graph, error, seen) == (None, []) && Elements<nat>([]) == {}
  {
  }

  lemma VisitedUnion(id: nat, a: seq<nat>, b: seq<nat>, seen: set<nat>)
    ensures seen + {id} + Elements(a) + Elements(b) == seen + Elements([id] + a + b)
  {
    ElementsConcat([id], a);
    ElementsConcat([id] + a, b);
    assert Elements([id]) == {id};
  }

  /** The records of the cleanup errors, in their order. */
  method CollectAll(graph: nat -> Error, errors: seq<nat>, seen: SeenErrors) returns (records: seq<Option<Record>>)
    modifies seen
    ensures records == TraceAll(graph, errors, old(seen.ids)).0
    ensures seen.ids == old(seen.ids) + Elements(TraceAll(graph, errors, old(seen.ids)).1)
    decreases Rank(seen.ids), 1
  {
    hide Trace, TraceAll, Rank, Elements;
    records := [];
    ghost var start := seen.ids;
    assert errors[0..] == errors;
    for i := 0 to |errors|
      invariant Rank(seen.ids) <= Rank(start)
      invariant records + TraceAll(graph, errors[i..], seen.ids).0 == TraceAll(graph, errors, start).0
      invariant seen.ids + Elements(TraceAll(graph, errors[i..], seen.ids).1)
             == start + Elements(TraceAll(graph, errors, start).1)
    {
      ghost var before := seen.ids;
      TraceAllUnfolds(graph, errors[i..], before);
      assert errors[i..][1..] == errors[i + 1..];
      var record := Collect(graph, Some(errors[i]), seen);
      ElementsConcat(Trace(graph, Some(errors[i]), before).1, TraceAll(graph, errors[i + 1..], seen.ids).1);
      records := records + [record];
    }
    NothingToTraceAll(graph, seen.ids);
  }

  lemma NothingToTraceAll(graph: nat -> Error, seen: set<nat>)
    ensures TraceAll(graph, [], seen) == ([], []) && Elements<nat>([]) == {}
  {
  }

  /** The entry point starts with nothing seen; the set grows by one for every record made. */
  method CollectEvidence(graph: nat -> Error, error: nat) returns (record: Option<Record>, seen: SeenErrors)
    ensures record == Trace(graph, Some(error), {}).0
    ensures |seen.ids| == |Summaries(record)| <= 20
    ensures LeadsOn(graph, Some(error), {})
    ensures record.Some? && record.value.summary.name == graph(error).name
            && ShowsMessage(record.value.summary.message, graph(error))
  {
    RecordShowsError(graph, error, {});
    hide Trace, LeadsOn;
    seen := new SeenErrors();
    record := Collect(graph, Some(error), seen);
    EvidenceIsBounded(graph, error);
    DistinctCount(Trace(graph, Some(error), {}).1);
    assert {} + Elements(Trace(graph, Some(error), {}).1) == Elements(Trace(graph, Some(error), {}).1);
  }
}
