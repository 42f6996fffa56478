/** The worker's sequential code, refining runs of protocol steps. */
module DeliveryWorker {
  import opened Wrappers
  import opened DownstreamStore
  import opened DeliveryProtocol

  /** What the outside world does to the processing of one message. */
  datatype Fate = Fate(loadFails: bool, reached: bool, outcome: PostOutcome, recordFails: bool, acknowledgeFails: bool) {
    predicate Valid() {
      outcome.Accepted? ==> reached
    }
  }

  /** The message is acknowledged: an earlier recorded success, or a new one, and no failure on the way. */
  predicate Succeeds(s: System, message: nat, fate: Fate)
    requires message in s.queue
  {
    && !fate.acknowledgeFails
    && match LatestDelivered(s.attempts, s.queue[message])
       case Some(a) => a.code.Some?
       case None => !fate.loadFails && fate.outcome.Accepted? && !fate.recordFails
  }

  /** t follows from s by protocol steps, and both are sound. */
  ghost predicate Follows(s: System, steps: seq<Step>, t: System) {
    Exec(s, steps) == Some(t) && Sound(t)
  }

  lemma FollowsNothing(s: System)
    requires Sound(s)
    ensures Follows(s, [], s)
  {
  }

  lemma FollowsStep(s: System, steps: seq<Step>, t: System, step: Step)
    requires Follows(s, steps, t) && Enabled(t, step)
    ensures Follows(s, steps + [step], Apply(t, step))
  {
    ExecExtend(s, steps, step);
    StepKeepsSound(t, step);
  }

  /** The event is posted downstream: no success recorded so far, and it could be loaded. */
  predicate Attempts(s: System, message: nat, fate: Fate)
    requires message in s.queue
  {
    LatestDelivered(s.attempts, s.queue[message]).None? && !fate.loadFails
  }

  /** The attempts after a post: one more, success or failure, unless storing it failed. */
  function RecordedAttempts(attempts: seq<Attempt>, event: nat, fate: Fate): seq<Attempt> {
    if fate.recordFails then attempts else attempts + [AttemptFor(event, fate.outcome)]
  }

  /** The store after a post of an accepted event. */
  function PostedStore(s: System, event: nat, fate: Fate): Store
    requires event in s.accepted
  {
    if fate.reached then Recorded(s.store, s.accepted[event], Some(event)) else s.store
  }

  /**
   All that processing a message changes: the message leaves the queue exactly on
   success, the attempt of every post is stored unless that failed, and the store
   records what reached it. Everything else is as before.
   */
  ghost predicate Confined(s: System, t: System, message: nat, fate: Fate) {
    && message in s.queue && s.queue[message] in s.accepted
    && var event := s.queue[message];
       && t == s.(queue := t.queue, attempts := t.attempts, store := t.store)
       && t.queue == (if Succeeds(s, message, fate) then s.queue - {message} else s.queue)
       && t.attempts == (if Attempts(s, message, fate) then RecordedAttempts(s.attempts, event, fate) else s.attempts)
       && t.store == (if Attempts(s, message, fate) then PostedStore(s, event, fate) else s.store)
       && (Succeeds(s, message, fate) ==> event in t.store.keys)
  }

  /** Deliver and record, from a loaded event: the steps between loading and acknowledging. */
  method DeliverAndRecord(s: System, w: nat, fate: Fate) returns (t: System, delivered: bool, ghost steps: seq<Step>)
    requires Sound(s) && AtStage(s, w, Loaded) && fate.Valid()
    ensures Follows(s, steps, t)
    ensures s.workers[w].event in s.accepted
    ensures t == s.(workers := t.workers,
                    attempts := RecordedAttempts(s.attempts, s.workers[w].event, fate),
                    store := PostedStore(s, s.workers[w].event, fate))
    ensures delivered <==> fate.outcome.Accepted? && !fate.recordFails
    ensures if delivered then t.workers == s.workers[w := s.workers[w].(stage := Recordable)]
            else t.workers == s.workers - {w}
  {
    hide Sound, Exec, Enabled, Apply, AtStage;
    PostEffect(s, w, fate);
    FollowsNothing(s);
    var post := Post(w, fate.reached, fate.outcome);
    FollowsStep(s, [], s, post);
    assert [] + [post] == [post];
    var posted := Apply(s, post);
    var last := if fate.recordFails then Stop(w) else RecordAttempt(w);
    RecordEffect(s, posted, w, fate);
    FollowsStep(s, [post], posted, last);
    return Apply(posted, last), fate.outcome.Accepted? && !fate.recordFails, [post] + [last];
  }

  lemma PostEffect(s: System, w: nat, fate: Fate)
    requires Sound(s) && AtStage(s, w, Loaded) && fate.Valid()
    ensures var post := Post(w, fate.reached, fate.outcome);
            && Enabled(s, post)
            && w in s.workers && s.workers[w].event in s.accepted
            && Apply(s, post) == s.(workers := s.workers[w := s.workers[w].(stage := Responded(fate.outcome))],
                                    store := PostedStore(s, s.workers[w].event, fate))
  {
    assert WorkerSound(s, s.workers[w]);
  }

  lemma RecordEffect(s: System, posted: System, w: nat, fate: Fate)
    requires w in s.workers
    requires posted == s.(workers := s.workers[w := s.workers[w].(stage := Responded(fate.outcome))],
                          store := posted.store)
    ensures var last := if fate.recordFails then Stop(w) else RecordAttempt(w);
            && Enabled(posted, last)
            && var t := Apply(posted, last);
               && t == posted.(workers := t.workers,
                               attempts := RecordedAttempts(s.attempts, s.workers[w].event, fate))
               && t.workers == if fate.outcome.Accepted? && !fate.recordFails
                               then s.workers[w := s.workers[w].(stage := Recordable)] else s.workers - {w}
  {
  }

  /** Acknowledge a message whose delivery is recorded, or leave it when that fails. */
  method AcknowledgeMessage(s: System, w: nat, fails: bool) returns (t: System, ghost steps: seq<Step>)
    requires Sound(s) && AtStage(s, w, Recordable)
    ensures Follows(s, steps, t)
    ensures t == s.(workers := s.workers - {w},
                    queue := if fails then s.queue else s.queue - {s.workers[w].message})
  {
    steps := if fails then [Stop(w)] else [Acknowledge(w)];
    FollowsStep(s, [], s, steps[0]);
    t := Apply(s, if fails then Stop(w) else Acknowledge(w));
  }

  /** The first step with a message: give up, skip to acknowledging, or load the event. */
  datatype Pickup = GivenUp | AlreadyDelivered | ToDeliver

  function PickupOf(s: System, message: nat, loadFails: bool): Pickup
    requires message in s.queue
  {
    match LatestDelivered(s.attempts, s.queue[message])
    case Some(a) => if a.code.Some? then AlreadyDelivered else GivenUp
    case None => if loadFails then GivenUp else ToDeliver
  }

  function PickedUp(s: System, w: nat, message: nat, pickup: Pickup): System
    requires message in s.queue
  {
    match pickup
    case GivenUp => s
    case AlreadyDelivered => s.(workers := s.workers[w := Worker(message, s.queue[message], Recordable)])
    case ToDeliver => s.(workers := s.workers[w := Worker(message, s.queue[message], Loaded)])
  }

  ghost function NextStep(w: nat, pickup: Pickup): Step {
    match pickup
    case GivenUp => Stop(w)
    case AlreadyDelivered => SkipDelivered(w)
    case ToDeliver => Load(w)
  }

  lemma ReceivedIsSound(s: System, w: nat, message: nat) returns (received: System)
    requires Sound(s) && w !in s.workers && message in s.queue
    ensures Enabled(s, Receive(w, message)) && received == Apply(s, Receive(w, message))
    ensures received == s.(workers := s.workers[w := Worker(message, s.queue[message], Received)])
    ensures received.workers[w].event in received.accepted
    ensures Follows(s, [Receive(w, message)], received)
  {
    received := Apply(s, Receive(w, message));
    FollowsStep(s, [], s, Receive(w, message));
  }

  /** Whatever the pickup decides is a possible protocol step of a worker that has received. */
  lemma PickUpIsEnabled(s: System, received: System, w: nat, message: nat, pickup: Pickup)
    requires w !in s.workers && message in s.queue && s.queue[message] in s.accepted
    requires received == s.(workers := s.workers[w := Worker(message, s.queue[message], Received)])
    requires pickup == PickupOf(s, message, false) || pickup == PickupOf(s, message, true)
    ensures Enabled(received, NextStep(w, pickup))
    ensures Apply(received, NextStep(w, pickup)) == PickedUp(s, w, message, pickup)
  {
    assert received.workers - {w} == s.workers;
  }

  /** Receive a message and look for an earlier recorded success. */
  method PickUp(s: System, w: nat, message: nat, loadFails: bool)
    returns (t: System, pickup: Pickup, ghost steps: seq<Step>)
    requires Sound(s) && w !in s.workers && message in s.queue
    ensures Follows(s, steps, t)
    ensures pickup == PickupOf(s, message, loadFails) && t == PickedUp(s, w, message, pickup)
  {
    hide Sound, Exec, Enabled, Apply, LatestDelivered, NextStep, Follows;
    var recorded := LatestDelivered(s.attempts, s.queue[message]);
    if recorded.Some? {
      pickup := if recorded.value.code.Some? then AlreadyDelivered else GivenUp;
    } else {
      pickup := if loadFails then GivenUp else ToDeliver;
    }
    t := PickedUp(s, w, message, pickup);
    ghost var received := ReceivedIsSound(s, w, message);
    PickUpIsEnabled(s, received, w, message, pickup);
    FollowsStep(s, [Receive(w, message)], received, NextStep(w, pickup));
    steps := [Receive(w, message)] + [NextStep(w, pickup)];
  }

  lemma WorkerRemoved(s: System, w: nat, worker: Worker)
    requires w !in s.workers
    ensures s.workers[w := worker] - {w} == s.workers
  {
  }

  lemma FollowsConcat(s: System, a: seq<Step>, t: System, b: seq<Step>, u: System)
    requires Follows(s, a, t) && Follows(t, b, u)
    ensures Follows(s, a + b, u)
  {
    ExecConcat(s, a, b);
  }

  /** A worker ready to acknowledge holds a receipt for its event. */
  lemma RecordableIsReceived(s: System, w: nat)
    requires Sound(s) && AtStage(s, w, Recordable)
    ensures s.workers[w].event in s.store.keys
  {
    assert WorkerSound(s, s.workers[w]);
  }

  /** Process one received message; every early exit leaves it unacknowledged. */
  method ProcessMessage(s: System, w: nat, message: nat, fate: Fate)
    returns (t: System, acknowledged: bool, ghost steps: seq<Step>)
    requires Sound(s) && w !in s.workers && message in s.queue && fate.Valid()
    ensures Follows(s, steps, t)
    ensures Confined(s, t, message, fate)
    ensures acknowledged <==> Succeeds(s, message, fate)
  {
    hide Sound, Exec, Enabled, Apply, LatestDelivered, Follows, RecordedAttempts, Confined;
    QueuedIsAccepted(s, message);
    var ready, pickup;
    ready, pickup, steps := PickUp(s, w, message, fate.loadFails);
    FollowsIsSound(s, steps, ready);
    if pickup.GivenUp? {
      EndsConfined(s, ready, message, fate, pickup);
      return ready, false, steps;
    }
    WorkerRemoved(s, w, ready.workers[w]);
    WorkerRemoved(s, w, ready.workers[w].(stage := Recordable));
    if pickup.ToDeliver? {
      var loaded, delivered := ready, false;
      ghost var more;
      ready, delivered, more := DeliverAndRecord(loaded, w, fate);
      FollowsConcat(s, steps, loaded, more, ready);
      steps := steps + more;
      FollowsIsSound(s, steps, ready);
      if !delivered {
        assert ready.workers == s.workers;
        EndsConfined(s, ready, message, fate, pickup);
        return ready, false, steps;
      }
    }
    RecordableIsReceived(ready, w);
    ghost var last;
    t, last := AcknowledgeMessage(ready, w, fate.acknowledgeFails);
    assert t.workers == s.workers;
    EndsConfined(s, t, message, fate, pickup);
    FollowsConcat(s, steps, ready, last, t);
    steps := steps + last;
    acknowledged := !fate.acknowledgeFails;
  }

  /** The three ways processing a message ends. */
  lemma EndsConfined(s: System, t: System, message: nat, fate: Fate, pickup: Pickup)
    requires message in s.queue && s.queue[message] in s.accepted && pickup == PickupOf(s, message, fate.loadFails)
    requires t == s.(queue := if Succeeds(s, message, fate) then s.queue - {message} else s.queue,
                     attempts := if pickup.ToDeliver? then RecordedAttempts(s.attempts, s.queue[message], fate) else s.attempts,
                     store := if pickup.ToDeliver? then PostedStore(s, s.queue[message], fate) else s.store)
    requires Succeeds(s, message, fate) ==> s.queue[message] in t.store.keys
    ensures Confined(s, t, message, fate)
  {
  }

  lemma QueuedIsAccepted(s: System, message: nat)
    requires Sound(s) && message in s.queue
    ensures s.queue[message] in s.accepted
  {
  }

  lemma FollowsIsSound(s: System, steps: seq<Step>, t: System)
    requires Follows(s, steps, t)
    ensures Sound(t)
  {
  }

  /** The message was processed: by protocol steps, and changing no more than that. */
  ghost predicate Handled(s: System, t: System, message: nat, fate: Fate) {
    Confined(s, t, message, fate) && exists st :: Follows(s, st, t)
  }

  /** Message i was processed in states[i], which led to states[i + 1]. */
  ghost predicate Isolated(states: seq<System>, messages: seq<nat>, fates: seq<Fate>) {
    && |states| <= |messages| + 1 && |fates| == |messages|
    && forall i :: 0 <= i < |states| - 1 ==> Handled(states[i], states[i + 1], messages[i], fates[i])
  }

  predicate Leaves(s: System, message: nat, fate: Fate) {
    message in s.queue && Succeeds(s, message, fate)
  }

  /** The messages that left the queue are exactly those whose own processing succeeded. */
  predicate RemovedExactly(states: seq<System>, messages: seq<nat>, fates: seq<Fate>, removed: set<nat>)
    requires |states| <= |messages| + 1 && |fates| == |messages|
  {
    forall i :: 0 <= i < |states| - 1 ==> (messages[i] in removed <==> Leaves(states[i], messages[i], fates[i]))
  }

  lemma IsolatedExtend(states: seq<System>, messages: seq<nat>, fates: seq<Fate>, after: System)
    requires 0 < |states| <= |messages| && Isolated(states, messages, fates)
    requires Handled(states[|states| - 1], after, messages[|states| - 1], fates[|states| - 1])
    ensures Isolated(states + [after], messages, fates)
  {
    hide Handled;
    var n, more := |states| - 1, states + [after];
    forall i | 0 <= i <= n ensures Handled(more[i], more[i + 1], messages[i], fates[i]) {
      assert i < n ==> more[i] == states[i] && more[i + 1] == states[i + 1];
    }
  }

  lemma RemovedExtend(states: seq<System>, messages: seq<nat>, fates: seq<Fate>, removed: set<nat>, after: System)
    requires 0 < |states| <= |messages| == |fates|
    requires RemovedExactly(states, messages, fates, removed)
    requires forall i, j :: 0 <= i < j < |messages| ==> messages[i] != messages[j]
    requires messages[|states| - 1] !in removed
    ensures var n := |states| - 1;
            RemovedExactly(states + [after], messages, fates,
                           if Leaves(states[n], messages[n], fates[n]) then removed + {messages[n]} else removed)
  {
    hide Leaves;
    var n, more := |states| - 1, states + [after];
    var all := if Leaves(states[n], messages[n], fates[n]) then removed + {messages[n]} else removed;
    forall i | 0 <= i <= n ensures messages[i] in all <==> Leaves(more[i], messages[i], fates[i]) {
      assert more[i] == states[i];
    }
  }

  lemma IsolatedNothing(s: System, messages: seq<nat>, fates: seq<Fate>)
    requires |fates| == |messages|
    ensures Isolated([s], messages, fates) && RemovedExactly([s], messages, fates, {})
  {
  }

  lemma LatestOfOthers(attempts: seq<Attempt>, attempt: Attempt, event: nat)
    requires attempt.event != event
    ensures LatestDelivered(attempts + [attempt], event) == LatestDelivered(attempts, event)
  {
    assert (attempts + [attempt])[..|attempts|] == attempts;
  }

  /** Handling one message does not concern another with an event of its own. */
  lemma OthersAreUntouched(s: System, t: System, message: nat, fate: Fate, other: nat)
    requires Confined(s, t, message, fate) && other in s.queue && s.queue[other] != s.queue[message]
    ensures other in t.queue && t.queue[other] == s.queue[other]
    ensures LatestDelivered(t.attempts, s.queue[other]) == LatestDelivered(s.attempts, s.queue[other])
  {
    hide LatestDelivered, AttemptFor, PostedStore;
    assert AttemptFor(s.queue[message], fate.outcome).event == s.queue[message] by { AttemptIsOfEvent(s.queue[message], fate); }
    LatestOfOthers(s.attempts, AttemptFor(s.queue[message], fate.outcome), s.queue[other]);
  }

  lemma AttemptIsOfEvent(event: nat, fate: Fate)
    ensures AttemptFor(event, fate.outcome).event == event
  {
  }

  /** Until its turn comes, nothing the batch does concerns a message with an event of its own. */
  lemma {:induction false} TurnIsUntouched(states: seq<System>, messages: seq<nat>, fates: seq<Fate>, i: nat, n: nat)
    requires Isolated(states, messages, fates) && n <= i < |messages| && n < |states|
    requires forall k :: 0 <= k < |messages| ==> messages[k] in states[0].queue
    requires forall j, k :: 0 <= j < k < |messages| ==> states[0].queue[messages[j]] != states[0].queue[messages[k]]
    ensures messages[i] in states[n].queue && states[n].queue[messages[i]] == states[0].queue[messages[i]]
    ensures LatestDelivered(states[n].attempts, states[0].queue[messages[i]])
            == LatestDelivered(states[0].attempts, states[0].queue[messages[i]])
  {
    hide LatestDelivered, Confined;
    if n > 0 {
      TurnIsUntouched(states, messages, fates, i, n - 1);
      TurnIsUntouched(states, messages, fates, n - 1, n - 1);
      assert Handled(states[n - 1], states[n - 1 + 1], messages[n - 1], fates[n - 1]);
      OthersAreUntouched(states[n - 1], states[n], messages[n - 1], fates[n - 1], messages[i]);
    }
  }

  /**
   The outcome of every message of a batch, over the inputs alone: when the messages
   carry different events, each leaves the queue exactly when it would succeed on
   its own, whatever happens to the others.
   */
  lemma BatchIsIndependent(states: seq<System>, messages: seq<nat>, fates: seq<Fate>, removed: set<nat>, i: nat)
    requires |states| == |messages| + 1 && |fates| == |messages| && i < |messages|
    requires Isolated(states, messages, fates) && RemovedExactly(states, messages, fates, removed)
    requires forall k :: 0 <= k < |messages| ==> messages[k] in states[0].queue
    requires forall j, k :: 0 <= j < k < |messages| ==> states[0].queue[messages[j]] != states[0].queue[messages[k]]
    ensures messages[i] in removed <==> Succeeds(states[0], messages[i], fates[i])
  {
    hide LatestDelivered, Handled;
    TurnIsUntouched(states, messages, fates, i, i);
  }

  lemma ConfinedGrows(s: System, t: System, message: nat, fate: Fate)
    requires Confined(s, t, message, fate)
    ensures s.store.keys <= t.store.keys
    ensures Succeeds(s, message, fate) ==> s.queue[message] in t.store.keys
  {
  }

  /** Each message of the batch is processed once, whatever happened to the ones before it. */
  method ProcessBatch(s: System, w: nat, messages: seq<nat>, fates: seq<Fate>)
    returns (t: System, delivered: nat, failed: nat,
             ghost removed: set<nat>, ghost steps: seq<Step>, ghost states: seq<System>)
    requires Sound(s) && w !in s.workers
    requires |fates| == |messages| && forall f <- fates :: f.Valid()
    requires forall i :: 0 <= i < |messages| ==> messages[i] in s.queue
    requires forall i, j :: 0 <= i < j < |messages| ==> messages[i] != messages[j]
    ensures Follows(s, steps, t)
    ensures delivered + failed == |messages|
    ensures delivered == |removed| && removed <= set m | m in messages
    ensures t == s.(queue := s.queue - removed, attempts := t.attempts, store := t.store)
    ensures forall m :: m in removed ==> m in s.queue && s.queue[m] in t.store.keys
    ensures |states| == |messages| + 1 && states[0] == s && states[|messages|] == t
    ensures Isolated(states, messages, fates) && RemovedExactly(states, messages, fates, removed)
    ensures (forall j, k :: 0 <= j < k < |messages| ==> s.queue[messages[j]] != s.queue[messages[k]]) ==>
              forall i :: 0 <= i < |messages| ==> (messages[i] in removed <==> Succeeds(s, messages[i], fates[i]))
  {
    hide Sound, Exec, Succeeds, Attempts, Follows, Isolated, RemovedExactly, PostedStore, RecordedAttempts;
    FollowsNothing(s);
    IsolatedNothing(s, messages, fates);
    t, delivered, failed, removed, steps, states := s, 0, 0, {}, [], [s];
    for n := 0 to |messages|
      invariant Follows(s, steps, t)
      invariant delivered + failed == n && delivered == |removed|
      invariant forall m :: m in removed ==> m in messages[..n]
      invariant t == s.(queue := s.queue - removed, attempts := t.attempts, store := t.store)
      invariant forall m :: m in removed ==> m in s.queue && s.queue[m] in t.store.keys
      invariant |states| == n + 1 && states[0] == s && states[n] == t
      invariant Isolated(states, messages, fates) && RemovedExactly(states, messages, fates, removed)
    {
      FollowsIsSound(s, steps, t);
      assert messages[n] !in messages[..n];
      var acknowledged;
      ghost var more, before := [], t;
      t, acknowledged, more := ProcessMessage(t, w, messages[n], fates[n]);
      FollowsConcat(s, steps, before, more, t);
      steps := steps + more;
      assert Handled(before, t, messages[n], fates[n]);
      ConfinedGrows(before, t, messages[n], fates[n]);
      IsolatedExtend(states, messages, fates, t);
      RemovedExtend(states, messages, fates, removed, t);
      states := states + [t];
      if acknowledged {
        delivered, removed := delivered + 1, removed + {messages[n]};
        assert before.queue - {messages[n]} == s.queue - removed;
      } else {
        failed := failed + 1;
      }
    }
    if forall j, k :: 0 <= j < k < |messages| ==> s.queue[messages[j]] != s.queue[messages[k]] {
      forall i | 0 <= i < |messages| ensures messages[i] in removed <==> Succeeds(s, messages[i], fates[i]) {
        BatchIsIndependent(states, messages, fates, removed, i);
      }
    }
  }
}
