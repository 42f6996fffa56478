/** The publication transaction over pending outbox entries, refining runs of protocol steps. */
module DeliveryRelay {
  import opened Wrappers
  import opened DownstreamStore
  import opened DeliveryProtocol
  import opened DeliveryWorker

  /** How a publication ends: an enqueue raises at some entry, the commit raises, or all goes through. */
  datatype RelayFate = EnqueueRaised(at: nat) | CommitRaised | Committed

  /** How many entries of the batch reach the queue. */
  function SentCount(batch: seq<nat>, fate: RelayFate): (n: nat)
    ensures n <= |batch|
  {
    if fate.EnqueueRaised? && fate.at < |batch| then fate.at else |batch|
  }

  /** Pending entries that no other transaction holds. */
  predicate Available(s: System, batch: seq<nat>) {
    forall id :: id in batch ==> id in s.outbox && id !in s.published && !Locked(s, id)
  }

  /** The state with jobs for the first n entries in the queue. */
  function Enqueued(s: System, batch: seq<nat>, n: nat): (t: System)
    requires n <= |batch|
    ensures t == s.(queue := t.queue, nextMessage := s.nextMessage + n)
  {
    if n == 0 then s
    else
      var t := Enqueued(s, batch, n - 1);
      t.(queue := t.queue[t.nextMessage := batch[n - 1]], nextMessage := t.nextMessage + 1)
  }

  /** Each entry gets a job of its own, and no earlier message is touched. */
  lemma {:induction false} EnqueuedJobs(s: System, batch: seq<nat>, n: nat)
    requires n <= |batch| && forall m :: m in s.queue ==> m < s.nextMessage
    ensures var t := Enqueued(s, batch, n);
            && (forall i :: 0 <= i < n ==> s.nextMessage + i in t.queue && t.queue[s.nextMessage + i] == batch[i])
            && (forall m :: m in t.queue <==> m in s.queue || s.nextMessage <= m < s.nextMessage + n)
            && (forall m :: m in s.queue ==> t.queue[m] == s.queue[m])
  {
    if n > 0 {
      EnqueuedJobs(s, batch, n - 1);
    }
  }

  /** The state while the transaction is open and has sent n jobs. */
  function Sending(s: System, tx: nat, batch: seq<nat>, n: nat): System
    requires n <= |batch|
  {
    Enqueued(s, batch, n).(relays := s.relays[tx := Relay(batch, n)])
  }

  lemma BeginSending(s: System, tx: nat, batch: seq<nat>)
    requires Sound(s) && tx !in s.relays && Available(s, batch)
    ensures Follows(s, [BeginRelay(tx, batch)], Sending(s, tx, batch, 0))
  {
    FollowsStep(s, [], s, BeginRelay(tx, batch));
  }

  lemma SendNext(s: System, tx: nat, batch: seq<nat>, n: nat)
    requires n < |batch|
    ensures Enabled(Sending(s, tx, batch, n), Send(tx))
    ensures Apply(Sending(s, tx, batch, n), Send(tx)) == Sending(s, tx, batch, n + 1)
  {
    assert Sending(s, tx, batch, n).relays[tx := Relay(batch, n + 1)] == s.relays[tx := Relay(batch, n + 1)];
  }

  lemma EndSending(s: System, tx: nat, batch: seq<nat>, n: nat)
    requires n <= |batch| && tx !in s.relays
    ensures Enabled(Sending(s, tx, batch, n), Abort(tx))
    ensures Apply(Sending(s, tx, batch, n), Abort(tx)) == Enqueued(s, batch, n)
    ensures n == |batch| ==>
              && Enabled(Sending(s, tx, batch, n), Commit(tx))
              && Apply(Sending(s, tx, batch, n), Commit(tx))
                 == Enqueued(s, batch, n).(published := s.published + Elements(batch))
  {
    assert Sending(s, tx, batch, n).relays - {tx} == s.relays;
  }

  /**
   Enqueue every locked entry, then mark them all published and commit. A failure
   anywhere marks nothing, although the jobs sent so far stay in the queue.
   */
  method PublishBatch(s: System, tx: nat, batch: seq<nat>, fate: RelayFate)
    returns (t: System, count: nat, ghost steps: seq<Step>)
    requires Sound(s) && tx !in s.relays && Available(s, batch)
    ensures Follows(s, steps, t)
    ensures var sent := Enqueued(s, batch, SentCount(batch, fate));
            t == if fate.Committed? then sent.(published := s.published + Elements(batch)) else sent
    ensures count == if fate.Committed? then |batch| else 0
    ensures fate.Committed? ==> Queues(s, t, batch) && t.published == s.published + Elements(batch)
    ensures !fate.Committed? ==> t.published == s.published
    ensures fate.CommitRaised? ==> Queues(s, t, batch)
    ensures fate.EnqueueRaised? && fate.at <= |batch| ==> Queues(s, t, batch[..fate.at])
  {
    hide Sound, Exec, Enabled, Apply, Sending, Enqueued, Follows, Available, Queues;
    PublicationQueues(s, batch, fate);
    BeginSending(s, tx, batch);
    steps := [BeginRelay(tx, batch)];
    var n := 0;
    while n < |batch|
      invariant 0 <= n <= SentCount(batch, fate)
      invariant Follows(s, steps, Sending(s, tx, batch, n))
    {
      if fate == EnqueueRaised(n) {
        EndSending(s, tx, batch, n);
        FollowsStep(s, steps, Sending(s, tx, batch, n), Abort(tx));
        return Enqueued(s, batch, n), 0, steps + [Abort(tx)];
      }
      SendNext(s, tx, batch, n);
      FollowsStep(s, steps, Sending(s, tx, batch, n), Send(tx));
      steps := steps + [Send(tx)];
      n := n + 1;
    }
    EndSending(s, tx, batch, n);
    if fate.Committed? {
      FollowsStep(s, steps, Sending(s, tx, batch, n), Commit(tx));
      return Enqueued(s, batch, n).(published := s.published + Elements(batch)), |batch|, steps + [Commit(tx)];
    }
    FollowsStep(s, steps, Sending(s, tx, batch, n), Abort(tx));
    return Enqueued(s, batch, n), 0, steps + [Abort(tx)];
  }

  /** The queue has gained one new message per listed entry, in order, and nothing else was sent or lost. */
  ghost predicate Queues(s: System, t: System, entries: seq<nat>) {
    && t.nextMessage == s.nextMessage + |entries|
    && (forall m :: m in t.queue <==> m in s.queue || s.nextMessage <= m < s.nextMessage + |entries|)
    && (forall m :: m in s.queue ==> t.queue[m] == s.queue[m])
    && (forall i :: 0 <= i < |entries| ==> s.nextMessage + i in t.queue && t.queue[s.nextMessage + i] == entries[i])
  }

  lemma PublicationQueues(s: System, batch: seq<nat>, fate: RelayFate)
    requires Sound(s)
    ensures var sent := Enqueued(s, batch, SentCount(batch, fate));
            && (!fate.EnqueueRaised? ==> Queues(s, sent, batch) && Queues(s, sent.(published := s.published + Elements(batch)), batch))
            && (fate.EnqueueRaised? && fate.at <= |batch| ==> Queues(s, sent, batch[..fate.at]))
  {
    EnqueuedJobs(s, batch, SentCount(batch, fate));
  }

  /** Published or not, an entry sent by a publication has a job waiting. */
  lemma SentIsHanded(s: System, batch: seq<nat>, fate: RelayFate, t: System, i: nat)
    requires Sound(s) && i < SentCount(batch, fate)
    requires var sent := Enqueued(s, batch, SentCount(batch, fate));
             t == if fate.Committed? then sent.(published := s.published + Elements(batch)) else sent
    ensures Handed(t, batch[i])
  {
    EnqueuedJobs(s, batch, SentCount(batch, fate));
    assert t.queue[s.nextMessage + i] == batch[i];
  }
}
