/**
 Remote workload actions over a lossy command channel: a command that may have
 run is never followed by another, and evidence comes only from a successful collect.
 */
module SsmCollection {
  import opened Wrappers

  const MAX_PROBES := 8
  const MAX_COLLECTIONS := 3

  datatype Purpose = Prepare | Probe | Collect

  datatype Status = Submitted | Success | DeliveryTimedOut | Undeliverable | OtherStatus(name: string)

  /** One submitted command and its last observed delivery outcome. */
  datatype Attempt = Attempt(purpose: Purpose, command: nat, status: Status, response: Option<int>)

  /** What happens to one command: its submission, its journal entry, the wait, and the final journal entry. */
  datatype Fate =
    | SubmissionRaised
    | JournalRaised(command: nat)
    | WaitRaised(command: nat)
    | Observed(command: nat, status: Status, response: int, journalRaises: bool)

  /** A command handed to the channel, whether or not an attempt could be noted for it. */
  datatype Send = Send(purpose: Purpose, fate: Fate)

  predicate NeverDelivered(attempt: Attempt) {
    attempt.status in {DeliveryTimedOut, Undeliverable} && attempt.response == Some(-1)
  }

  predicate Succeeded(attempt: Attempt) {
    attempt.status == Success && attempt.response == Some(0)
  }

  /** The attempt as last noted: still "Submitted" unless its outcome was observed. */
  function Noted(send: Send): Attempt
    requires !send.fate.SubmissionRaised?
  {
    match send.fate
    case Observed(command, status, response, _) => Attempt(send.purpose, command, status, Some(response))
    case JournalRaised(command) => Attempt(send.purpose, command, Submitted, None)
    case WaitRaised(command) => Attempt(send.purpose, command, Submitted, None)
  }

  function AttemptsOf(sent: seq<Send>): seq<Attempt> {
    if sent == [] then []
    else
      var last := sent[|sent| - 1];
      AttemptsOf(sent[..|sent| - 1]) + if last.fate.SubmissionRaised? then [] else [Noted(last)]
  }

  lemma AttemptsGrow(sent: seq<Send>, send: Send)
    ensures AttemptsOf(sent + [send]) ==
            AttemptsOf(sent) + if send.fate.SubmissionRaised? then [] else [Noted(send)]
  {
    assert (sent + [send])[..|sent|] == sent;
  }

  /** The call came back with an attempt rather than an error. */
  predicate Returned(send: Send) {
    send.fate.Observed? && !send.fate.journalRaises
  }

  /** Nothing proves that the command did not run: it was not reported undelivered without a response. */
  predicate MayHaveRun(send: Send) {
    send.fate.Observed? && send.fate.response == -1 ==>
      send.fate.status != DeliveryTimedOut && send.fate.status != Undeliverable
  }

  // ----- the retry policy as one state machine over what has been sent -----

  function ProbesInRow(sent: seq<Send>): (n: nat)
    ensures n <= |sent|
  {
    if sent == [] || sent[|sent| - 1].purpose != Probe then 0 else 1 + ProbesInRow(sent[..|sent| - 1])
  }

  function Collects(sent: seq<Send>): nat {
    if sent == [] then 0
    else Collects(sent[..|sent| - 1]) + if sent[|sent| - 1].purpose == Collect then 1 else 0
  }

  /** The command that may be sent next: probe until one succeeds, collect, and start over if that was lost. */
  function Next(sent: seq<Send>): Option<Purpose> {
    if sent == [] then Some(Probe)
    else
      var last := sent[|sent| - 1];
      if !Returned(last) then None
      else match last.purpose
        case Probe =>
          if Succeeded(Noted(last)) then Some(Collect)
          else if NeverDelivered(Noted(last)) && ProbesInRow(sent) < MAX_PROBES then Some(Probe)
          else None
        case Collect =>
          if NeverDelivered(Noted(last)) && Collects(sent) < MAX_COLLECTIONS then Some(Probe) else None
        case Prepare => None
  }

  /** A collect action in progress: every command was the next one allowed, and met its fate. */
  ghost predicate Permitted(sent: seq<Send>, fates: nat -> Fate) {
    forall i :: 0 <= i < |sent| ==> Next(sent[..i]) == Some(sent[i].purpose) && sent[i].fate == fates(i)
  }

  lemma PermittedExtend(sent: seq<Send>, fates: nat -> Fate, purpose: Purpose)
    requires Permitted(sent, fates) && Next(sent) == Some(purpose)
    ensures Permitted(sent + [Send(purpose, fates(|sent|))], fates)
  {
    var more := sent + [Send(purpose, fates(|sent|))];
    forall i | 0 <= i < |more| ensures Next(more[..i]) == Some(more[i].purpose) && more[i].fate == fates(i) {
      assert more[..i] == sent[..i];
      assert i == |sent| ==> sent[..i] == sent;
    }
  }

  lemma PermittedPrefix(sent: seq<Send>, fates: nat -> Fate, n: nat)
    requires Permitted(sent, fates) && n <= |sent|
    ensures Permitted(sent[..n], fates)
  {
    forall i | 0 <= i < n ensures sent[..n][..i] == sent[..i] {
    }
  }

  // ----- the policy on what was observed -----

  /** What the channel reported of one command, when nothing raised. */
  predicate Reported(send: Send, status: Status, response: int) {
    send.fate.Observed? && !send.fate.journalRaises && send.fate.status == status && send.fate.response == response
  }

  /** Exactly two reports prove that a command never reached the host. */
  lemma LostIff(send: Send)
    ensures Returned(send) && !MayHaveRun(send) <==>
            Reported(send, DeliveryTimedOut, -1) || Reported(send, Undeliverable, -1)
    ensures Returned(send) && Succeeded(Noted(send)) <==> Reported(send, Success, 0)
    ensures MayHaveRun(send) <==> (send.fate.Observed? ==> !NeverDelivered(Noted(send)))
  {
  }

  /** The last k commands were all probes. */
  predicate EndsInProbes(sent: seq<Send>, k: nat) {
    k <= |sent| && forall i :: |sent| - k <= i < |sent| ==> sent[i].purpose == Probe
  }

  lemma {:induction false} ProbesInRowIff(sent: seq<Send>, k: nat)
    ensures k <= ProbesInRow(sent) <==> EndsInProbes(sent, k)
  {
    if k > 0 && sent != [] {
      var front, last := sent[..|sent| - 1], sent[|sent| - 1];
      ProbesInRowIff(front, k - 1);
      if last.purpose == Probe && EndsInProbes(front, k - 1) {
        forall i | |sent| - k <= i < |sent| ensures sent[i].purpose == Probe {
          assert i < |front| ==> front[i] == sent[i];
        }
      }
      if EndsInProbes(sent, k) {
        assert sent[|sent| - 1].purpose == Probe;
        forall i | |front| - (k - 1) <= i < |front| ensures front[i].purpose == Probe {
          assert front[i] == sent[i];
        }
      }
    }
  }

  function CollectsOf(sent: seq<Send>): set<int> {
    set i | 0 <= i < |sent| && sent[i].purpose == Collect
  }

  lemma {:induction false} CollectsIsCount(sent: seq<Send>)
    ensures Collects(sent) == |CollectsOf(sent)|
  {
    if sent != [] {
      var n := |sent| - 1;
      CollectsIsCount(sent[..n]);
      assert CollectsOf(sent) == CollectsOf(sent[..n]) + if sent[n].purpose == Collect then {n} else {};
    }
  }

  /**
   The next command, read off the reports: a collect exactly after a probe that
   succeeded; a probe at the start, after a lost probe unless that was the eighth in a
   row, and after a lost collect unless that was the third. Nothing else is followed.
   */
  lemma NextIff(sent: seq<Send>)
    requires sent != []
    ensures var last := sent[|sent| - 1];
            var lost := Reported(last, DeliveryTimedOut, -1) || Reported(last, Undeliverable, -1);
            && (Next(sent) == Some(Collect) <==> last.purpose == Probe && Reported(last, Success, 0))
            && (Next(sent) == Some(Probe) <==>
                  && lost
                  && ((last.purpose == Probe && !EndsInProbes(sent, 8))
                      || (last.purpose == Collect && |CollectsOf(sent)| < 3)))
            && Next(sent) != Some(Prepare)
  {
    ProbesInRowIff(sent, 8);
    CollectsIsCount(sent);
    LostIff(sent[|sent| - 1]);
    hide ProbesInRow, Collects, CollectsOf, EndsInProbes;
  }

  /** Nothing may follow: the last command was neither a successful probe nor provably lost below its limit. */
  ghost predicate Stopped(sent: seq<Send>) {
    && sent != []
    && var last := sent[|sent| - 1];
       && !(last.purpose == Probe && Reported(last, Success, 0))
       && (Reported(last, DeliveryTimedOut, -1) || Reported(last, Undeliverable, -1) ==>
             && (last.purpose == Probe ==> EndsInProbes(sent, 8))
             && (last.purpose == Collect ==> |CollectsOf(sent)| >= 3))
  }

  lemma StoppedIff(sent: seq<Send>)
    requires sent != []
    ensures Next(sent) == None <==> Stopped(sent)
  {
    NextIff(sent);
    hide Next, EndsInProbes, CollectsOf;
  }

  /** Whatever was followed by another command was seen to be lost, or was a probe seen to succeed. */
  lemma FollowedMeansReported(sent: seq<Send>, fates: nat -> Fate, i: nat)
    requires Permitted(sent, fates) && i + 1 < |sent|
    ensures var fate := fates(i);
            && fate.Observed? && !fate.journalRaises
            && ((fate.status, fate.response) == (DeliveryTimedOut, -1)
                || (fate.status, fate.response) == (Undeliverable, -1)
                || (sent[i].purpose == Probe && (fate.status, fate.response) == (Success, 0)))
  {
    assert Next(sent[..i + 1]) == Some(sent[i + 1].purpose);
    assert sent[..i + 1][i] == sent[i];
    NextIff(sent[..i + 1]);
    hide Next, EndsInProbes, CollectsOf;
  }

  // ----- what every collect action keeps -----

  /** Only a lost command or a successful probe is ever followed by another command. */
  lemma OnlySafeCommandsAreFollowed(sent: seq<Send>, fates: nat -> Fate, i: nat)
    requires Permitted(sent, fates) && i + 1 < |sent|
    ensures Returned(sent[i])
    ensures !MayHaveRun(sent[i]) || (sent[i].purpose == Probe && Reported(sent[i], Success, 0))
    ensures sent[i].purpose == Probe && Reported(sent[i], Success, 0) <==> sent[i + 1].purpose == Collect
  {
    assert Next(sent[..i + 1]) == Some(sent[i + 1].purpose);
    assert sent[..i + 1][i] == sent[i];
  }

  /** At most one collect may have run on the host, and nothing was sent after it. */
  lemma CollectRunsAtMostOnce(sent: seq<Send>, fates: nat -> Fate, i: nat)
    requires Permitted(sent, fates) && i < |sent|
    requires sent[i].purpose == Collect && MayHaveRun(sent[i])
    ensures i == |sent| - 1
    ensures forall j :: 0 <= j < |sent| && sent[j].purpose == Collect && MayHaveRun(sent[j]) ==> j == i
  {
    forall j | 0 <= j < |sent| && sent[j].purpose == Collect && MayHaveRun(sent[j]) ensures j == |sent| - 1 {
      if j + 1 < |sent| {
        OnlySafeCommandsAreFollowed(sent, fates, j);
      }
    }
  }

  /** Every collect comes directly after a probe that ran successfully. */
  lemma CollectFollowsProbe(sent: seq<Send>, fates: nat -> Fate, i: nat)
    requires Permitted(sent, fates) && i < |sent| && sent[i].purpose == Collect
    ensures i > 0 && sent[i - 1].purpose == Probe && Reported(sent[i - 1], Success, 0)
  {
    assert Next(sent[..i]) == Some(Collect);
    if i > 0 {
      OnlySafeCommandsAreFollowed(sent, fates, i - 1);
    }
  }

  lemma CountsGrow(sent: seq<Send>, send: Send)
    ensures ProbesInRow(sent + [send]) == if send.purpose == Probe then ProbesInRow(sent) + 1 else 0
    ensures Collects(sent + [send]) == Collects(sent) + if send.purpose == Collect then 1 else 0
  {
    assert (sent + [send])[..|sent|] == sent;
  }

  /** What a next command says about the counts so far. */
  lemma NextIsWithinBounds(sent: seq<Send>)
    requires Next(sent).Some?
    ensures Next(sent) != Some(Prepare)
    ensures Next(sent) == Some(Probe) ==> ProbesInRow(sent) < MAX_PROBES
    ensures Next(sent) == Some(Probe) && ProbesInRow(sent) == 0 ==> Collects(sent) < MAX_COLLECTIONS
    ensures Next(sent) == Some(Collect) ==> ProbesInRow(sent) > 0
  {
  }

  ghost predicate WithinBounds(sent: seq<Send>) {
    && Collects(sent) <= MAX_COLLECTIONS && ProbesInRow(sent) <= MAX_PROBES
    && (Collects(sent) == MAX_COLLECTIONS ==> ProbesInRow(sent) == 0)
    && |sent| <= 9 * Collects(sent) + ProbesInRow(sent)
  }

  lemma BoundsStep(sent: seq<Send>, send: Send)
    requires WithinBounds(sent) && Next(sent) == Some(send.purpose)
    ensures WithinBounds(sent + [send])
  {
    NextIsWithinBounds(sent);
    CountsGrow(sent, send);
    hide Next, ProbesInRow, Collects;
  }

  lemma LastIsPermitted(sent: seq<Send>, fates: nat -> Fate)
    requires Permitted(sent, fates) && sent != []
    ensures var n := |sent| - 1;
            && Next(sent[..n]) == Some(sent[n].purpose) && Permitted(sent[..n], fates)
            && sent == sent[..n] + [sent[n]]
  {
    PermittedPrefix(sent, fates, |sent| - 1);
  }

  lemma NothingIsWithinBounds()
    ensures WithinBounds([])
  {
  }

  lemma {:induction false} CommandsBounded(sent: seq<Send>, fates: nat -> Fate)
    requires Permitted(sent, fates)
    ensures WithinBounds(sent)
  {
    hide Next, WithinBounds, Permitted;
    if sent == [] {
      NothingIsWithinBounds();
    } else {
      LastIsPermitted(sent, fates);
      var front, last := sent[..|sent| - 1], sent[|sent| - 1];
      CommandsBounded(front, fates);
      BoundsStep(front, last);
    }
  }

  /** A collect action sends at most 27 commands. */
  lemma AtMostTwentySeven(sent: seq<Send>, fates: nat -> Fate)
    requires Permitted(sent, fates)
    ensures |sent| <= 27
  {
    CommandsBounded(sent, fates);
  }

  /** The worst case: seven lost probes, one that succeeds, a lost collect, and so on. */
  function LossyFate(k: nat): Fate {
    if k % 9 == 7 then Observed(k, Success, 0, false) else Observed(k, DeliveryTimedOut, -1, false)
  }

  function LossySends(n: nat): (sent: seq<Send>)
    ensures |sent| == n
    ensures forall k :: 0 <= k < n ==> sent[k] == Send(if k % 9 == 8 then Collect else Probe, LossyFate(k))
  {
    seq(n, (k: nat) => Send(if k % 9 == 8 then Collect else Probe, LossyFate(k)))
  }

  lemma NextInWorstCase(n: nat)
    requires n < 27 && ProbesInRow(LossySends(n)) == n % 9 && Collects(LossySends(n)) == n / 9
    ensures Next(LossySends(n)) == Some(if n % 9 == 8 then Collect else Probe)
  {
    hide ProbesInRow, Collects;
    if n > 0 {
      var last := LossySends(n)[n - 1];
      assert last == Send(if (n - 1) % 9 == 8 then Collect else Probe, LossyFate(n - 1));
    }
  }

  lemma LossySendsGrow(n: nat)
    requires n > 0
    ensures LossySends(n)[..n - 1] == LossySends(n - 1)
    ensures LossySends(n) == LossySends(n - 1) + [Send(if (n - 1) % 9 == 8 then Collect else Probe, LossyFate(n - 1))]
  {
  }

  lemma {:induction false} WorstCase(n: nat)
    requires n <= 27
    ensures Permitted(LossySends(n), LossyFate)
    ensures ProbesInRow(LossySends(n)) == n % 9 && Collects(LossySends(n)) == n / 9
  {
    hide Next, LossySends, LossyFate, Permitted, ProbesInRow, Collects;
    if n == 0 {
      NothingSent(LossyFate);
    } else {
      WorstCase(n - 1);
      LossySendsGrow(n);
      NextInWorstCase(n - 1);
      var purpose := if (n - 1) % 9 == 8 then Collect else Probe;
      CountsGrow(LossySends(n - 1), Send(purpose, LossyFate(n - 1)));
      PermittedExtend(LossySends(n - 1), LossyFate, purpose);
    }
  }

  lemma NothingSent(fates: nat -> Fate)
    ensures Permitted([], fates) && LossySends(0) == [] && ProbesInRow([]) == 0 && Collects([]) == 0
    ensures Next([]) == Some(Probe)
  {
  }

  /** The bound is sharp. */
  lemma TwentySevenIsReached()
    ensures exists sent :: Permitted(sent, LossyFate) && |sent| == 27
  {
    WorstCase(27);
    assert |LossySends(27)| == 27;
  }

  lemma {:induction false} AllAreNoted(sent: seq<Send>)
    requires forall i :: 0 <= i < |sent| ==> !sent[i].fate.SubmissionRaised?
    ensures |AttemptsOf(sent)| == |sent|
    ensures forall i :: 0 <= i < |sent| ==> AttemptsOf(sent)[i] == Noted(sent[i])
  {
    hide Noted;
    if sent != [] {
      AllAreNoted(sent[..|sent| - 1]);
    }
  }

  /** Only the last command can be missing from the attempts: the one whose submission raised. */
  lemma AttemptsAreNoted(sent: seq<Send>, fates: nat -> Fate)
    requires Permitted(sent, fates) && sent != []
    ensures var last := sent[|sent| - 1];
            |AttemptsOf(sent)| == if last.fate.SubmissionRaised? then |sent| - 1 else |sent|
    ensures forall i :: 0 <= i < |AttemptsOf(sent)| ==>
              !sent[i].fate.SubmissionRaised? && AttemptsOf(sent)[i] == Noted(sent[i])
  {
    hide Permitted, Noted, AttemptsOf, NeverDelivered, Succeeded;
    var n := |sent| - 1;
    forall i | 0 <= i < n ensures !sent[i].fate.SubmissionRaised? {
      OnlySafeCommandsAreFollowed(sent, fates, i);
    }
    AllAreNoted(sent[..n]);
    AttemptsGrow(sent[..n], sent[n]);
    assert sent[..n] + [sent[n]] == sent;
  }

  /** What the evidence file can show: every noted collect but the last attempt was provably lost. */
  lemma NotedCollectsAreLost(sent: seq<Send>, fates: nat -> Fate, i: nat)
    requires Permitted(sent, fates) && i + 1 < |AttemptsOf(sent)|
    requires AttemptsOf(sent)[i].purpose == Collect
    ensures AttemptsOf(sent)[i].response == Some(-1)
    ensures AttemptsOf(sent)[i].status == DeliveryTimedOut || AttemptsOf(sent)[i].status == Undeliverable
  {
    assert sent != [];
    AttemptsAreNoted(sent, fates);
    OnlySafeCommandsAreFollowed(sent, fates, i);
  }

  // ----- the controllers -----

  /** The attempts list shared by the retry loops, and the commands given to the channel. */
  class Channel {
    const fates: nat -> Fate
    var sent: seq<Send>
    var attempts: seq<Attempt>

    constructor (fates: nat -> Fate)
      ensures this.fates == fates && Valid() && sent == []
    {
      this.fates, sent, attempts := fates, [], [];
    }

    ghost predicate Valid()
      reads this
    {
      attempts == AttemptsOf(sent)
    }

    /** Submit, note, and observe one command; None when any of these raised. */
    method Execute(purpose: Purpose) returns (attempt: Option<Attempt>)
      requires Valid()
      modifies this
      ensures Valid()
      ensures sent == old(sent) + [Send(purpose, fates(|old(sent)|))]
      ensures var send := sent[|sent| - 1];
              attempt == if Returned(send) then Some(Noted(send)) else None
      ensures attempts == old(attempts) + match fates(|old(sent)|)
                                          case SubmissionRaised => []
                                          case JournalRaised(c) => [Attempt(purpose, c, Submitted, None)]
                                          case WaitRaised(c) => [Attempt(purpose, c, Submitted, None)]
                                          case Observed(c, status, r, _) => [Attempt(purpose, c, status, Some(r))]
    {
      hide AttemptsOf, NeverDelivered, Succeeded;
      var fate := fates(|sent|);
      AttemptsGrow(sent, Send(purpose, fate));
      sent := sent + [Send(purpose, fate)];
      if fate.SubmissionRaised? {
        return None;
      }
      var submitted := Attempt(purpose, fate.command, Submitted, None);
      attempts := attempts + [submitted];
      if !fate.Observed? {
        return None;
      }
      var completed := submitted.(status := fate.status, response := Some(fate.response));
      attempts := attempts[|attempts| - 1 := completed];
      if fate.journalRaises {
        return None;
      }
      return Some(completed);
    }
  }

  /** Where one more probe leaves the policy. */
  lemma AfterProbe(before: seq<Send>, send: Send)
    requires send.purpose == Probe
    ensures ProbesInRow(before + [send]) == ProbesInRow(before) + 1 && Collects(before + [send]) == Collects(before)
    ensures Next(before + [send]) ==
            if !Returned(send) then None
            else if Succeeded(Noted(send)) then Some(Collect)
            else if NeverDelivered(Noted(send)) && ProbesInRow(before) + 1 < MAX_PROBES then Some(Probe)
            else None
    ensures Returned(send) && Succeeded(Noted(send)) <==> Reported(send, Success, 0)
  {
    CountsGrow(before, send);
    LostIff(send);
    hide ProbesInRow, Collects, MayHaveRun, NeverDelivered;
  }

  /** Where a collect leaves the policy. */
  lemma AfterCollect(before: seq<Send>, send: Send)
    requires send.purpose == Collect
    ensures ProbesInRow(before + [send]) == 0 && Collects(before + [send]) == Collects(before) + 1
    ensures Next(before + [send]) ==
            if Returned(send) && NeverDelivered(Noted(send)) && Collects(before) + 1 < MAX_COLLECTIONS then Some(Probe)
            else None
    ensures Returned(send) && Succeeded(Noted(send)) <==> Reported(send, Success, 0)
    ensures Returned(send) && NeverDelivered(Noted(send)) ==> !Reported(send, Success, 0)
    ensures Returned(send) ==> Noted(send).command == send.fate.command
  {
    CountsGrow(before, send);
    LostIff(send);
    hide ProbesInRow, Collects, MayHaveRun;
  }

  /** Probe until the host executes one; false when the gate raised instead. */
  method WaitForRecovery(channel: Channel) returns (recovered: bool)
    requires channel.Valid() && Permitted(channel.sent, channel.fates)
    requires Next(channel.sent) == Some(Probe) && ProbesInRow(channel.sent) == 0
    modifies channel
    ensures channel.Valid() && Permitted(channel.sent, channel.fates)
    ensures Next(channel.sent) == if recovered then Some(Collect) else None
    ensures Collects(channel.sent) == old(Collects(channel.sent))
    ensures channel.sent != [] && channel.sent[|channel.sent| - 1].purpose == Probe
    ensures recovered <==> Reported(channel.sent[|channel.sent| - 1], Success, 0)
    ensures !recovered ==> Stopped(channel.sent)
  {
    hide Stopped, Next, ProbesInRow, Collects, Permitted, Returned, Noted, Succeeded, NeverDelivered, Reported;
    for probe := 0 to MAX_PROBES
      invariant channel.Valid() && Permitted(channel.sent, channel.fates)
      invariant Next(channel.sent) == Some(Probe) && ProbesInRow(channel.sent) == probe
      invariant Collects(channel.sent) == old(Collects(channel.sent))
    {
      ghost var before := channel.sent;
      PermittedExtend(before, channel.fates, Probe);
      AfterProbe(before, Send(Probe, channel.fates(|before|)));
      StoppedIff(before + [Send(Probe, channel.fates(|before|))]);
      var attempt := channel.Execute(Probe);
      if attempt.None? {
        return false;
      }
      if Succeeded(attempt.value) {
        return true;
      }
      if !NeverDelivered(attempt.value) || probe == MAX_PROBES - 1 {
        return false;
      }
    }
    NextIsWithinBounds(channel.sent);
    assert false;
    recovered := false;
  }

  /** A prepare action sends its one command and never repeats it. */
  method RunPrepare(channel: Channel) returns (prepared: bool)
    requires channel.Valid() && channel.sent == []
    modifies channel
    ensures channel.Valid() && channel.sent == [Send(Prepare, channel.fates(0))]
    ensures prepared <==> Reported(channel.sent[0], Success, 0)
  {
    var attempt := channel.Execute(Prepare);
    prepared := attempt.Some? && Succeeded(attempt.value);
  }

  /** The command whose output becomes evidence, or None when the action raised. */
  method RunCollect(channel: Channel) returns (evidence: Option<nat>)
    requires channel.Valid() && channel.sent == []
    modifies channel
    ensures channel.Valid() && channel.sent != []
    ensures Permitted(channel.sent, channel.fates) && Stopped(channel.sent)
    ensures var last := channel.sent[|channel.sent| - 1];
            evidence == if last.purpose == Collect && Reported(last, Success, 0)
                        then Some(last.fate.command) else None
  {
    hide Next, ProbesInRow, Collects, Permitted, Returned, Noted, Succeeded, NeverDelivered, Reported, Stopped;
    NothingSent(channel.fates);
    for collection := 0 to MAX_COLLECTIONS
      invariant channel.Valid() && Permitted(channel.sent, channel.fates)
      invariant Next(channel.sent) == Some(Probe) && ProbesInRow(channel.sent) == 0
      invariant Collects(channel.sent) == collection
    {
      var recovered := WaitForRecovery(channel);
      if !recovered {
        return None;
      }
      ghost var before := channel.sent;
      PermittedExtend(before, channel.fates, Collect);
      AfterCollect(before, Send(Collect, channel.fates(|before|)));
      StoppedIff(before + [Send(Collect, channel.fates(|before|))]);
      var attempt := channel.Execute(Collect);
      if attempt.None? {
        return None;
      }
      if Succeeded(attempt.value) {
        return Some(attempt.value.command);
      }
      if !NeverDelivered(attempt.value) || collection == MAX_COLLECTIONS - 1 {
        return None;
      }
    }
    NextIsWithinBounds(channel.sent);
    assert false;
    evidence := None;
  }
}
