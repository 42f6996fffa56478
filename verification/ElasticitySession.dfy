/**
 One elasticity session: six phases in order, one shared cleanup owner that
 nested controllers may call at any time, and a report only after teardown.
 */
module ElasticitySession {
  import opened Wrappers

  // ----- cleanup ownership -----

  datatype ExternalCall = Diagnostics | Destroyer | Verifier

  datatype CleanupError = IdentityChanged | DestroyRaised | VerifyRaised | NotJournaledVerified

  datatype VerifierOutcome = JournaledVerified | JournaledOtherwise | Raised

  /** How each collaborator of the cleanup behaves when it is reached. */
  datatype Collaborators = Collaborators(diagnosticsRaise: bool, destroyerRaises: bool, verifier: VerifierOutcome)

  /** What the owner remembers, and the collaborators it has called. */
  datatype Cleanup = Cleanup(
    destroyAttempted: bool,
    verifyAttempted: bool,
    errors: seq<CleanupError>,
    diagnosticErrors: nat,
    calls: seq<ExternalCall>)

  const FRESH := Cleanup(false, false, [], 0, [])

  /** A nested controller asking for cleanup on behalf of a session. */
  datatype Request = DestroyRequest(session: nat) | VerifyRequest(session: nat)

  function DestroyErrors(own: bool, world: Collaborators): seq<CleanupError> {
    if !own then [IdentityChanged] else if world.destroyerRaises then [DestroyRaised] else []
  }

  function VerifyErrors(own: bool, world: Collaborators): seq<CleanupError> {
    if !own then [IdentityChanged]
    else match world.verifier
      case Raised => [VerifyRaised]
      case JournaledOtherwise => [NotJournaledVerified]
      case JournaledVerified => []
  }

  function DestroyCalls(own: bool): seq<ExternalCall> {
    if own then [Diagnostics, Destroyer] else []
  }

  function VerifyCalls(own: bool): seq<ExternalCall> {
    if own then [Verifier] else []
  }

  function AfterDestroy(c: Cleanup, own: bool, world: Collaborators): Cleanup {
    if c.destroyAttempted then c
    else c.(destroyAttempted := true,
            errors := c.errors + DestroyErrors(own, world),
            diagnosticErrors := c.diagnosticErrors + if own && world.diagnosticsRaise then 1 else 0,
            calls := c.calls + DestroyCalls(own))
  }

  function AfterVerify(c: Cleanup, own: bool, world: Collaborators): Cleanup {
    if c.verifyAttempted then c
    else c.(verifyAttempted := true,
            errors := c.errors + VerifyErrors(own, world),
            calls := c.calls + VerifyCalls(own))
  }

  function AfterRequest(c: Cleanup, session: nat, world: Collaborators, request: Request): Cleanup {
    match request
    case DestroyRequest(s) => AfterDestroy(c, s == session, world)
    case VerifyRequest(s) => AfterVerify(c, s == session, world)
  }

  function AfterRequests(session: nat, world: Collaborators, requests: seq<Request>): Cleanup {
    if requests == [] then FRESH
    else AfterRequest(AfterRequests(session, world, requests[..|requests| - 1]), session, world,
                      requests[|requests| - 1])
  }

  function Finished(c: Cleanup, world: Collaborators): Cleanup {
    AfterVerify(AfterDestroy(c, true, world), true, world)
  }

  lemma OneMoreServed(session: nat, world: Collaborators, earlier: seq<Request>, requests: seq<Request>, i: nat)
    requires i < |requests|
    ensures AfterRequests(session, world, earlier + requests[..i + 1])
            == AfterRequest(AfterRequests(session, world, earlier + requests[..i]), session, world, requests[i])
  {
    var all := earlier + requests[..i + 1];
    assert all[..|all| - 1] == earlier + requests[..i];
  }

  /** Share one destroy and one verify attempt across outer and nested controllers. */
  class CleanupOwner {
    const session: nat
    const world: Collaborators
    var destroyAttempted: bool
    var verifyAttempted: bool
    var errors: seq<CleanupError>
    var diagnosticErrors: nat
    var calls: seq<ExternalCall>

    constructor (session: nat, world: Collaborators)
      ensures this.session == session && this.world == world && State() == FRESH
    {
      this.session, this.world := session, world;
      destroyAttempted, verifyAttempted, errors, diagnosticErrors, calls := false, false, [], 0, [];
    }

    function State(): Cleanup
      reads this
    {
      Cleanup(destroyAttempted, verifyAttempted, errors, diagnosticErrors, calls)
    }

    /** An error is remembered before it is raised to the caller. */
    method Destroy(requested: nat) returns (raised: Option<CleanupError>)
      modifies this
      ensures State() == AfterDestroy(old(State()), requested == session, world)
      ensures raised.Some? ==> errors == old(errors) + [raised.value]
      ensures raised.None? ==> errors == old(errors)
    {
      if destroyAttempted {
        return None;
      }
      destroyAttempted := true;
      if requested != session {
        raised := Some(IdentityChanged);
      } else {
        calls := calls + [Diagnostics];
        if world.diagnosticsRaise {
          diagnosticErrors := diagnosticErrors + 1;
        }
        calls := calls + [Destroyer];
        raised := if world.destroyerRaises then Some(DestroyRaised) else None;
      }
      if raised.Some? {
        errors := errors + [raised.value];
      }
    }

    method Verify(requested: nat) returns (raised: Option<CleanupError>)
      modifies this
      ensures State() == AfterVerify(old(State()), requested == session, world)
      ensures raised.Some? ==> errors == old(errors) + [raised.value]
      ensures raised.None? ==> errors == old(errors)
    {
      if verifyAttempted {
        return None;
      }
      verifyAttempted := true;
      if requested != session {
        raised := Some(IdentityChanged);
      } else {
        calls := calls + [Verifier];
        match world.verifier {
          case Raised => raised := Some(VerifyRaised);
          case JournaledOtherwise => raised := Some(NotJournaledVerified);
          case JournaledVerified => raised := None;
        }
      }
      if raised.Some? {
        errors := errors + [raised.value];
      }
    }

    /** Attempt both, whatever either raises: each remembers its own error. */
    method Finish()
      modifies this
      ensures State() == Finished(old(State()), world)
    {
      var raised := Destroy(session);
      assert raised.Some? ==> raised.value in errors;
      raised := Verify(session);
      assert raised.Some? ==> raised.value in errors;
    }

    /** A nested controller works through its requests, keeping going when one raises. */
    method Serve(requests: seq<Request>, ghost earlier: seq<Request>)
      requires State() == AfterRequests(session, world, earlier)
      modifies this
      ensures State() == AfterRequests(session, world, earlier + requests)
    {
      hide AfterDestroy, AfterVerify;
      assert earlier + requests[..0] == earlier;
      for i := 0 to |requests|
        invariant State() == AfterRequests(session, world, earlier + requests[..i])
      {
        OneMoreServed(session, world, earlier, requests, i);
        var raised;
        match requests[i] {
          case DestroyRequest(s) => raised := Destroy(s);
          case VerifyRequest(s) => raised := Verify(s);
        }
      }
      assert earlier + requests[..|requests|] == earlier + requests;
    }
  }

  // ----- what any sequence of requests amounts to -----

  predicate IsFor(request: Request, destroy: bool) {
    request.DestroyRequest? == destroy
  }

  /** The session named by the first request of a kind, if there is one. */
  function FirstNamed(requests: seq<Request>, destroy: bool): Option<nat> {
    if requests == [] then None
    else if IsFor(requests[0], destroy) then Some(requests[0].session)
    else FirstNamed(requests[1..], destroy)
  }

  lemma {:induction false} FirstNamedMeans(requests: seq<Request>, destroy: bool, i: nat)
    requires i < |requests| && IsFor(requests[i], destroy)
    requires forall j :: 0 <= j < i ==> !IsFor(requests[j], destroy)
    ensures FirstNamed(requests, destroy) == Some(requests[i].session)
  {
    if i > 0 {
      FirstNamedMeans(requests[1..], destroy, i - 1);
    }
  }

  lemma {:induction false} FirstNamedGrows(requests: seq<Request>, request: Request, destroy: bool)
    ensures FirstNamed(requests + [request], destroy) ==
            if FirstNamed(requests, destroy).Some? then FirstNamed(requests, destroy)
            else if IsFor(request, destroy) then Some(request.session) else None
  {
    if requests == [] {
      assert ([] + [request])[1..] == [];
    } else {
      assert (requests + [request])[1..] == requests[1..] + [request];
      FirstNamedGrows(requests[1..], request, destroy);
    }
  }

  /** Some controller asked to verify before anyone asked to destroy. */
  predicate VerifyComesFirst(requests: seq<Request>) {
    |requests| > 0 && requests[0].VerifyRequest?
  }

  function Ordered<T>(verifyFirst: bool, destroy: seq<T>, verify: seq<T>): seq<T> {
    if verifyFirst then verify + destroy else destroy + verify
  }

  lemma OrderedGrows<T>(verifyFirst: bool, destroy: seq<T>, verify: seq<T>)
    ensures verifyFirst || verify == [] ==> Ordered(verifyFirst, [], verify) + destroy == Ordered(verifyFirst, destroy, verify)
    ensures !verifyFirst || destroy == [] ==> Ordered(verifyFirst, destroy, []) + verify == Ordered(verifyFirst, destroy, verify)
  {
    assert verify + [] == verify && destroy + [] == destroy && [] + verify == verify;
  }

  /** The calls and errors that follow from which session each kind was first requested for. */
  function CallsDecided(verifyFirst: bool, session: nat, d: Option<nat>, v: Option<nat>): seq<ExternalCall> {
    Ordered(verifyFirst,
            if d.Some? then DestroyCalls(d.value == session) else [],
            if v.Some? then VerifyCalls(v.value == session) else [])
  }

  function ErrorsDecided(verifyFirst: bool, session: nat, d: Option<nat>, v: Option<nat>, world: Collaborators)
    : seq<CleanupError>
  {
    Ordered(verifyFirst,
            if d.Some? then DestroyErrors(d.value == session, world) else [],
            if v.Some? then VerifyErrors(v.value == session, world) else [])
  }

  ghost predicate Decided(c: Cleanup, session: nat, world: Collaborators,
                          verifyFirst: bool, d: Option<nat>, v: Option<nat>) {
    && c.destroyAttempted == d.Some? && c.verifyAttempted == v.Some?
    && c.calls == CallsDecided(verifyFirst, session, d, v)
    && c.errors == ErrorsDecided(verifyFirst, session, d, v, world)
    && (if verifyFirst then v.Some? else v.Some? ==> d.Some?)
  }

  lemma DestroyDecides(c: Cleanup, session: nat, world: Collaborators, vf: bool, v: Option<nat>, s: nat)
    requires Decided(c, session, world, vf, None, v)
    ensures Decided(AfterDestroy(c, s == session, world), session, world, vf, Some(s), v)
  {
    hide DestroyCalls, VerifyCalls, DestroyErrors, VerifyErrors;
    OrderedGrows(vf, DestroyCalls(s == session), if v.Some? then VerifyCalls(v.value == session) else []);
    OrderedGrows(vf, DestroyErrors(s == session, world), if v.Some? then VerifyErrors(v.value == session, world) else []);
  }

  lemma VerifyDecides(c: Cleanup, session: nat, world: Collaborators, d: Option<nat>, s: nat)
    requires Decided(c, session, world, false, d, None)
    ensures Decided(AfterVerify(c, s == session, world), session, world, d.None?, d, Some(s))
  {
    hide DestroyCalls, VerifyCalls, DestroyErrors, VerifyErrors;
    OrderedGrows(d.None?, if d.Some? then DestroyCalls(d.value == session) else [], VerifyCalls(s == session));
    OrderedGrows(d.None?, if d.Some? then DestroyErrors(d.value == session, world) else [], VerifyErrors(s == session, world));
  }

  /** Whatever controllers ask for, only the first request of each kind has an effect. */
  lemma {:induction false} RequestsDecide(session: nat, world: Collaborators, requests: seq<Request>)
    ensures Decided(AfterRequests(session, world, requests), session, world,
                    VerifyComesFirst(requests), FirstNamed(requests, true), FirstNamed(requests, false))
  {
    hide AfterDestroy, AfterVerify, FirstNamed, Decided;
    if requests == [] {
      NothingDecided(session, world);
    } else {
      var front, last := requests[..|requests| - 1], requests[|requests| - 1];
      assert requests == front + [last];
      RequestsDecide(session, world, front);
      FirstNamedGrows(front, last, true);
      FirstNamedGrows(front, last, false);
      var c := AfterRequests(session, world, front);
      var vf, d, v := VerifyComesFirst(front), FirstNamed(front, true), FirstNamed(front, false);
      RequestsAsked(front);
      AttemptedMeans(c, session, world, vf, d, v);
      if d.None? && last.DestroyRequest? {
        DestroyDecides(c, session, world, vf, v, last.session);
      } else if v.None? && last.VerifyRequest? {
        VerifyDecides(c, session, world, d, last.session);
      } else {
        AlreadyAttempted(c, session, world, last);
      }
    }
  }

  lemma NothingDecided(session: nat, world: Collaborators)
    ensures FirstNamed([], true) == None && FirstNamed([], false) == None
    ensures Decided(FRESH, session, world, false, None, None)
  {
  }

  lemma AttemptedMeans(c: Cleanup, session: nat, world: Collaborators, vf: bool, d: Option<nat>, v: Option<nat>)
    requires Decided(c, session, world, vf, d, v)
    ensures c.destroyAttempted == d.Some? && c.verifyAttempted == v.Some?
    ensures if vf then v.Some? else v.Some? ==> d.Some?
  {
  }

  lemma RequestsAsked(requests: seq<Request>)
    ensures requests != [] ==> FirstNamed(requests, !VerifyComesFirst(requests)).Some?
  {
    if requests != [] {
      assert IsFor(requests[0], !VerifyComesFirst(requests));
    }
  }

  lemma AlreadyAttempted(c: Cleanup, session: nat, world: Collaborators, request: Request)
    requires if request.DestroyRequest? then c.destroyAttempted else c.verifyAttempted
    ensures AfterRequest(c, session, world, request) == c
  {
  }

  /** Nobody named another session in the request that counted. */
  predicate OwnRequests(requests: seq<Request>, session: nat, destroy: bool) {
    var first := FirstNamed(requests, destroy);
    first.None? || first.value == session
  }

  /**
   After finish, each of destroy and verify has been attempted, and was invoked
   exactly once unless the first request for it named another session.
   Destroy goes first unless a controller asked to verify before any destroy.
   */
  lemma CleanupRunsOnce(session: nat, world: Collaborators, requests: seq<Request>)
    ensures var c := Finished(AfterRequests(session, world, requests), world);
            var d, v := OwnRequests(requests, session, true), OwnRequests(requests, session, false);
            && c.destroyAttempted && c.verifyAttempted
            && c.calls == Ordered(VerifyComesFirst(requests), DestroyCalls(d), VerifyCalls(v))
            && c.errors == Ordered(VerifyComesFirst(requests), DestroyErrors(d, world), VerifyErrors(v, world))
  {
    hide AfterDestroy, AfterVerify, FirstNamed, DestroyCalls, VerifyCalls, DestroyErrors, VerifyErrors, Ordered;
    RequestsDecide(session, world, requests);
    RequestsAsked(requests);
    var c := AfterRequests(session, world, requests);
    var vf, d, v := VerifyComesFirst(requests), FirstNamed(requests, true), FirstNamed(requests, false);
    if requests == [] {
      NothingDecided(session, world);
    }
    var destroyed := AfterDestroy(c, true, world);
    if d.None? {
      DestroyDecides(c, session, world, vf, v, session);
      d := Some(session);
    } else {
      AlreadyAttempted(c, session, world, DestroyRequest(session));
    }
    if v.None? {
      VerifyDecides(destroyed, session, world, d, session);
    } else {
      AlreadyAttempted(destroyed, session, world, VerifyRequest(session));
    }
  }

  /** The shipped controllers: destroy, then verify, always with the session they were given. */
  predicate Disciplined(requests: seq<Request>, session: nat) {
    forall i :: 0 <= i < |requests| ==>
      requests[i] == if i % 2 == 0 then DestroyRequest(session) else VerifyRequest(session)
  }

  lemma {:induction false} DisciplinedNamesOwn(requests: seq<Request>, session: nat, destroy: bool)
    requires forall r :: r in requests ==> r.session == session
    ensures OwnRequests(requests, session, destroy)
  {
    if requests != [] {
      DisciplinedNamesOwn(requests[1..], session, destroy);
    }
  }

  /** However many disciplined controllers clean up, and whatever raises, the outside sees this once. */
  lemma DisciplinedCleanup(session: nat, world: Collaborators, requests: seq<Request>)
    requires Disciplined(requests, session)
    ensures Finished(AfterRequests(session, world, requests), world).calls == [Diagnostics, Destroyer, Verifier]
  {
    DisciplinedNamesOwn(requests, session, true);
    DisciplinedNamesOwn(requests, session, false);
    CleanupRunsOnce(session, world, requests);
  }

  // ----- the session -----

  datatype PhaseName = Foundation | Deployment | Fixed | Reset | Transition | Elastic

  const PHASES := [Foundation, Deployment, Fixed, Reset, Transition, Elastic]

  /** What happens in one phase: its journal write, the nested action, and the checkpoint it leaves. */
  datatype Phase = Phase(journalRaises: bool, requests: seq<Request>, actionRaises: bool, checkpointReached: bool)

  datatype WorkflowError =
    | JournalRaised(phase: PhaseName)
    | ActionRaised(phase: PhaseName)
    | CheckpointMissed(phase: PhaseName)
    | FinalJournalRaised
    | SummaryNotRecorded

  /** What happens after cleanup. */
  datatype Ending = Ending(journalRaises: bool, manifestUnreadable: bool, summaryRecorded: bool, reporterRaises: bool)

  datatype Outcome =
    | Refused
    | Report
    | ManifestError
    | SessionError(workflow: Option<WorkflowError>, cleanup: seq<CleanupError>, reportRaised: bool)

  predicate Passes(phase: Phase) {
    !phase.journalRaises && !phase.actionRaises && phase.checkpointReached
  }

  /** The number of phases completed before the first failure. */
  function CompletedCount(script: seq<Phase>): (n: nat)
    ensures n <= |script|
    ensures forall i :: 0 <= i < n ==> Passes(script[i])
    ensures n < |script| ==> !Passes(script[n])
  {
    if script == [] || !Passes(script[0]) then 0 else 1 + CompletedCount(script[1..])
  }

  function FailureOf(phase: Phase, name: PhaseName): Option<WorkflowError> {
    if phase.journalRaises then Some(JournalRaised(name))
    else if phase.actionRaises then Some(ActionRaised(name))
    else if !phase.checkpointReached then Some(CheckpointMissed(name))
    else None
  }

  /** The cleanup requests of every phase action that ran. */
  function RequestsMade(script: seq<Phase>): seq<Request> {
    if script == [] || script[0].journalRaises then []
    else script[0].requests + if Passes(script[0]) then RequestsMade(script[1..]) else []
  }

  lemma PassingRuns(phase: Phase)
    requires Passes(phase)
    ensures !phase.journalRaises
  {
  }

  lemma {:induction false} RequestsOfPrefix(script: seq<Phase>, n: nat)
    requires n < |script| && forall i :: 0 <= i < n ==> Passes(script[i])
    ensures RequestsMade(script[..n + 1]) ==
            if script[n].journalRaises then RequestsMade(script[..n]) else RequestsMade(script[..n]) + script[n].requests
  {
    if n == 0 {
      assert script[..1][1..] == [] && script[..0] == [];
    } else {
      hide Passes;
      assert Passes(script[0]) && !script[0].journalRaises by { PassingRuns(script[0]); }
      assert script[..n + 1][0] == script[0] && script[..n][0] == script[0];
      assert script[..n + 1][1..] == script[1..][..n] && script[..n][1..] == script[1..][..n - 1];
      RequestsOfPrefix(script[1..], n - 1);
      assert script[1..][n - 1] == script[n];
    }
  }

  /** Nothing after the first failing phase is run. */
  lemma {:induction false} FailureStopsScript(script: seq<Phase>, n: nat)
    requires n < |script| && !Passes(script[n]) && forall i :: 0 <= i < n ==> Passes(script[i])
    ensures CompletedCount(script) == n && RequestsMade(script) == RequestsMade(script[..n + 1])
  {
    if n > 0 {
      FailureStopsScript(script[1..], n - 1);
      assert script[..n + 1][1..] == script[1..][..n];
    }
  }

  /** How the run ends once cleanup has finished. */
  function OutcomeOf(workflow: Option<WorkflowError>, cleanup: seq<CleanupError>, ending: Ending): Outcome {
    if ending.journalRaises then
      SessionError(if workflow.Some? then workflow else Some(FinalJournalRaised), cleanup, false)
    else if cleanup != [] then SessionError(workflow, cleanup, false)
    else if ending.manifestUnreadable then ManifestError
    else if workflow.Some? || (ending.summaryRecorded && ending.reporterRaises) then
      SessionError(workflow, [], ending.summaryRecorded && ending.reporterRaises)
    else if !ending.summaryRecorded then SessionError(Some(SummaryNotRecorded), [], false)
    else Report
  }

  /** The error of the first failing phase. */
  function WorkflowErrorOf(script: seq<Phase>): Option<WorkflowError>
    requires |script| == |PHASES|
  {
    var n := CompletedCount(script);
    if n == |PHASES| then None else FailureOf(script[n], PHASES[n])
  }

  lemma NothingRequested(session: nat, world: Collaborators)
    ensures RequestsMade([]) == [] && AfterRequests(session, world, []) == FRESH
  {
  }

  /** Run the phases until one fails, serving the cleanup requests each action makes. */
  method RunPhases(script: seq<Phase>, cleanup: CleanupOwner)
    returns (completed: seq<PhaseName>, workflow: Option<WorkflowError>)
    requires |script| == |PHASES| && cleanup.State() == FRESH
    modifies cleanup
    ensures completed == PHASES[..CompletedCount(script)]
    ensures workflow == WorkflowErrorOf(script)
    ensures cleanup.State() == AfterRequests(cleanup.session, cleanup.world, RequestsMade(script))
  {
    hide AfterRequests, RequestsMade, CompletedCount, FRESH, CleanupOwner.State;
    NothingRequested(cleanup.session, cleanup.world);
    assert script[..0] == [];
    completed, workflow := [], None;
    var n := 0;
    while n < |PHASES|
      invariant 0 <= n <= |PHASES| && completed == PHASES[..n]
      invariant forall i :: 0 <= i < n ==> Passes(script[i])
      invariant cleanup.State() == AfterRequests(cleanup.session, cleanup.world, RequestsMade(script[..n]))
    {
      var phase := script[n];
      RequestsOfPrefix(script, n);
      if !Passes(phase) {
        FailureStopsScript(script, n);
      }
      if phase.journalRaises {
        return completed, Some(JournalRaised(PHASES[n]));
      }
      cleanup.Serve(phase.requests, RequestsMade(script[..n]));
      if phase.actionRaises {
        return completed, Some(ActionRaised(PHASES[n]));
      }
      if !phase.checkpointReached {
        return completed, Some(CheckpointMissed(PHASES[n]));
      }
      completed := completed + [PHASES[n]];
      n := n + 1;
    }
    AllPhasesPass(script);
    assert script[..n] == script;
  }

  lemma {:induction false} AllPhasesPass(script: seq<Phase>)
    requires forall i :: 0 <= i < |script| ==> Passes(script[i])
    ensures CompletedCount(script) == |script|
  {
  }

  /** Run once, clean up once, and render only after absence is established. */
  method RunElasticitySession(approved: bool, session: nat, script: seq<Phase>, world: Collaborators, ending: Ending)
    returns (outcome: Outcome, completed: seq<PhaseName>, cleanup: CleanupOwner)
    requires |script| == |PHASES|
    ensures !approved ==> outcome == Refused && completed == [] && cleanup.State() == FRESH
    ensures approved ==>
              && completed == PHASES[..CompletedCount(script)]
              && cleanup.State() == Finished(AfterRequests(session, world, RequestsMade(script)), world)
              && outcome == OutcomeOf(WorkflowErrorOf(script), cleanup.errors, ending)
              && EndsAs(script, ending, cleanup.errors, outcome)
  {
    hide EndsAs, WorkflowErrorOf;
    cleanup := new CleanupOwner(session, world);
    if !approved {
      return Refused, [], cleanup;
    }
    var workflow;
    completed, workflow := RunPhases(script, cleanup);
    cleanup.Finish();
    FailuresAreNotHidden(script, ending, cleanup.errors);
    if ending.journalRaises {
      outcome := SessionError(if workflow.Some? then workflow else Some(FinalJournalRaised), cleanup.errors, false);
      return;
    }
    if cleanup.errors != [] {
      outcome := SessionError(workflow, cleanup.errors, false);
      return;
    }
    if ending.manifestUnreadable {
      outcome := ManifestError;
      return;
    }
    var rendered, reportRaised := false, false;
    if ending.summaryRecorded {
      rendered, reportRaised := !ending.reporterRaises, ending.reporterRaises;
    }
    if workflow.Some? || reportRaised {
      outcome := SessionError(workflow, [], reportRaised);
    } else if !rendered {
      outcome := SessionError(Some(SummaryNotRecorded), [], false);
    } else {
      outcome := Report;
    }
  }

  /**
   A report is returned exactly when every phase completed in order, cleanup named
   only this session and raised nothing, absence was journaled as verified, and the
   final journal, the recorded summary and the reporter all came through.
   */
  lemma ReportMeans(session: nat, script: seq<Phase>, world: Collaborators, ending: Ending)
    requires |script| == |PHASES|
    ensures var requests := RequestsMade(script);
            var c := Finished(AfterRequests(session, world, requests), world);
            OutcomeOf(WorkflowErrorOf(script), c.errors, ending) == Report <==>
              && (forall i :: 0 <= i < |script| ==> Passes(script[i]))
              && OwnRequests(requests, session, true) && OwnRequests(requests, session, false)
              && !world.destroyerRaises && world.verifier == JournaledVerified
              && ending == Ending(false, false, true, false)
  {
    hide AfterRequests, Finished, OwnRequests, RequestsMade;
    CleanupRunsOnce(session, world, RequestsMade(script));
    if forall i :: 0 <= i < |script| ==> Passes(script[i]) {
      AllPhasesPass(script);
    } else {
      var n := CompletedCount(script);
      assert n < |script|;
    }
  }

  /** Phase n is the first that does not come through. */
  predicate FailsFirst(script: seq<Phase>, n: nat) {
    && n < |script|
    && (script[n].journalRaises || script[n].actionRaises || !script[n].checkpointReached)
    && forall i :: 0 <= i < n ==> !script[i].journalRaises && !script[i].actionRaises && script[i].checkpointReached
  }

  /** The error says which phase failed, and whether its journal write, its action or its checkpoint did. */
  predicate Initiating(error: WorkflowError, phase: Phase, name: PhaseName) {
    && (error == JournalRaised(name) <==> phase.journalRaises)
    && (error == ActionRaised(name) <==> !phase.journalRaises && phase.actionRaises)
    && (error == CheckpointMissed(name) <==>
          !phase.journalRaises && !phase.actionRaises && !phase.checkpointReached)
  }

  /**
   How an approved run may end, given what the cleanup owner remembered. A failed
   phase is never hidden by a later failure, and neither is any cleanup error.
   */
  ghost predicate EndsAs(script: seq<Phase>, ending: Ending, remembered: seq<CleanupError>, outcome: Outcome)
    requires |script| == |PHASES|
  {
    && (forall n: nat :: FailsFirst(script, n) ==>
          && outcome != Report
          && (outcome.SessionError? ==>
                outcome.workflow.Some? && Initiating(outcome.workflow.value, script[n], PHASES[n])))
    && (outcome.SessionError? ==> outcome.cleanup == remembered)
    && (outcome.SessionError? && !(exists n: nat :: FailsFirst(script, n)) ==>
          outcome.workflow == if ending.journalRaises then Some(FinalJournalRaised)
                              else if remembered == [] && !ending.summaryRecorded then Some(SummaryNotRecorded)
                              else None)
    && (outcome.SessionError? ==>
          (outcome.reportRaised <==>
             !ending.journalRaises && remembered == [] && ending.summaryRecorded && ending.reporterRaises))
    && (outcome == ManifestError <==> !ending.journalRaises && remembered == [] && ending.manifestUnreadable)
    && (outcome == Report <==>
          && !(exists n: nat :: FailsFirst(script, n)) && remembered == []
          && ending == Ending(false, false, true, false))
    && outcome != Refused
  }

  lemma PassesMeans(phase: Phase)
    ensures Passes(phase) <==> !phase.journalRaises && !phase.actionRaises && phase.checkpointReached
  {
  }

  /** What the phases leave behind, in terms of the first that fails. */
  lemma WorkflowErrorMeans(script: seq<Phase>)
    requires |script| == |PHASES|
    ensures forall n: nat :: FailsFirst(script, n) ==>
              WorkflowErrorOf(script).Some? && Initiating(WorkflowErrorOf(script).value, script[n], PHASES[n])
    ensures WorkflowErrorOf(script).Some? <==> exists n: nat :: FailsFirst(script, n)
  {
    var completed := CompletedCount(script);
    forall i | 0 <= i < |script|
      ensures Passes(script[i]) <==>
              !script[i].journalRaises && !script[i].actionRaises && script[i].checkpointReached
    {
      PassesMeans(script[i]);
    }
    hide Passes;
    if completed < |script| {
      assert FailsFirst(script, completed);
    }
    forall n: nat | FailsFirst(script, n) ensures n == completed {
      FailureStopsScript(script, n);
    }
  }

  /** Every approved run ends as it must. */
  lemma FailuresAreNotHidden(script: seq<Phase>, ending: Ending, remembered: seq<CleanupError>)
    requires |script| == |PHASES|
    ensures EndsAs(script, ending, remembered, OutcomeOf(WorkflowErrorOf(script), remembered, ending))
  {
    hide FailsFirst, WorkflowErrorOf, Initiating;
    WorkflowErrorMeans(script);
  }

  lemma {:induction false} DiagnosticsCounted(session: nat, world: Collaborators, requests: seq<Request>)
    ensures AfterRequests(session, world, requests).diagnosticErrors ==
            if world.diagnosticsRaise && FirstNamed(requests, true) == Some(session) then 1 else 0
  {
    if requests == [] {
      NothingDecided(session, world);
    } else {
      var front, last := requests[..|requests| - 1], requests[|requests| - 1];
      assert requests == front + [last];
      DiagnosticsCounted(session, world, front);
      RequestsDecide(session, world, front);
      FirstNamedGrows(front, last, true);
      hide FirstNamed;
    }
  }

  /**
   What the owner remembers after finish: an error for exactly each thing that went
   wrong. Failing diagnostics are counted apart and are no cleanup error.
   */
  lemma RememberedErrors(session: nat, world: Collaborators, requests: seq<Request>)
    ensures var c := Finished(AfterRequests(session, world, requests), world);
            var d, v := OwnRequests(requests, session, true), OwnRequests(requests, session, false);
            && (IdentityChanged in c.errors <==> !d || !v)
            && (DestroyRaised in c.errors <==> d && world.destroyerRaises)
            && (VerifyRaised in c.errors <==> v && world.verifier == Raised)
            && (NotJournaledVerified in c.errors <==> v && world.verifier == JournaledOtherwise)
            && c.diagnosticErrors == if d && world.diagnosticsRaise then 1 else 0
  {
    hide AfterRequests, OwnRequests, Ordered, Finished;
    var d, v := OwnRequests(requests, session, true), OwnRequests(requests, session, false);
    CleanupRunsOnce(session, world, requests);
    FinishedDiagnostics(session, world, requests);
    forall e ensures e in Ordered(VerifyComesFirst(requests), DestroyErrors(d, world), VerifyErrors(v, world)) <==>
                     e in DestroyErrors(d, world) || e in VerifyErrors(v, world) {
      InOrdered(VerifyComesFirst(requests), DestroyErrors(d, world), VerifyErrors(v, world), e);
    }
  }

  lemma InOrdered<T>(verifyFirst: bool, destroy: seq<T>, verify: seq<T>, e: T)
    ensures e in Ordered(verifyFirst, destroy, verify) <==> e in destroy || e in verify
  {
  }

  lemma FinishedDiagnostics(session: nat, world: Collaborators, requests: seq<Request>)
    ensures Finished(AfterRequests(session, world, requests), world).diagnosticErrors ==
            if OwnRequests(requests, session, true) && world.diagnosticsRaise then 1 else 0
  {
    hide AfterRequests, FirstNamed, Decided;
    DiagnosticsCounted(session, world, requests);
    RequestsDecide(session, world, requests);
    AttemptedMeans(AfterRequests(session, world, requests), session, world,
                   VerifyComesFirst(requests), FirstNamed(requests, true), FirstNamed(requests, false));
  }

  /** Whatever fails, wherever it fails: disciplined controllers leave one destroy, then one verify. */
  lemma TeardownIsUnconditional(session: nat, script: seq<Phase>, world: Collaborators)
    requires forall i :: 0 <= i < |script| ==> Disciplined(script[i].requests, session) && |script[i].requests| % 2 == 0
    ensures Finished(AfterRequests(session, world, RequestsMade(script)), world).calls == [Diagnostics, Destroyer, Verifier]
  {
    RequestsAreDisciplined(session, script);
    DisciplinedCleanup(session, world, RequestsMade(script));
  }

  lemma {:induction false} RequestsAreDisciplined(session: nat, script: seq<Phase>)
    requires forall i :: 0 <= i < |script| ==> Disciplined(script[i].requests, session) && |script[i].requests| % 2 == 0
    ensures Disciplined(RequestsMade(script), session) && |RequestsMade(script)| % 2 == 0
  {
    if script != [] {
      RequestsAreDisciplined(session, script[1..]);
    }
  }

  /** Without discipline the destroyer can be skipped or run last; these are the two ways. */
  lemma UndisciplinedCleanup(session: nat, other: nat, world: Collaborators)
    requires other != session
    ensures Finished(AfterRequests(session, world, [DestroyRequest(other)]), world).calls == [Verifier]
    ensures Finished(AfterRequests(session, world, [VerifyRequest(session)]), world).calls
            == [Verifier, Diagnostics, Destroyer]
  {
    assert [DestroyRequest(other)][..0] == [] && [VerifyRequest(session)][..0] == [];
  }
}
