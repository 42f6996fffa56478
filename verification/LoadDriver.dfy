/** The load script: slicing the manifest between scenarios, and one iteration of a scenario. */
module LoadDriver {
  import opened Wrappers
  import opened Workload

  /** The workload document as the script reads it; nothing in it is trusted. */
  datatype Document = Document(steps: seq<Step>, offsets: seq<int>, expectedRequests: int)

  /** What the script derives for one scenario. */
  datatype Scenario = Scenario(step: Step, eventOffset: int, startTime: int)

  /** Everything the script checks before any request is sent. */
  ghost predicate Accepted(doc: Document, manifestSize: nat) {
    && doc.steps != []
    && |doc.steps| == |doc.offsets|
    && manifestSize == doc.expectedRequests
    && ValidSteps(doc.steps)
    && (forall k :: 0 <= k < |doc.steps| ==> doc.offsets[k] == Offset(doc.steps, k))
    && Offset(doc.steps, |doc.steps|) == manifestSize
  }

  /** The scenarios of the first n steps, by name. */
  function ScenarioMap(steps: seq<Step>, n: nat): map<string, Scenario>
    requires n <= |steps|
  {
    if n == 0 then map[]
    else ScenarioMap(steps, n - 1)[steps[n - 1].name := Scenario(steps[n - 1], Offset(steps, n - 1), StartTime(steps, n - 1))]
  }

  /** The checks the loop makes on the first n steps. */
  predicate SlicesAgree(doc: Document, n: nat)
    requires n <= |doc.steps| == |doc.offsets|
  {
    n > 0 ==>
      && SlicesAgree(doc, n - 1)
      && doc.steps[n - 1].Valid()
      && doc.steps[n - 1].name !in ScenarioMap(doc.steps, n - 1)
      && doc.offsets[n - 1] == Offset(doc.steps, n - 1)
  }

  lemma {:induction false} SlicesAgreeEarlier(doc: Document, i: nat, n: nat)
    requires i <= n <= |doc.steps| == |doc.offsets| && SlicesAgree(doc, n)
    ensures SlicesAgree(doc, i)
  {
    if i < n {
      SlicesAgreeEarlier(doc, i, n - 1);
    }
  }

  /** The loop's checks amount to distinct, valid steps at exactly the accumulated offsets. */
  lemma {:induction false} SlicesAgreeMeans(doc: Document, n: nat)
    requires n <= |doc.steps| == |doc.offsets|
    ensures SlicesAgree(doc, n) <==>
            && ValidSteps(doc.steps[..n])
            && (forall k :: 0 <= k < n ==> doc.offsets[k] == Offset(doc.steps, k))
  {
    if n > 0 {
      SlicesAgreeMeans(doc, n - 1);
      assert doc.steps[..n] == doc.steps[..n - 1] + [doc.steps[n - 1]];
      NameTaken(doc.steps, n - 1, doc.steps[n - 1].name);
      if ValidSteps(doc.steps[..n]) {
        var front, all := doc.steps[..n - 1], doc.steps[..n];
        forall s | s in front ensures s.Valid() {
          assert s in all;
        }
        forall j | 0 <= j < n - 1 ensures doc.steps[j].name != doc.steps[n - 1].name {
          assert all[j].name != all[n - 1].name;
        }
        forall i, j | 0 <= i < j < |front| ensures front[i].name != front[j].name {
          assert all[i].name != all[j].name;
        }
        assert all[n - 1] in all;
      }
    }
  }

  /** A name is taken exactly when FindStep finds it, and the map holds that step's scenario. */
  lemma {:induction false} NameTaken(steps: seq<Step>, n: nat, name: string)
    requires n <= |steps|
    ensures name in ScenarioMap(steps, n) <==> FindStep(steps, name, n).Some?
    ensures name in ScenarioMap(steps, n) ==>
              var k := FindStep(steps, name, n).value;
              ScenarioMap(steps, n)[name] == Scenario(steps[k], Offset(steps, k), StartTime(steps, k))
  {
    if n > 0 {
      NameTaken(steps, n - 1, name);
    }
  }

  lemma NoSlices(doc: Document)
    requires |doc.steps| == |doc.offsets|
    ensures Offset(doc.steps, 0) == 0 && StartTime(doc.steps, 0) == 0
    ensures ScenarioMap(doc.steps, 0) == map[] && SlicesAgree(doc, 0)
  {
  }

  /** What one turn of the loop checks and adds; a check that fails is never made up for. */
  lemma NextSlice(doc: Document, n: nat)
    requires n < |doc.steps| == |doc.offsets|
    ensures var step := doc.steps[n];
            && Offset(doc.steps, n + 1) == Offset(doc.steps, n) + step.expected
            && StartTime(doc.steps, n + 1) == StartTime(doc.steps, n) + step.duration
            && ScenarioMap(doc.steps, n + 1)
               == ScenarioMap(doc.steps, n)[step.name := Scenario(step, Offset(doc.steps, n), StartTime(doc.steps, n))]
            && (SlicesAgree(doc, n + 1) <==>
                  && SlicesAgree(doc, n) && step.Valid()
                  && step.name !in ScenarioMap(doc.steps, n) && doc.offsets[n] == Offset(doc.steps, n))
    ensures SlicesAgree(doc, |doc.steps|) ==> SlicesAgree(doc, n + 1)
  {
    if SlicesAgree(doc, |doc.steps|) {
      SlicesAgreeEarlier(doc, n + 1, |doc.steps|);
    }
  }

  /** Build the scenarios, refusing the document at the first inconsistent slice. */
  method LoadScenarios(doc: Document, manifestSize: nat) returns (scenarios: Option<map<string, Scenario>>)
    ensures scenarios.Some? <==> Accepted(doc, manifestSize)
    ensures scenarios.Some? ==> scenarios.value == ScenarioMap(doc.steps, |doc.steps|)
  {
    if doc.steps == [] || |doc.steps| != |doc.offsets| || manifestSize != doc.expectedRequests {
      return None;
    }
    hide Offset, StartTime, ScenarioMap, SlicesAgree, ValidSteps, Step.Valid;
    SlicesAgreeMeans(doc, |doc.steps|);
    assert doc.steps[..|doc.steps|] == doc.steps;
    NoSlices(doc);
    var startOffset, nextEvent := 0, 0;
    var stepsByName: map<string, Scenario> := map[];
    for n := 0 to |doc.steps|
      invariant nextEvent == Offset(doc.steps, n) && startOffset == StartTime(doc.steps, n)
      invariant stepsByName == ScenarioMap(doc.steps, n)
      invariant SlicesAgree(doc, n)
    {
      var step := doc.steps[n];
      NextSlice(doc, n);
      if !step.Valid() || step.name in stepsByName || doc.offsets[n] != nextEvent {
        return None;
      }
      stepsByName := stepsByName[step.name := Scenario(step, nextEvent, startOffset)];
      nextEvent := nextEvent + step.expected;
      startOffset := startOffset + step.duration;
    }
    if nextEvent != manifestSize {
      return None;
    }
    return Some(stepsByName);
  }

  /** One scenario callback: which scenario, and k6's iteration number within it. */
  datatype Call = Call(scenario: string, iteration: int)

  datatype Outcome = Posted(event: nat) | SkippedAtBoundary | Failed

  /** The step a call names, if the document has one. */
  function FindStep(steps: seq<Step>, name: string, n: nat): (k: Option<nat>)
    requires n <= |steps|
    ensures k.Some? ==> k.value < n && steps[k.value].name == name
    ensures k.None? ==> forall j :: 0 <= j < n ==> steps[j].name != name
  {
    if n == 0 then None
    else if steps[n - 1].name == name then Some(n - 1)
    else FindStep(steps, name, n - 1)
  }

  /** What a call does: post one event, skip the one boundary iteration, or fail. */
  function CallOutcome(steps: seq<Step>, call: Call): Outcome {
    match FindStep(steps, call.scenario, |steps|)
    case None => Failed
    case Some(k) =>
      if call.iteration < 0 then Failed
      else if call.iteration < steps[k].expected then
        var event := Offset(steps, k) + call.iteration;
        if event >= 0 then Posted(event) else Failed
      else if call.iteration == steps[k].expected then SkippedAtBoundary
      else Failed
  }

  /** The call is dispatched at or beyond the end of its own step's slice. */
  predicate Overruns(steps: seq<Step>, call: Call) {
    var k := FindStep(steps, call.scenario, |steps|);
    k.Some? && 0 <= call.iteration && steps[k.value].expected <= call.iteration
  }

  function Bump(counts: map<string, nat>, name: string): map<string, nat> {
    counts[name := (if name in counts then counts[name] else 0) + 1]
  }

  function PostedBy(outcome: Outcome): seq<nat> {
    if outcome.Posted? then [outcome.event] else []
  }

  function PostedEvents(steps: seq<Step>, calls: seq<Call>): seq<nat> {
    if calls == [] then []
    else PostedEvents(steps, calls[..|calls| - 1]) + PostedBy(CallOutcome(steps, calls[|calls| - 1]))
  }

  class Driver {
    const scenarios: map<string, Scenario>
    const manifestSize: nat
    ghost const steps: seq<Step>
    var posted: seq<nat>
    var driverErrors: nat
    var boundaryIterations: map<string, nat>

    ghost predicate Valid() {
      && ValidSteps(steps)
      && Offset(steps, |steps|) == manifestSize
      && scenarios == ScenarioMap(steps, |steps|)
    }

    constructor (doc: Document, scenarios: map<string, Scenario>, manifestSize: nat)
      requires Accepted(doc, manifestSize) && scenarios == ScenarioMap(doc.steps, |doc.steps|)
      ensures Valid() && steps == doc.steps && this.manifestSize == manifestSize
      ensures posted == [] && driverErrors == 0 && boundaryIterations == map[]
    {
      this.manifestSize, this.scenarios := manifestSize, scenarios;
      steps := doc.steps;
      posted, driverErrors, boundaryIterations := [], 0, map[];
    }

    /** The default function of the script. */
    method Iterate(call: Call) returns (outcome: Outcome)
      requires Valid()
      modifies this
      ensures outcome == CallOutcome(steps, call)
      ensures posted == old(posted) + PostedBy(outcome)
      ensures driverErrors == old(driverErrors) + if outcome.Failed? then 1 else 0
      ensures boundaryIterations == if Overruns(steps, call) then Bump(old(boundaryIterations), call.scenario)
                                    else old(boundaryIterations)
    {
      ghost var found := FindStep(steps, call.scenario, |steps|);
      NameTaken(steps, |steps|, call.scenario);
      if call.scenario !in scenarios || call.iteration < 0 {
        driverErrors := driverErrors + 1;
        return Failed;
      }
      var scenario := scenarios[call.scenario];
      if call.iteration >= scenario.step.expected {
        boundaryIterations := Bump(boundaryIterations, call.scenario);
        if call.iteration > scenario.step.expected {
          driverErrors := driverErrors + 1;
          return Failed;
        }
        return SkippedAtBoundary;
      }
      OffsetsIncrease(steps, found.value, found.value);
      OffsetsIncrease(steps, found.value + 1, |steps|);
      var index := scenario.eventOffset + call.iteration;
      // The script guards against a missing manifest element here; it cannot be missing.
      assert 0 <= index < manifestSize;
      posted := posted + [index];
      return Posted(index);
    }
  }

  /** Any schedule of callbacks, run to its end; only impossible calls count as driver errors. */
  method RunSchedule(driver: Driver, calls: seq<Call>)
    requires driver.Valid()
    modifies driver
    ensures driver.posted == old(driver.posted) + PostedEvents(driver.steps, calls)
    ensures driver.driverErrors == old(driver.driverErrors) + |ImpossibleCalls(driver.steps, calls)|
  {
    hide CallOutcome, Impossible, ValidSteps, ScenarioMap, Offset;
    assert ImpossibleCalls(driver.steps, []) == {};
    for n := 0 to |calls|
      invariant driver.posted == old(driver.posted) + PostedEvents(driver.steps, calls[..n])
      invariant driver.driverErrors == old(driver.driverErrors) + |ImpossibleCalls(driver.steps, calls[..n])|
    {
      DriverIsValid(driver);
      CallOutcomeIff(driver.steps, calls[n]);
      ImpossibleGrows(driver.steps, calls, n);
      var outcome := driver.Iterate(calls[n]);
      assert calls[..n + 1][..n] == calls[..n];
    }
    assert calls[..|calls|] == calls;
  }

  lemma DriverIsValid(driver: Driver)
    requires driver.Valid()
    ensures ValidSteps(driver.steps)
  {
  }

  // ----- what one call does -----

  /** The call belongs to this step, within its count or at a place from it. */
  predicate CallsStep(steps: seq<Step>, call: Call, k: nat) {
    k < |steps| && steps[k].name == call.scenario && 0 <= call.iteration
  }

  /** No step has the name, the iteration is negative, or it lies more than one beyond the step's count. */
  predicate Impossible(steps: seq<Step>, call: Call) {
    forall k :: 0 <= k < |steps| ==>
      steps[k].name == call.scenario ==> call.iteration < 0 || call.iteration > steps[k].rate * steps[k].duration
  }

  function ImpossibleCalls(steps: seq<Step>, calls: seq<Call>): set<int> {
    set n | 0 <= n < |calls| && Impossible(steps, calls[n])
  }

  lemma ImpossibleGrows(steps: seq<Step>, calls: seq<Call>, n: nat)
    requires n < |calls|
    ensures |ImpossibleCalls(steps, calls[..n + 1])|
            == |ImpossibleCalls(steps, calls[..n])| + if Impossible(steps, calls[n]) then 1 else 0
  {
    hide Impossible;
    assert ImpossibleCalls(steps, calls[..n + 1])
           == ImpossibleCalls(steps, calls[..n]) + if Impossible(steps, calls[n]) then {n} else {};
  }

  lemma NamedStep(steps: seq<Step>, name: string, k: nat)
    requires ValidSteps(steps) && k < |steps| && steps[k].name == name
    ensures FindStep(steps, name, |steps|) == Some(k)
    ensures steps[k].expected == steps[k].rate * steps[k].duration
  {
    assert steps[k] in steps;
  }

  /**
   A call posts while its step still has requests to send, skips exactly at the
   step's count, and is a driver error when it is impossible.
   */
  lemma CallOutcomeIff(steps: seq<Step>, call: Call)
    requires ValidSteps(steps)
    ensures forall k: nat :: CallsStep(steps, call, k) ==>
              var count := steps[k].rate * steps[k].duration;
              && (call.iteration < count <==> CallOutcome(steps, call).Posted?)
              && (call.iteration < count ==> CallOutcome(steps, call).event == Offset(steps, k) + call.iteration)
              && (call.iteration == count <==> CallOutcome(steps, call) == SkippedAtBoundary)
              && (call.iteration >= count <==> Overruns(steps, call))
    ensures CallOutcome(steps, call) == Failed <==> Impossible(steps, call)
    ensures CallOutcome(steps, call) == SkippedAtBoundary ==> exists k: nat :: CallsStep(steps, call, k)
    ensures Overruns(steps, call) ==> exists k: nat :: CallsStep(steps, call, k)
  {
    hide Offset;
    forall k: nat | k < |steps| && steps[k].name == call.scenario
      ensures FindStep(steps, call.scenario, |steps|) == Some(k) && 0 <= Offset(steps, k)
      ensures steps[k].expected == steps[k].rate * steps[k].duration
    {
      NamedStep(steps, call.scenario, k);
      OffsetsIncrease(steps, k, k);
    }
    hide ValidSteps;
    var found := FindStep(steps, call.scenario, |steps|);
    if found.Some? && call.iteration >= 0 {
      assert CallsStep(steps, call, found.value);
    }
  }

  // ----- what any schedule posts -----

  lemma PostedInOwnSlice(steps: seq<Step>, call: Call)
    requires ValidSteps(steps) && CallOutcome(steps, call).Posted?
    ensures FindStep(steps, call.scenario, |steps|).Some?
    ensures InSlice(steps, FindStep(steps, call.scenario, |steps|).value, CallOutcome(steps, call).event)
  {
    var k := FindStep(steps, call.scenario, |steps|).value;
    OffsetsIncrease(steps, k, k);
  }

  /** Two calls that post the same event are the same call. */
  lemma PostedEventIdentifiesCall(steps: seq<Step>, a: Call, b: Call)
    requires ValidSteps(steps)
    requires CallOutcome(steps, a).Posted? && CallOutcome(steps, a) == CallOutcome(steps, b)
    ensures a == b
  {
    PostedInOwnSlice(steps, a);
    PostedInOwnSlice(steps, b);
    var e := CallOutcome(steps, a).event;
    var k := FindStep(steps, a.scenario, |steps|).value;
    OffsetsIncrease(steps, k + 1, |steps|);
    var owner := SlicesPartition(steps, |steps|, e);
  }

  /** A posted event comes from some call of the schedule. */
  lemma {:induction false} PostedComesFromCall(steps: seq<Step>, calls: seq<Call>, e: nat) returns (n: nat)
    requires e in PostedEvents(steps, calls)
    ensures n < |calls| && CallOutcome(steps, calls[n]) == Posted(e)
  {
    var last := |calls| - 1;
    if CallOutcome(steps, calls[last]) == Posted(e) {
      n := last;
    } else {
      n := PostedComesFromCall(steps, calls[..last], e);
    }
  }

  lemma {:induction false} CallIsPosted(steps: seq<Step>, calls: seq<Call>, n: nat)
    requires n < |calls| && CallOutcome(steps, calls[n]).Posted?
    ensures CallOutcome(steps, calls[n]).event in PostedEvents(steps, calls)
  {
    if n < |calls| - 1 {
      CallIsPosted(steps, calls[..|calls| - 1], n);
    }
  }

  /** Over distinct calls no event is ever posted twice. */
  lemma {:induction false} NoEventPostedTwice(steps: seq<Step>, calls: seq<Call>)
    requires ValidSteps(steps) && Distinct(calls)
    ensures Distinct(PostedEvents(steps, calls))
  {
    if calls != [] {
      var last := |calls| - 1;
      var front := calls[..last];
      NoEventPostedTwice(steps, front);
      if CallOutcome(steps, calls[last]).Posted? {
        var e := CallOutcome(steps, calls[last]).event;
        if e in PostedEvents(steps, front) {
          var n := PostedComesFromCall(steps, front, e);
          PostedEventIdentifiesCall(steps, front[n], calls[last]);
          assert false;
        }
      }
    }
  }

  /** A schedule in which every scheduled iteration of every step is called. */
  predicate Complete(steps: seq<Step>, calls: seq<Call>) {
    forall k, i :: 0 <= k < |steps| && 0 <= i < steps[k].expected ==> Call(steps[k].name, i) in calls
  }

  lemma CompleteCoversManifest(steps: seq<Step>, calls: seq<Call>, e: nat)
    requires ValidSteps(steps) && Complete(steps, calls) && e < Offset(steps, |steps|)
    ensures e in PostedEvents(steps, calls)
  {
    var k := SlicesPartition(steps, |steps|, e);
    var call := Call(steps[k].name, e - Offset(steps, k));
    assert call in calls;
    var n :| 0 <= n < |calls| && calls[n] == call;
    OffsetsIncrease(steps, k, k);
    OwnCallPosts(steps, k, e - Offset(steps, k));
    hide CallOutcome, PostedEvents;
    CallIsPosted(steps, calls, n);
  }

  /** A step's own call within its count posts the event at its place in the slice. */
  lemma OwnCallPosts(steps: seq<Step>, k: nat, i: nat)
    requires ValidSteps(steps) && k < |steps| && i < steps[k].expected && Offset(steps, k) >= 0
    ensures CallOutcome(steps, Call(steps[k].name, i)) == Posted(Offset(steps, k) + i)
  {
    hide Offset;
    var found := FindStep(steps, steps[k].name, |steps|);
    assert found == Some(k);
  }

  /** A complete schedule of distinct calls posts every manifest event exactly once. */
  lemma CompleteSchedulePostsEverything(steps: seq<Step>, calls: seq<Call>, e: nat)
    requires ValidSteps(steps) && Distinct(calls) && Complete(steps, calls)
    ensures Distinct(PostedEvents(steps, calls))
    ensures e in PostedEvents(steps, calls) <==> e < Offset(steps, |steps|)
  {
    hide Distinct, PostedEvents, ValidSteps, CallOutcome, Complete;
    NoEventPostedTwice(steps, calls);
    if e < Offset(steps, |steps|) {
      CompleteCoversManifest(steps, calls, e);
    }
    if e in PostedEvents(steps, calls) {
      var n := PostedComesFromCall(steps, calls, e);
      PostedInOwnSlice(steps, calls[n]);
      OffsetsIncrease(steps, FindStep(steps, calls[n].scenario, |steps|).value + 1, |steps|);
    }
  }

  /** The document a workload definition serializes to. */
  function Serialized(steps: seq<Step>): Document {
    Document(steps, seq(|steps|, k requires 0 <= k < |steps| => Offset(steps, k)), Offset(steps, |steps|))
  }

  /** The document of a validated workload definition is always accepted. */
  lemma SerializedDefinitionIsAccepted(steps: seq<Step>)
    requires steps != [] && ValidSteps(steps)
    ensures Offset(steps, |steps|) >= 0 && Accepted(Serialized(steps), Offset(steps, |steps|))
  {
    OffsetsIncrease(steps, 0, |steps|);
  }

  /**
   No other document is: what the script accepts is exactly what some definition of
   distinct named steps serializes to, with a manifest of exactly its requests.
   */
  lemma OnlySerializedIsAccepted(doc: Document, manifestSize: nat)
    ensures Accepted(doc, manifestSize) <==>
            doc.steps != [] && ValidSteps(doc.steps) && doc == Serialized(doc.steps)
            && manifestSize == Offset(doc.steps, |doc.steps|)
  {
    hide ValidSteps, Offset;
    if Accepted(doc, manifestSize) {
      assert doc.offsets == Serialized(doc.steps).offsets;
    }
  }
}
