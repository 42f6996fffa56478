# TrackRelay verification

TrackRelay accepts shipment events from partners, stores each one together with an
outbox row in a single transaction, hands the rows to a queue, and lets workers
deliver them to an idempotent downstream service. Around the gateway, controllers
generate inputs, offer load, watch the system drain and scale, and decide from the
recorded evidence whether a run counts. This project models both halves in Dafny
and proves the properties that its design relies on.

**The gateway.** `ShipmentDomain` is the transition rule and its fold over arrival
sequences; `EventPersistence` is the transaction that updates the shipment and
inserts event and outbox row; `DeliveryProtocol` is the whole delivery path as
interleaved steps that may stop between any two effects; `DownstreamStore` is the
simulator's receipt store; `DeliveryRelay` and `DeliveryWorker` are the sequential
relay and worker code, shown to be runs of those steps; `DeliveryCompletion` says
what a recorded delivery and a drained observation prove, and `DeliveryRecovery` when
a drained observation can still be reached; `Gateway` joins persistence and delivery,
from the first request to the last receipt.

**Inputs and load.** `Identifiers` and `Manifest` are the generators and the
manifest validator, `Scenarios` the correctness scenarios built from them, and
`DeclaredStates` says exactly when declared states are reached; `Workload` and
`LoadDriver` are the waveform, its slices of the manifest and the load script, and
`LoadManifests` builds the manifests that these runs send.

**Detectors.** "Stably empty for S seconds, with no sampling gap over G" is coded
several times. `StableRuns` gives the idea once, over sequences of samples, and
`AsyncGuardrails`, `AsyncIntegration`, `ScalingMetrics`, `FixedControl`,
`ElasticityReport` and `ElasticTreatment` are proved against it and compared with
each other; `TreatmentReasons` is the evaluation of an elastic run and the meaning of
each of its reasons, and `DemoTreatment` a run of the demo waveform that qualifies.

**Evidence.** `CloudWatchCoverage` and `ElasticityBuckets` are metric windows;
`OrderStatistics`, `Grouping`, `RequestTiming` and `RequestTimings` are percentiles,
timing logs and metric chunks; `ErrorEvidence` is the bounded walk over error
graphs.

**Controllers.** `ElasticitySession` is cleanup ownership and the six-phase
session; `SsmCollection` is the retry policy for remote commands.

Loops and objects of the source are methods and classes here, each tied by its
`ensures` to a specification function or predicate; the properties are lemmas about
those. Times are exact reals, counts and identifiers are integers, and everything
outside the process (queue, database failures, HTTP, remote commands, clocks) is an
arbitrary input.

## What the proofs found

- A shipment's stored status is independent of arrival order and repetition if and
  only if one of its reports is both the latest in time and the furthest along
  (`ShipmentDomain.ConfluenceIff`). When events conflict under one partner key, that
  must hold for every choice of one event per key
  (`DeclaredStates.AnyStateIsReachedIff`), which can be read off the events key by key
  (`DeclaredStates.DecidedStateIsReachedIff`). Every manifest built here keeps its
  promise: generated runs, complete or cut, the correctness scenarios, and the
  manifests of the elasticity and performance runs
  (`Manifest.GeneratedStatesAreReached`, `Scenarios.BuildCorrectnessManifest`,
  `LoadManifests.BuildElasticityManifest`, `LoadManifests.BuildPerformanceManifest`).
  The manifest validator does not imply it: two manifests pass every clause and fail,
  one whose declared state no replay reaches (`DeclaredStates.ValidatedButUnreachable`)
  and one that declares the latest report but repeats a key with a different one
  (`DeclaredStates.ConflictingKeysLoseTheLatest`). The exact condition for a valid
  manifest is `DeclaredStates.ValidManifestKeepsPromiseIff`.
- The polling loop of the integration run throws away the sample just after a
  sampling gap; the offline evaluation keeps it. So every online confirmation is an
  offline one. The offline evaluation accepts what a poll kept although the poll never
  broke exactly when some run spans the window and every such run starts right after
  a gap (`AsyncIntegration.DetectorsDisagreeIff`, `AsyncIntegration.OfflineWithoutOnline`).
  One more drained sample can make the poll break later than the offline scan confirms
  (`AsyncIntegration.OnlineAfterOffline`).
- A delivery attempt that ends in an error that is neither an HTTP status error nor
  a transport error is stored as delivered, without a response code. Exactly then,
  and if the request did not reach the store, an event is counted as completed
  without a receipt (`DeliveryCompletion.RecordingIsHonestIff`,
  `DeliveryCompletion.CompletedWithoutReceiptIff`). The missing receipt can still
  arrive while some worker that loaded the event earlier has yet to post it, and
  otherwise never does (`DeliveryCompletion.NeverReceivedIff`).
- Later lookups refuse an event whose latest success is uncoded. Such an event is
  stranded when no worker can still record a coded success and one of its deliveries
  is unfinished: a message that nobody is about to acknowledge, a job yet to be
  enqueued, or a dead letter (`DeliveryRecovery.UnclassifiedErrorStrandsIff`). A
  stranded event stays stranded (`DeliveryRecovery.StrandedForever`), and a system can
  still be drained exactly when nothing is dead-lettered and no accepted event is
  stranded (`DeliveryRecovery.CanDrainIff`).
- A full drained observation does prove delivery, even though it reads the database,
  the queue and the dead-letter queue one after the other while the system moves on
  (`DeliveryProtocol.DrainedMeansDeliveredOnce`,
  `DeliveryCompletion.DrainedReadsMeanReceived`).
- A metrics drain loses nothing exactly when its seconds need at most 900 records of
  150 values (`RequestTiming.NothingIsDroppedIff`). A full buffer therefore always
  fits up to 873 distinct seconds, and 874 can lose a record
  (`RequestTiming.NothingIsDropped`, `RequestTiming.ThresholdIsSharp`).
- Destroy and verify run exactly once, destroy first, for the shipped controllers.
  The cleanup owner alone does not guarantee it: a first destroy request that names
  another session uses up the attempt, and a verify request before any destroy
  reverses the order (`ElasticitySession.CleanupRunsOnce`,
  `ElasticitySession.UndisciplinedCleanup`).
- Interpolated and nearest-rank p95 are ordered one way unless 20 divides the
  sample count, and the other way when it does, where they agree only on equal
  neighbours
  (`OrderStatistics.InterpolatedAtMostNearestRank`,
  `OrderStatistics.NearestRankAtMostInterpolated`).

## Assumptions about the outside

- Event row, shipment update and outbox row commit together or not at all; the
  uniqueness of partner event keys is enforced by the database.
- Rows selected for update with skip-locked belong to one open transaction at a time.
- The queue never loses a message before it is deleted or moved to the dead-letter
  queue, and may hand the same message to any number of workers.
- A successful downstream response means that the request reached the store.
- Each schedule entry of the load tool is a distinct pair of scenario and iteration.

## Model

| member | source | states |
|---|---|---|
| ShipmentDomain.FinalDominatesPrefix | src/trackrelay/domain/shipment.py:37-68 | Folding the transition rule never leaves the reported states, never moves back in status order or in time, and keeps the time for as long as it keeps the status. |
| ShipmentDomain.TransitionIff | src/trackrelay/domain/shipment.py:37-68 | A report is applied exactly when it is not older and strictly further along; stale, terminal and non-forward each have exactly their own case. |
| ShipmentDomain.StatusesAreOrdered | src/trackrelay/domain/shipment.py:8-45 | The five statuses are ordered as a shipment goes through them. |
| ShipmentDomain.ChangesIff | src/trackrelay/domain/shipment.py:37-68 | Over any arrivals the shipment changes at a step exactly when that arrival is not older and strictly further along, and then becomes it; a report of the status already held changes nothing. |
| ShipmentDomain.ChangesAreBounded | src/trackrelay/domain/shipment.py:37-68 | However many reports arrive, a shipment changes at most four times after its creation, once for each status gained at most. |
| ShipmentDomain.LatestWins | src/trackrelay/domain/shipment.py:37-68 | Once a report that is both the latest and the furthest along has arrived, its status stays, whatever came before or comes after. |
| ShipmentDomain.ConfluenceIff | src/trackrelay/domain/shipment.py:37-68 | A set of reports ends in one status under every order and repetition if and only if one of them, with that status, is both the latest and the furthest along. |
| Identifiers.ValueOfPad | src/trackrelay/experiments/generator.py:171-184 | Reading a zero-padded number back gives the number, whatever the width. |
| Identifiers.PadHasWidth | src/trackrelay/experiments/generator.py:171-184 | Padding uses digits only and exactly the width, unless the number itself needs more, and then no more than it needs. |
| Identifiers.IdentifierIsInjective | src/trackrelay/experiments/generator.py:171-184 | Run-prefixed padded identifiers with suffixes of equal length are equal only for equal numbers and suffixes. |
| EventPersistence.Database.PersistNormalizedEvent | src/trackrelay/services/event_persistence.py:28-103 | One call updates the shipment, inserts the event and its outbox row, or changes nothing and returns the original id when the partner key is known. The stored event says it was applied exactly when the row was created or its status rose, and otherwise carries exactly the reason that held. |
| EventPersistence.PersistedKeepsConsistent | src/trackrelay/services/event_persistence.py:35-90 | Ids stay distinct and consecutive, every event has exactly its own outbox row, and shipments are exactly those with an event. |
| EventPersistence.ShipmentIsFoldOfHistory | src/trackrelay/services/event_persistence.py:36-70 | After any arrivals a shipment row is the fold of the transition rule over that shipment's non-duplicate reports. |
| EventPersistence.HistoryHasEveryReport | src/trackrelay/services/event_persistence.py:91-101 | Refusing duplicate partner keys loses no distinct report. |
| EventPersistence.StoredStatusConverges | src/trackrelay/services/event_persistence.py:28-103 | Every arrival sequence with the same events stores the status of the report that is latest and furthest along. |
| EventPersistence.StoredDominatesFirst | src/trackrelay/services/event_persistence.py:46-70 | The stored shipment is a reported one and is never behind its first arrival in time or status. |
| EventPersistence.FirstArrivalsDecide | src/trackrelay/services/event_persistence.py:91-103 | Whatever later arrivals of a key claim, the tables are those of the first arrival of each key. |
| EventPersistence.EveryDecisionIsExplained | src/trackrelay/services/event_persistence.py:36-90 | Over any arrivals the first arrival of a key stores, for good, whether and why it moved its shipment at that moment, and moves no other shipment. |
| Manifest.GenerateShipment | src/trackrelay/experiments/generator.py:175-203 | The inner loop yields one shipment's five events in status order, one minute apart, numbered on consecutively. |
| Manifest.GenerateInputManifest | src/trackrelay/experiments/generator.py:153-218 | For any draws the generated manifest satisfies every clause of the validator, and the declared states are the last statuses of its events. |
| Manifest.BuildExactEventManifest | src/trackrelay/aws_async_integration.py:289-323 | For any N the cut manifest, possibly with a partial history, satisfies the validator and declares the last kept status of each shipment. |
| Manifest.ValidateIff | src/trackrelay/experiments/generator.py:89-135 | A manifest is accepted exactly when all six clauses hold on its events and declarations, and otherwise refused for exactly the first that does not. |
| Manifest.GeneratedTimes | src/trackrelay/experiments/generator.py:175-203 | Shipments start five minutes apart plus their drawn seconds, and their five statuses follow in order a minute apart. |
| Manifest.GeneratedRunIsChronological | src/trackrelay/experiments/generator.py:175-203 | For all valid draws a generated run is listed in the order in which its events occur, across all shipments. |
| Manifest.GeneratedIsOrderly | src/trackrelay/experiments/generator.py:169-203 | Every prefix of a generated run is numbered through, has distinct keys, and each shipment's events advance in time and status together. |
| Manifest.OrderlyManifestsValidate | src/trackrelay/experiments/generator.py:89-135 | Orderly events with their last statuses declared satisfy all six validator clauses. |
| Manifest.DeliveredIsLast | src/trackrelay/experiments/generator.py:205-207 | Declaring DELIVERED for every shipment agrees with the last status of each shipment of the complete run. |
| Manifest.DeclaredStatesAreReached | src/trackrelay/experiments/generator.py:89-135 | However an orderly manifest's events arrive and repeat, the stored shipments are exactly the declared ones, each in its declared status. |
| Manifest.GeneratedStatesAreReached | src/trackrelay/aws_async_integration.py:294-323 | The same for every generated run cut after any number of events, for all draws. |
| DeclaredStates.DeclaredStateIsReachedIff | src/trackrelay/experiments/generator.py:124-134 | When repeated keys repeat the same report, every replay stores a given status exactly when one report with that status is latest and furthest along. |
| DeclaredStates.AnyStateIsReachedIff | src/trackrelay/services/event_persistence.py:28-103 | For any events, even with conflicting reports under one key, every replay stores a given status exactly when every choice of one event per key has such a report. |
| DeclaredStates.ChoicesDecideIff | src/trackrelay/services/event_persistence.py:28-103 | That condition on all choices holds exactly when some key has only events of the shipment with the status, and every event of the shipment is no further along and either has the status or is followed, under some key, only by events of the shipment that have it. |
| DeclaredStates.DecidedStateIsReachedIff | src/trackrelay/services/event_persistence.py:28-103 | For any events, every replay stores the status exactly when this scan of the events says so. |
| DeclaredStates.ValidManifestKeepsPromiseIff | src/trackrelay/experiments/generator.py:89-135 | A manifest the validator accepts is stored as declared under every replay exactly when the scan decides every declared status. |
| DeclaredStates.ValidatedButUnreachable | src/trackrelay/experiments/generator.py:124-134 | A manifest that passes every validator clause although no replay reaches its declared state. |
| DeclaredStates.ConflictingKeysLoseTheLatest | src/trackrelay/experiments/generator.py:95-102 | A manifest that passes every clause and declares the latest and furthest report, and still is not always reached because its two reports share a key. |
| Scenarios.BuildCorrectnessManifest | src/trackrelay/experiments/scenarios.py:97-144 | For every scenario the manifest satisfies the validator and every replay stores exactly its declared states; its events are the generated run, that run twice, or every shipment's reports in exactly the reverse order. |
| Scenarios.RearrangedValidates | src/trackrelay/experiments/scenarios.py:134-144 | Rearranging, repeating and renumbering the events of a valid manifest, with its unique count and final states kept, satisfies the validator. |
| Scenarios.ExpectedStatusCodes | src/trackrelay/experiments/scenarios.py:219-231 | The expected answer is 200 exactly for an identity that an earlier event used, and 201 otherwise. |
| Scenarios.AnswersAreExpected | src/trackrelay/experiments/scenarios.py:219-231 | Sent in order, the gateway takes an event for a duplicate exactly where 200 is expected. |
| LoadManifests.BuildCreatedManifest | src/trackrelay/experiments/elasticity.py:230-238 | Keeping and renumbering the CREATED events of a generated run gives one event per shipment, a manifest that satisfies the validator, and under every replay exactly those shipments, all CREATED. |
| LoadManifests.BuildElasticityManifest | src/trackrelay/experiments/elasticity.py:213-262 | One CREATED event per scheduled request, so that the load script accepts the definition and the manifest together; valid and kept under every replay. |
| LoadManifests.BuildPerformanceManifest | src/trackrelay/experiments/performance.py:268-318 | Healthy baseline or whole histories, there is one event per scheduled request, the validator is satisfied and every replay stores the declared states. |
| LoadManifests.CompleteScheduleStoresDeclared | load/elasticity-steps.js:97-140 | A complete schedule of distinct calls over an accepted document and a manifest that keeps its promise stores exactly the declared shipments in their declared states. |
| DownstreamStore.RecordKeepsIdempotent | src/trackrelay/downstream/store.py:26-49 | Recording keeps at most one receipt per key and never removes or alters a receipt. |
| DownstreamStore.OneReceiptPerKey | src/trackrelay/downstream/store.py:26-49 | Over any requests, a key that was used has exactly one receipt, holding the first request's event. |
| DownstreamStore.UnkeyedAreRetained | src/trackrelay/downstream/store.py:26-49 | Requests without a key are never taken for replays: all of them are retained, in order. |
| DownstreamStore.DownstreamEventStore.Record | src/trackrelay/downstream/store.py:26-49 | A known key changes nothing and is reported as duplicate; anything else is appended; the count is the number of receipts. |
| DownstreamStore.DownstreamEventStore.All | src/trackrelay/downstream/store.py:51-54 | The snapshot holds the events of all receipts in order. |
| DownstreamStore.DownstreamEventStore.Clear | src/trackrelay/downstream/store.py:56-62 | Receipts and keys are emptied together and the number discarded is returned. |
| DeliveryProtocol.MessagesAreKept | src/trackrelay/services/downstream_worker.py:97-105 | A message leaves the queue only for the dead letters, or once its event has a receipt. |
| DeliveryProtocol.HandedIsKept | src/trackrelay/services/downstream_worker.py:97-105 | No step makes an event that was handed over vanish from queue, dead letters and receipts at once. |
| DeliveryProtocol.StepKeepsSound | src/trackrelay/services/delivery_outbox.py:20-85 | Every accept, relay, send, commit, receive, post, record, acknowledge, crash or redrive keeps the invariant of the whole system. |
| DeliveryProtocol.RunsAreSound | src/trackrelay/worker.py:73-132 | So does every finite interleaving of such steps. |
| DeliveryProtocol.NoAcceptedEventIsLost | src/trackrelay/services/delivery_outbox.py:20-85 | In every reachable state an accepted event is in the outbox and, if marked published, is queued, dead-lettered or received. |
| DeliveryProtocol.ReceiptsAreFaithful | src/trackrelay/services/downstream_delivery.py:88-138 | Receipts carry the ids of accepted events, at most one each, and hold the accepted event itself. |
| DeliveryProtocol.DrainedMeansDeliveredOnce | src/trackrelay/aws_fixed_control.py:160-169 | When the drained predicate holds of the counts, every accepted event has exactly one faithful receipt and there are no others. |
| DeliveryProtocol.CompletedWithoutReceipt | src/trackrelay/services/downstream_delivery.py:102-136 | An event recorded as delivered but not received has only uncoded delivered attempts. |
| DeliveryCompletion.RecordingIsHonestIff | src/trackrelay/services/downstream_delivery.py:102-136 | Posting and recording keeps "completed implies received" exactly when the outcome was not an unclassified error or the event has reached the store. |
| DeliveryCompletion.ReceivedIff | src/trackrelay/downstream/store.py:33-49 | In every run an event has a receipt exactly when some request for it reached the store. |
| DeliveryCompletion.CompletedIff | src/trackrelay/services/downstream_delivery.py:102-136 | In every run an event is counted as completed exactly when some recorded attempt ended accepted or in an unclassified error. |
| DeliveryCompletion.AttemptsDocumentAnswers | src/trackrelay/services/downstream_delivery.py:102-136 | In every run each recorded attempt goes back to a request for its event and keeps how that ended: its response code, and a failure only for HTTP and transport errors. |
| DeliveryCompletion.CompletedWithoutReceiptIff | src/trackrelay/services/downstream_delivery.py:102-136 | In every run an event is completed without a receipt exactly when no request for it reached the store and some recorded attempt ended in an unclassified error. |
| DeliveryCompletion.NeverReceivedIff | src/trackrelay/services/downstream_worker.py:60-105 | A receipt missing for a completed event never arrives, in any continuation, exactly when no worker still holds the event loaded. |
| DeliveryCompletion.OutOfReachIsNeverDrained | src/trackrelay/services/downstream_worker.py:60-105 | While such a receipt is out of reach, no continuation is ever observed drained. |
| DeliveryRecovery.UnclassifiedErrorStrandsIff | src/trackrelay/services/downstream_worker.py:76-82 | Recording an unclassified error strands the event exactly when no other worker can still record a coded success and a message nobody is about to acknowledge, a job yet to be enqueued or a dead letter is left. |
| DeliveryRecovery.StrandedForever | src/trackrelay/services/downstream_worker.py:60-105 | In every continuation a stranded event stays stranded, its receipt status never changes, and the system is never observed drained. |
| DeliveryRecovery.RunsAreAccountable | src/trackrelay/services/delivery_outbox.py:54-85 | In every reachable state each published event has a queued job, a dead letter or a recorded success, open publications share no row, and only completed events are about to be acknowledged. |
| DeliveryRecovery.HelpfulStrandsNobody | src/trackrelay/services/downstream_worker.py:85-105 | A step that gives nothing up, publishes no refused event and meets only accepted responses strands no event. |
| DeliveryRecovery.Recovery | src/trackrelay/worker.py:73-132 | From every state with that accounting and without dead letters or stranded events, some run without new events ends in a drained observation. |
| DeliveryRecovery.CanDrainIff | src/trackrelay/aws_fixed_control.py:160-169 | After any run a drained observation can still be reached exactly when nothing is dead-lettered and no accepted event is stranded. |
| DeliveryCompletion.UnclassifiedErrorIsNeverDrained | src/trackrelay/services/downstream_delivery.py:102-136 | A run after which, in every continuation, an accepted event is completed, not received and not drained. |
| DeliveryCompletion.DrainedReadsMeanReceived | src/trackrelay/aws_async_integration.py:478-502 | If database, queue and dead-letter queue look drained one after the other while the system moves on, every event accepted by the first read has exactly one faithful receipt by the last. |
| DeliveryProtocol.UnclassifiedErrorCountsAsCompleted | src/trackrelay/services/downstream_delivery.py:102-136 | A run in which an unclassified error is recorded as a completed delivery although the store is empty. |
| DeliveryProtocol.DrainedIsReached | src/trackrelay/aws_fixed_control.py:160-169 | For any event there is a run that ends in a drained observation. |
| DeliveryRelay.PublishBatch | src/trackrelay/services/delivery_outbox.py:20-85 | A publication enqueues the entries in order, one new message each, up to the entry whose enqueue raises, and marks all of them only if it commits; it is a run of protocol steps. |
| DeliveryRelay.EnqueuedJobs | src/trackrelay/services/delivery_outbox.py:78-81 | Each sent entry has a job of its own and no earlier message is touched. |
| DeliveryRelay.SentIsHanded | src/trackrelay/services/delivery_outbox.py:50-51 | An entry sent by a publication, committed or not, has a job waiting. |
| DeliveryWorker.PickUp | src/trackrelay/services/downstream_worker.py:97-102 | A recorded coded success skips delivery, an uncoded one or a failed load gives up, anything else loads the event; each is a run of protocol steps. |
| DeliveryWorker.DeliverAndRecord | src/trackrelay/services/downstream_delivery.py:88-138 | Exactly one attempt is stored, success or failure, unless storing it failed; the store records what reached it; delivery succeeds exactly when the response was accepted and the attempt stored; nothing else but this worker changes. |
| DeliveryWorker.ProcessMessage | src/trackrelay/services/downstream_worker.py:85-105 | The whole new state: the message leaves the queue exactly when an earlier or new success is recorded and nothing failed, the attempt of a post is stored, the store records what reached it, and nothing else changes. |
| DeliveryWorker.ProcessBatch | src/trackrelay/worker.py:73-102 | Every message is handled once, in order, each from the state the one before it left; the counts add up, exactly the successful messages leave the queue, and each of those has a receipt. |
| DeliveryWorker.BatchIsIndependent | src/trackrelay/worker.py:84-97 | When the messages carry different events, each leaves the queue exactly when it would succeed on its own in the state before the batch, whatever happens to the others. |
| Gateway.IngestPartnerEvent | src/trackrelay/main.py:699-727 | A duplicate changes nothing and is answered with the original id; of a new event the whole new state is determined: accepted, pending, with its one message in the queue unless the publication failed before it, and published exactly if that committed. |
| Gateway.TablesFollowArrivals | src/trackrelay/main.py:699-727 | Under any interleaving the stored tables are those of the arrivals alone. |
| Gateway.NoArrivalIsLost | src/trackrelay/main.py:699-727 | At any time every event that ever arrived is still pending, in a queue, or received. |
| Gateway.OneReceiptPerPartnerKey | src/trackrelay/downstream/store.py:33-49 | At any time no partner event key has two receipts. |
| Gateway.ExactlyOnceEndToEnd | src/trackrelay/main.py:699-727 | Once drained, every partner event that ever arrived, however often resent and redelivered, has exactly one receipt, with its first content. |
| Gateway.StatusConvergesEndToEnd | src/trackrelay/services/event_persistence.py:28-103 | Under any interleaving with delivery a shipment reaches the status of its latest and furthest report. |
| Gateway.DrainedRunExists | src/trackrelay/main.py:699-727 | Any event can arrive and be drained, so the end-to-end theorem is about runs that exist. |
| StableRuns.RunStartIsMaximal | src/trackrelay/experiments/async_guardrails.py:182-200 | The forward scan's start is the start of the maximal run of good samples with allowed gaps ending at the sample, and none otherwise. |
| StableRuns.ConfirmedIff | src/trackrelay/experiments/async_guardrails.py:197-201 | A sample is confirmed exactly when some run that spans the window ends at it. |
| StableRuns.SpanNeedsSamples | src/trackrelay/scaling_metrics.py:56-69 | A closely sampled run spans at most its number of gaps times the limit. |
| StableRuns.PolledStartVersusRunStart | src/trackrelay/aws_async_integration.py:512-521 | The polling start equals the scan start unless that sample followed a gap, and then it is the next sample of the run. |
| AsyncGuardrails.DrainWindow | src/trackrelay/experiments/async_guardrails.py:181-202 | The scan returns the maximal run's start and the earliest confirming sample, or nothing when no run spans the window. |
| AsyncGuardrails.ConfirmsIff | src/trackrelay/experiments/async_guardrails.py:181-202 | What confirms a drain, on the counts: a long enough stretch of observations with everything accepted durable and completed, nothing pending, queued or dead-lettered, and no oversized gap. |
| AsyncGuardrails.ConsistentTimelineIncreases | src/trackrelay/experiments/async_guardrails.py:118-170 | A timeline the validator accepts increases between any two observations, not only neighbours. |
| AsyncGuardrails.CompletionIsPermanent | src/trackrelay/experiments/async_guardrails.py:148-169 | After a drained observation of a valid timeline, later ones can fail to be drained only through queue or publication counts. |
| AsyncGuardrails.FirstConfirmationIsUnique | src/trackrelay/experiments/async_guardrails.py:181-202 | The drain window is determined uniquely by its specification. |
| AsyncIntegration.PollForDrain | src/trackrelay/aws_async_integration.py:475-532 | The loop stops at the first sample that confirms a run or reaches the timeout, having kept exactly the samples up to it. |
| AsyncIntegration.OnlineImpliesOffline | src/trackrelay/aws_async_integration.py:512-527 | Whenever the poll breaks, the offline scan of its observations finds a window that starts no later. |
| AsyncIntegration.PollThenEvaluate | src/trackrelay/aws_async_integration.py:475-532 | Poll then evaluate: a stable poll always has a window, at least the stability window long and starting no later, and a window without a stable poll means that every long enough run starts right after a gap. |
| StableRuns.PollConfirmedIff | src/trackrelay/aws_async_integration.py:512-527 | The poll confirms at a sample exactly when a run that spans the window and does not start right after a gap ends there. |
| AsyncIntegration.StableDrainIff | src/trackrelay/aws_async_integration.py:475-532 | The poll breaks exactly when the observations it kept hold a run that spans the window without starting right after a gap. |
| AsyncIntegration.PollEndsIff | src/trackrelay/aws_async_integration.py:475-532 | The poll times out exactly when its last sample is at or past the timeout without such a run; every earlier sample came before the timeout. |
| AsyncIntegration.DetectorsDisagreeIff | src/trackrelay/aws_async_integration.py:512-527 | The offline scan accepts the kept observations although the poll never broke exactly when some run spans the window and every such run starts right after a gap. |
| AsyncIntegration.OnlineAfterOffline | src/trackrelay/aws_async_integration.py:512-527 | A timeline that the poll confirms only after the first offline confirmation. |
| AsyncIntegration.NoGapMeansSameStart | src/trackrelay/aws_async_integration.py:512-521 | Without oversized gaps the two detectors agree at every sample. |
| AsyncIntegration.OfflineWithoutOnline | src/trackrelay/aws_async_integration.py:512-527 | A timeline the offline scan accepts although the poll never confirms, whose only long enough run starts right after a gap. |
| AsyncIntegration.ValidTimeoutNeverCutsDrain | src/trackrelay/aws_async_integration.py:103-118 | With close sampling, a workload drained from some sample at or before the deadline is confirmed before a validated timeout. |
| ScalingMetrics.QuietWindow.Observe | src/trackrelay/scaling_metrics.py:61-69 | The value returned is the quiet time of all samples since the last reset. |
| ScalingMetrics.QuietWindow.Reset | src/trackrelay/scaling_metrics.py:71-72 | A reset forgets every sample. |
| ScalingMetrics.QuietIsMaximalRun | src/trackrelay/scaling_metrics.py:61-69 | On a non-decreasing clock the quiet time is the length of the maximal safe run ending now with gaps of at most 15 seconds. |
| ScalingMetrics.QuietNeedsEvidence | src/trackrelay/scaling_metrics.py:61-69 | A quiet time of at least Q needs ceil(Q/15)+1 consecutive safe samples spanning Q. |
| ScalingMetrics.RunPublisher | src/trackrelay/scaling_metrics.py:109-163 | Each slot publishes the quiet time earned since the last collection or publication failure, or nothing. |
| ScalingMetrics.PublishedQuietIsJustified | src/trackrelay/scaling_metrics.py:150-163 | A published quiet time is backed by safe, collected, published samples without an oversized gap. |
| ScalingMetrics.QuietStretchIsCredited | src/trackrelay/scaling_metrics.py:150-163 | Conversely every such stretch is credited in full. |
| FixedControl.AwaitStableDrain | src/trackrelay/aws_fixed_control.py:1065-1105 | The wait confirms exactly at the first poll at which uninterrupted drained samples, from an earlier sample on, span the stability target, and keeps the successful observations. |
| FixedControl.WaitConfirmedIff | src/trackrelay/aws_fixed_control.py:1079-1088 | A poll confirms exactly when collections that all succeeded and saw nothing unfinished anywhere, at least two, span the target. |
| FixedControl.WaitEndsIff | src/trackrelay/aws_fixed_control.py:1065-1105 | The wait confirms at its last poll, the first by which the system had been empty long enough, or stops at the first poll whose guard is past the deadline, or runs out of polls. |
| FixedControl.SuccessesOfStretch | src/trackrelay/aws_fixed_control.py:860-892 | A stretch of polls without failures contributes exactly its own observations to the timeline. |
| ElasticityReport.StableDrain | src/trackrelay/aws_elasticity_report.py:197-235 | The backward scan returns the start and confirmation of the suffix's run when it is long enough and in time, and nothing otherwise. |
| ElasticityReport.AcceptedDrainIff | src/trackrelay/aws_elasticity_report.py:197-235 | On the observations: the accepted drain starts where the longest finished suffix does, is confirmed by the first observation three minutes later, and that one comes at most twenty minutes after the load. |
| ElasticityReport.ScanFoundRunStart | src/trackrelay/aws_elasticity_report.py:198-213 | The backward suffix scan stops exactly where the forward scan's run starts. |
| ElasticityReport.ConfirmedWaitHasRun | src/trackrelay/aws_fixed_control.py:1079-1088 | A confirmed wait is a forward run of drained polls ending at its last poll. |
| ElasticityReport.BackwardReachesRun | src/trackrelay/aws_elasticity_report.py:198-213 | The backward scan reaches over the whole of a complete run if and only if no gap inside exceeds 30 seconds. |
| ElasticityReport.BackwardStopsAtRun | src/trackrelay/aws_elasticity_report.py:198-213 | It starts with the run exactly when the observation before it does not also qualify. |
| ElasticityReport.ReportMatchesWait | src/trackrelay/aws_elasticity_report.py:197-235 | For a complete, closely sampled run confirmed in time the report accepts a drain starting no later, and precisely the wait's run unless the sample before also qualifies. |
| ElasticityReport.ReportIsNoLater | src/trackrelay/aws_elasticity_report.py:197-235 | Whatever collections failed before a clean confirmed wait, the report's drain starts and is confirmed no later, and is exactly the wait's unless the observation kept before it also qualifies. |
| ElasticityReport.ReportFindsTheWaitsRun | src/trackrelay/aws_fixed_control.py:1065-1105 | When no collection failed just before the run, every expected event completed, no gap is oversized and the deadline is met, the report's drain is the wait's. |
| ElasticTreatment.LongestPeakSpan | src/trackrelay/aws_elastic_treatment.py:188-211 | The result is the longest span over all runs of peak-step samples at full capacity with gaps of at most 30 seconds, zero if there is none. |
| ElasticTreatment.FindRecoverySuffix | src/trackrelay/aws_elastic_treatment.py:217-221 | The backward loop finds the longest minimum-capacity suffix within the recovery step. |
| ElasticTreatment.MaximumBacklog | src/trackrelay/aws_elastic_treatment.py:271-296 | The three recorded maxima are the largest outstanding, live queue and native queue readings, and the largest of them exceeds the bound exactly when some reading does. |
| TreatmentReasons.Evaluate | src/trackrelay/aws_elastic_treatment.py:134-312 | Every reason is given exactly when its own condition fails on the live samples and native points; the run qualifies exactly when there is none; the recorded maxima and flags are those of the timeline. |
| TreatmentReasons.EvaluationMeans | src/trackrelay/aws_elastic_treatment.py:162-312 | For every run, timed or not, each of the ten reasons is characterised in both directions on the fields of samples and points, with the bounds written out. |
| TreatmentReasons.QualifiedRunScaledOut | src/trackrelay/aws_elastic_treatment.py:171-183 | Every qualified run, timed or not, had a live sample before recovery with more than the minimum running and the maximum wanted, and a native point above the minimum. |
| ElasticTreatment.RecordedAgeDecides | src/trackrelay/aws_elastic_treatment.py:289-298 | The recorded maximum age is within the bound exactly when every reading is. |
| ElasticTreatment.NoReasonIff | src/trackrelay/aws_elastic_treatment.py:162-312 | There is no reason to reject exactly when every single condition held. |
| ElasticTreatment.QualifiedTrajectory | src/trackrelay/aws_elastic_treatment.py:134-312 | A qualified timed run went from minimum, through 60 observed seconds of the peak at maximum, back to a 60-second minimum suffix near the end, without an unobserved gap over 30 seconds. |
| DemoTreatment.DemoRunQualifies | src/trackrelay/aws_elastic_treatment.py:134-312 | A run of the frozen demo waveform that qualifies, so the trajectory theorem is about runs that exist. |
| Workload.SlicesPartition | src/trackrelay/experiments/elasticity.py:149-157 | Every manifest index lies in the slice of one and only one step. |
| Workload.PlateausTile | load/elasticity-steps.js:63-89 | Before the load's end every instant lies in the plateau of one and only one step. |
| Workload.ActiveStep | src/trackrelay/aws_fixed_control.py:668-677 | The observer's step at an instant is the step whose scenario runs then, and "post-load" exactly from the end on. |
| LoadDriver.LoadScenarios | load/elasticity-steps.js:21-93 | A document is accepted exactly when names are distinct, steps valid, offsets accumulated and the slices cover the manifest. |
| LoadDriver.SlicesAgreeMeans | load/elasticity-steps.js:45-60 | The loop's incremental checks amount to distinct valid steps at exactly the accumulated offsets. |
| LoadDriver.Driver.Iterate | load/elasticity-steps.js:101-150 | One call posts its own event, skips the single boundary iteration, or fails, with the counters to match. |
| LoadDriver.CallOutcomeIff | load/elasticity-steps.js:101-128 | A call of a step posts exactly within the step's count, skips exactly at the count, and fails exactly when no step has its name, its iteration is negative, or it lies further beyond. |
| LoadDriver.RunSchedule | load/elasticity-steps.js:101-150 | Any schedule posts the events of its calls in order, and counts as driver errors exactly its impossible calls. |
| LoadDriver.PostedInOwnSlice | load/elasticity-steps.js:113-128 | No step ever posts another step's event. |
| LoadDriver.PostedEventIdentifiesCall | load/elasticity-steps.js:113-128 | Two calls that post the same event are the same call. |
| LoadDriver.NoEventPostedTwice | load/elasticity-steps.js:101-128 | Over any distinct calls no event is posted twice. |
| LoadDriver.CompleteSchedulePostsEverything | load/elasticity-steps.js:101-128 | When each step's full count is run, every manifest event is posted exactly once. |
| LoadDriver.SerializedDefinitionIsAccepted | src/trackrelay/experiments/elasticity.py:134-157 | The document a valid workload definition serializes to is always accepted. |
| LoadDriver.OnlySerializedIsAccepted | load/elasticity-steps.js:21-93 | The script accepts a document and a manifest exactly when some definition of distinct, valid steps serializes to it and the manifest has exactly its requests. |
| CloudWatchCoverage.CoverageGaps | src/trackrelay/aws_cloudwatch.py:184-207 | The loop computes the uncovered ranges of the specification. |
| CloudWatchCoverage.GapsAreComplement | src/trackrelay/aws_cloudwatch.py:184-207 | For buckets that start before the window ends, as every overlapping one does, the list is ordered, disjoint, nonempty ranges whose union is exactly the window minus the buckets. |
| CloudWatchCoverage.SeriesProblems | src/trackrelay/aws_cloudwatch.py:220-268 | One scan finds exactly the buckets that do not record their own share of the window, of the others those that share more than a millisecond of it with an earlier one, and the gaps, which are empty exactly when every instant lies in a bucket. |
| CloudWatchCoverage.CoverageError | src/trackrelay/aws_cloudwatch.py:210-283 | No error is reported exactly when, in every series, each bucket meets the window and records its own share of it to a millisecond, no two buckets share more than a millisecond, and every instant of the window lies in a bucket. |
| CloudWatchCoverage.CompleteEvidenceIff | src/trackrelay/aws_cloudwatch.py:210-283 | The scan's conditions on one series hold exactly when those conditions on the endpoints do. |
| CloudWatchCoverage.AdjacentBucketsAreAccepted | src/trackrelay/aws_cloudwatch.py:210-283 | Buckets one period after another that cover the window and record their shares are accepted, whether or not the window starts and ends on a bucket. |
| CloudWatchCoverage.AcceptedOverlapsSumToWindow | src/trackrelay/aws_cloudwatch.py:210-283 | The recorded overlaps of n accepted buckets sum to the window, at most n ms short and 2n-1 ms over. |
| ElasticityBuckets.BucketsMeetWindow | src/trackrelay/aws_elasticity_cloudwatch.py:336-350 | The list is, in order and a minute apart, exactly the minute buckets that meet the window. |
| ElasticityBuckets.EveryInstantInOneBucket | src/trackrelay/aws_elasticity_cloudwatch.py:336-350 | Every instant of the window lies in exactly one listed bucket. |
| ElasticityBuckets.AcceptedIffPermutation | src/trackrelay/aws_elasticity_cloudwatch.py:450-475 | A series is accepted exactly when it is complete and its timestamps are the expected buckets in some order. |
| OrderStatistics.SortIsSorting | src/trackrelay/experiments/request_timings.py:20 | Sorting keeps the values and orders them. |
| OrderStatistics.OrderStatisticIff | src/trackrelay/experiments/request_timings.py:19-27 | The k-th smallest value is at most x exactly when more than k values are. |
| OrderStatistics.PercentileIsBetween | src/trackrelay/experiments/request_timings.py:19-27 | The interpolated p95 lies between its two neighbouring order statistics. |
| OrderStatistics.PercentileOfEvenlySpaced | src/trackrelay/experiments/request_timings.py:19-27 | On evenly spaced samples, in any order, the interpolated p95 is exactly the point 95 percent of the way from the least to the greatest. |
| OrderStatistics.PercentilesIgnoreOrder | src/trackrelay/experiments/request_timings.py:19-27 | Neither p95 depends on the order of the samples. |
| OrderStatistics.PercentilesAreMonotone | src/trackrelay/experiments/request_timings.py:19-27 | Slower requests never lower either p95. |
| OrderStatistics.NearestRankIsLeast | src/trackrelay/aws_async_integration.py:326-330 | The nearest-rank p95 is the least value that at least 95 percent of the samples do not exceed. |
| OrderStatistics.InterpolatedAtMostNearestRank | src/trackrelay/experiments/request_timings.py:19-27 | Unless 20 divides the sample count the interpolated p95 is at most the nearest-rank p95. |
| OrderStatistics.NearestRankAtMostInterpolated | src/trackrelay/aws_async_integration.py:326-330 | When 20 divides the sample count, the nearest-rank p95 is at most the interpolated one, and the reverse holds exactly when the two neighbouring order statistics are equal. |
| Grouping.GroupBy | src/trackrelay/request_timing.py:61-63 | The dictionary of lists holds, per key in order of first use, exactly that key's values in order. |
| Grouping.TotalIsEverything | src/trackrelay/request_timing.py:61-63 | Distinct keys that cover all pairs hold every value exactly once. |
| RequestTiming.Recorder.Append | src/trackrelay/request_timing.py:106-108 | The buffer is always the newest 5000 samples recorded since the last drain. |
| RequestTiming.Recorder.Drain | src/trackrelay/request_timing.py:57-78 | A drain empties the buffer and returns the newest 900 chunked records of it. |
| RequestTiming.ChunkValues | src/trackrelay/request_timing.py:67-77 | Stepping through a second's values 150 at a time yields its chunks. |
| RequestTiming.DrainIsBounded | src/trackrelay/request_timing.py:67-78 | At most 900 records are emitted, of 1 to 150 values each. |
| RequestTiming.NothingIsDroppedIff | src/trackrelay/request_timing.py:64-78 | A drain keeps everything exactly when the sum over its seconds of a record per 150 samples, rounded up, is at most 900. |
| RequestTiming.NothingIsDropped | src/trackrelay/request_timing.py:64-78 | Nothing is dropped while d seconds and n samples satisfy d + (n-d)/150 <= 900; a full buffer allows 873 seconds. |
| RequestTiming.ThresholdIsSharp | src/trackrelay/request_timing.py:64-78 | A full buffer over 874 seconds can lose a record. |
| RequestTiming.DrainIsLossless | src/trackrelay/request_timing.py:57-78 | When nothing is dropped, joining a second's chunks gives back its samples in order. |
| RequestTimings.CompleteMeansExactlyOnce | src/trackrelay/experiments/request_timings.py:56-65 | A log is accepted exactly when every scheduled pair occurs once and nothing else occurs. |
| RequestTimings.TimingWindows | src/trackrelay/experiments/request_timings.py:68-81 | There is one summary per occupied ten seconds, in strictly ascending order from multiples of ten; each counts exactly the requests of its ten seconds and those of them not answered with 201, with the p95 of their durations; every request lies in one, and the counts sum to the log's. |
| RequestTimings.WindowsStrictlyIncrease | src/trackrelay/experiments/request_timings.py:68-81 | Bucket starts are strictly increasing. |
| RequestTimings.WindowsConserveCounts | src/trackrelay/experiments/request_timings.py:73-81 | Sample and error counts of the returned windows add up to those of the log, and no two windows start at the same time. |
| ElasticitySession.CleanupOwner.Destroy | src/trackrelay/aws_elasticity_session.py:95-115 | Only the first request has an effect; a foreign session raises and calls nothing, diagnostics never stop the destroyer, and a raised error is remembered. |
| ElasticitySession.CleanupOwner.Verify | src/trackrelay/aws_elasticity_session.py:117-134 | Only the first request has an effect; anything but a journaled verified teardown is remembered and raised. |
| ElasticitySession.CleanupOwner.Finish | src/trackrelay/aws_elasticity_session.py:136-142 | Both are attempted whatever the first one raises, and no error is recorded twice. |
| ElasticitySession.CleanupRunsOnce | src/trackrelay/aws_elasticity_session.py:95-142 | After any requests and finish, each collaborator was called exactly once unless its first request named another session; destroy goes first unless verify was asked first. |
| ElasticitySession.DisciplinedCleanup | src/trackrelay/aws_elastic_treatment.py:627-637 | Controllers that destroy and then verify with the session they were given leave diagnostics, one destroy, one verify, whatever raises. |
| ElasticitySession.UndisciplinedCleanup | src/trackrelay/aws_elasticity_session.py:95-142 | The two ways in which undisciplined requests skip the destroyer or run it last. |
| ElasticitySession.RunPhases | src/trackrelay/aws_elasticity_session.py:245-289 | Phases complete in order up to the first failing journal write, action or checkpoint, and cleanup has served exactly the requests of the actions that ran. |
| ElasticitySession.RunElasticitySession | src/trackrelay/aws_elasticity_session.py:211-334 | Past approval cleanup always finishes, and the outcome is determined: a failed phase is never a report and never hidden by a later failure, and an error carries everything the cleanup owner remembered; without approval nothing is called. |
| ElasticitySession.ReportMeans | src/trackrelay/aws_elasticity_session.py:293-334 | A report is returned exactly when all phases completed, cleanup named only this session and raised nothing, absence was journaled as verified, and journal, summary and reporter came through. |
| ElasticitySession.FailuresAreNotHidden | src/trackrelay/aws_elasticity_session.py:293-334 | When a phase is the first that fails, the error names it and says whether its journal write, action or checkpoint failed; an error without a workflow error means that all six phases passed; every other outcome is characterised too. |
| ElasticitySession.RememberedErrors | src/trackrelay/aws_elasticity_session.py:95-142 | After finish the owner remembers an error for exactly each thing that went wrong; failing diagnostics are counted apart. |
| ElasticitySession.TeardownIsUnconditional | src/trackrelay/aws_elasticity_session.py:245-291 | Whatever phase fails, with disciplined controllers the outside sees diagnostics, one destroy, one verify, in that order. |
| SsmCollection.Channel.Execute | src/trackrelay/aws_rehost_workload.py:778-827 | One command is sent; its attempt is noted once submitted, overwritten with the observed outcome, and returned only if nothing raised. |
| SsmCollection.WaitForRecovery | src/trackrelay/aws_rehost_workload.py:830-866 | The gate ends with a probe that reported success and a collect allowed next, or with nothing allowed, because the last probe was not provably lost or was the eighth. |
| SsmCollection.RunCollect | src/trackrelay/aws_rehost_workload.py:899-948 | A collect action sends a maximal permitted command sequence, stops only when its last command may not be followed, and reads evidence exactly from a last collect that reported success. |
| SsmCollection.RunPrepare | src/trackrelay/aws_rehost_workload.py:882-897 | A prepare action sends its one command and succeeds exactly when that reported success. |
| SsmCollection.NextIff | src/trackrelay/aws_rehost_workload.py:131-137 | Read off the reports: a collect follows exactly a successful probe; a probe follows exactly a command reported (DeliveryTimedOut, -1) or (Undeliverable, -1) below its limit of eight in a row or three collects. |
| SsmCollection.FollowedMeansReported | src/trackrelay/aws_rehost_workload.py:858-866 | Whatever was followed by another command came back without a journal error and was reported (DeliveryTimedOut, -1) or (Undeliverable, -1), or was a probe reported (Success, 0). |
| SsmCollection.OnlySafeCommandsAreFollowed | src/trackrelay/aws_rehost_workload.py:858-866 | Only a provably lost command or a successful probe is ever followed by another command. |
| SsmCollection.CollectRunsAtMostOnce | src/trackrelay/aws_rehost_workload.py:131-137 | At most one collect may have run on the host, and nothing was sent after it. |
| SsmCollection.CollectFollowsProbe | src/trackrelay/aws_rehost_workload.py:900-921 | Every collect comes directly after a successful probe. |
| SsmCollection.AtMostTwentySeven | src/trackrelay/aws_rehost_workload.py:88-90 | A collect action sends at most 27 commands. |
| SsmCollection.TwentySevenIsReached | src/trackrelay/aws_rehost_workload.py:88-90 | The bound is sharp. |
| SsmCollection.NotedCollectsAreLost | src/trackrelay/aws_rehost_workload.py:799-827 | In the attempts list every collect but the last attempt was provably never delivered. |
| ErrorEvidence.EvidenceIsBounded | src/trackrelay/aws_diagnostics.py:16-33 | On any error graph the walk ends with at most twenty records, one per distinct error, in the order first met. |
| ErrorEvidence.EvidenceIsComplete | src/trackrelay/aws_diagnostics.py:16-33 | Below twenty the visited errors are exactly those reachable through the followed links. |
| ErrorEvidence.WorkflowErrorIsFollowed | src/trackrelay/aws_diagnostics.py:27-29 | A newly met error with a workflow error shows that error's own record as its cause, made next unless it was met before or there is no room, whatever the exception was raised from. |
| ErrorEvidence.CauseIsFollowed | src/trackrelay/aws_diagnostics.py:27-29 | Without a workflow error the cause takes that place. |
| ErrorEvidence.SummariesAreExact | src/trackrelay/aws_diagnostics.py:22-26 | Every summary shows the name of the error visited at its place, and its message, cut after 2000 characters, exactly when a controller raised it. |
| ErrorEvidence.CleanupIsShownInOrder | src/trackrelay/aws_diagnostics.py:30-32 | A record has one entry per cleanup error, at its place. |
| ErrorEvidence.ForeignMessagesAreWithheld | src/trackrelay/aws_diagnostics.py:23-26 | A retained message belongs to a controller error and has at most 2000 characters. |
| ErrorEvidence.Collect | src/trackrelay/aws_diagnostics.py:16-33 | The recursion over a shared set returns the record of the walk, leads from a newly met error first to its workflow error and without one to its cause, adds exactly the visited errors, and terminates on cyclic graphs. |
| ErrorEvidence.CollectEvidence | src/trackrelay/aws_diagnostics.py:11-13 | From an empty set, the record shows the given error and leads on in that order; the number of records equals the growth of the set and is at most twenty. |

## Left out

- Queue, database, HTTP, remote-command, infrastructure and container calls: their results are arbitrary inputs, and failures may happen at any of them.
- Adapters, partner lookup, payload validation and the 4xx answers of `ingest_partner_event` (src/trackrelay/main.py:662-697): each is settled by one branch; the payload field of events is not modelled.
- Time zones, float rounding of timestamps and of 0.95 times n: times are exact reals and ranks exact rationals.
- Approximate queue counts: a drained observation reads exact counts, all at once in DeliveryProtocol.DrainedMeansDeliveredOnce and one after the other in DeliveryCompletion.DrainedReadsMeanReceived.
- Locks and threads: the receipt store and the sample buffer are sequential objects, which their locks make them.
- Gateway.IngestPartnerEvent: covers a publication that ends, fails to enqueue, or fails to commit; errors that are neither queue nor database errors propagate in the source and are not modelled.
- DeliveryWorker.ProcessBatch: processes one batch without other workers running in between; interleaving is covered by the protocol lemmas.
- DeliveryProtocol.DrainedMeansDeliveredOnce: assumes that the receipt store keeps its receipts; a restart of the simulator or a clear of the store is not a protocol step.
- DeliveryRelay.PublishBatch: takes the selected batch as given; the order and size limit of the selecting query are not modelled.
- SsmCollection.RunCollect: returns the command whose output is read; parsing the evidence line is not modelled, and a journal write either happens or raises.
- TreatmentReasons.Evaluate: takes the common guardrails' reasons as an input list.
- ElasticitySession.RunElasticitySession: approval validation is one Boolean, and checkpoints and the recorded summary are inputs of the phase rather than contents of a manifest file.
- Scenarios.BuildCorrectnessManifest: builds the manifest; sending it, switching the simulator off for the outage scenario and reconciling the run are not modelled.
- Manifest.GenerateInputManifest: takes the random draws as inputs, for all draws, and does not model how the run id is derived from the seed.
- AsyncGuardrails.DrainWindow: the reconciliation report and the combined pass flag of the evaluation are not modelled.
- CloudWatchCoverage.CoverageError: reports acceptability, not the wording of the error.
- Rehost, vertical-scaling, native-inventory, transition and diagnostic controllers beyond the retry and cleanup logic: long, but each step is a single check.
- Rendering, operator progress, argument parsing, signal handling and file writing.
