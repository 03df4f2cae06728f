# Vulna: verified models

A Dafny model of the parts of Vulna whose correctness spans several functions or whole runs, and proofs
about it. `dafny verify dfyconfig.toml` checks everything.

What is modelled, core by core:

- **Result delivery of the Scout.** A workflow runner offers batches and one completion marker per scanner
  to a durable queue that may refuse them (`Workflow`, `StreamingRunner`). The queue is a directory of
  files that survives crashes and clocks that go backwards (`ResultKeys`, `ResultQueue`, `DurableQueue`).
  `Finalizer` delivers what the queue had refused and retries one fixed report (`TerminalReports`);
  `ScoutLoop` is the loop that drives it and `Lease` its timing. `Delivery` puts worker, queue, drain,
  finalizer, server, reaper and crashes into one step system and `DeliveryProof` proves what holds on all its
  runs. The real queue refines the queue of the step system (`ResultQueue.RunRefinesFifo`); the runner's
  trace is a first part of the whole trace (`StreamingRunner.RunStreaming`, `Workflow.CutIsPrefix`), whose
  outputs are said of the scanners' runs alone (`RunContents`) and whose
  acts are enabled steps of the worker (`RunnerDelivery.RunnerTakesEmitSteps`); and the finalizer takes its
  steps (`Finalizer.FinalizerTakesDeliverSteps`). `RunnerDelivery.MarkerMeansEveryBatch` puts them together.
- **Scope arithmetic.** Policies, jobs and chunks over real sets of 32- and 128-bit addresses
  (`Addresses`, `ScopePolicy`, `Chunks`).
- **Relay firewall.** The compiled rule list and what it means (`RelayFirewall`), and the commands that
  install and remove it, iteration after iteration (`RelayAgent`).
- **CVE matching.** The version comparator (`Versions`), the matcher and its product index
  (`CveMatching`), and the migration that fills the index (`CveIndexMigration`).
- **Audit chain.** Backfill, sealing trigger and concurrent transactions (`AuditChain`).
- **Site access.** Three access computations (`SiteScope`), the role tables (`PermissionCatalog`) and the
  migration to grants (`GrantMigration`).
- **Command line.** The environment file and the installer that rewrites it (`EnvFile`, `Installer`), and
  backup keys and framing (`KeyDerivation`).

`Wrappers`, `Ordering` and `Arithmetic` hold what the others share.

Code that changes state step by step is modelled by classes and methods with loops, each proved against a
specification function; the properties are lemmas about that function. I/O, clocks, randomness, scanner
behaviour, routing answers and the success of commands are parameters, so every property holds for all of
their values. Hashes, the pseudorandom function and the cipher are abstract functions; a property that
needs a hash without collisions says so in its `requires`.

## Where the code does less than promised

Each of these is proved, with the exact condition under which the promise holds.

- Insertion order of the queue is lost after the last 64-bit stamp
  (`ResultQueue.AppendsUnlessStampsExhausted`, `ResultQueue.StampOverflowReorders`).
- Markers come last, whatever scanners and sink do, exactly in workflows that name no installed plugin twice
  (`StreamingRunner.LegalExactlyWithDistinctScanners`, `Workflow.RepeatedPluginIsNotLegal`).
- The comment at `scout/internal/agent/agent.go:137-139` says that a partitioned Scout stops before the
  server's lease ends. With calls at most d apart and requests of at most e, every job does so exactly when
  d + 3e is at most 30 seconds, because both reports of its start precede the stamp and the second may be lost
  (`Lease.SafeExactlyWhenThreeLatenciesFit`). It is d + 2e once the second report has been served
  (`Lease.SafeExactlyWhenTwoLatenciesFit`), and after a renewal for e <= d (`Lease.SafeAfterRenewalExactly`).
  The client allows a request 30 seconds, and the loop drains the whole backlog and sends a heartbeat
  between two calls, so neither d nor e is that small by construction.
- A completion marker should stand for every batch of its scanner. The server refuses uploads of an active
  attempt whose lease has expired, the Scout drops what was refused, and once the reaper has marked the
  attempt as expired its uploads are taken again: the marker can be stored without a batch
  (`DeliveryProof.ReapedMarkerWithoutBatch`). It stands for every batch exactly when none was lost so, and
  always for an attempt that was not reaped (`DeliveryProof.MarkerAcceptedLast`).
- The comment at `scout/internal/scanners/chunk.go:20-23` says that every address is in exactly one chunk.
  That holds for every limit exactly when no two targets share an address
  (`Chunks.OneChunkExactlyForDisjointTargets`, `Chunks.DisjointTargetsAreChunkedOnce`,
  `Chunks.RepeatedTargets`).
- The approved scope is tested prefix by prefix: a target that only several approved prefixes cover
  together is refused (`ScopePolicy.UnionIsNotEnough`). A host limit of 2^30 or more never rejects a job by
  its address count (`ScopePolicy.VerifyJob`).
- The relay ignores the exit status of the commands around its chains. Which failures leave the chains
  ready, or removed, is stated exactly (`RelayAgent.EnsuredMeans`, `RelayAgent.RemovedMeans`). A check that
  fails although the jump is there leaves a second jump, which survives the next removal
  (`RelayAgent.SecondJumpSurvivesRemoval`). A failed flush leaves the earlier configuration in front, which
  keeps deciding every tunnel packet while the relay reports success
  (`RelayAgent.FailedFlushKeepsOldRules`, `RelayAgent.Relay.Configure`).
- The migration of the CVE index misses criteria in the 2.2 notation, which the matcher understands. Its
  table finds every matched product exactly when none is named for matching by such criteria alone
  (`CveIndexMigration.TableIsComplete`, `CveIndexMigration.ShortNotationIsMissed`).
- The grant migration gives every pentest approver the right to request pentests, takes keys without site
  scope from users of assigned sites, and turns an assignment row filed under another organization into a
  grant (`GrantMigration.ApproversMayRequest`, `GrantMigration.OrganizationKeysNeedOrganizationGrants`,
  `GrantMigration.SiteAccessIsPreserved`). The first lasts until the application synchronizes the built-in
  roles, which deletes keys outside today's table (`GrantMigration.SynchronizationRestoresAccess`).
- The installer rotates every secret when the environment file exists but cannot be read, and drops keys
  it does not know (`Installer.ValuesSurviveExactlyWhenRead`, `Installer.ApplyKeepsSettings`).
- Encrypting a backup refuses an empty passphrase and decrypting one does not
  (`KeyDerivation.DecryptInvertsEncrypt`, `KeyDerivation.EmptyPassphraseOpens`).

## Model

| member | source | states |
|---|---|---|
| `ResultKeys.FramedInjective` | scout/internal/api/client.go:29-39 | Job, stage, scanner, completion flag and payload can be read back from the hashed bytes: two uploads with the same bytes are the same upload, if the names contain no NUL. |
| `ResultKeys.KeyInjective` | scout/internal/queue/queue.go:57-67 | Two result keys are equal exactly when all five parts are, for a collision-free hash: nothing is mistaken for a duplicate. |
| `ResultKeys.FencedKeyInjective` | scout/internal/queue/queue.go:45-53 | Two queue keys are equal exactly when result key and attempt are, and the fencing token where there is an attempt. |
| `ResultQueue.EnqueueKeepsConsistent` | scout/internal/queue/queue.go:103-143 | Whatever the outcome, the queue stays sorted with distinct keys, gains exactly the offered item or nothing, stays within its cap, and reports a duplicate exactly when the key is there. |
| `ResultQueue.AppendsUnlessStampsExhausted` | scout/internal/queue/queue.go:113-120 | An item goes to the back whatever the clock says, if and only if the last stamp is below the largest 64-bit integer (or the items left all carry the smallest stamp and a smaller key). |
| `ResultQueue.StampOverflowReorders` | scout/internal/queue/queue.go:113-120 | With the last 64-bit stamp used, the next item wraps around and overtakes an older one: a concrete queue where insertion order is lost. |
| `ResultQueue.EnqueueRefinesFifo` | scout/internal/queue/queue.go:103-143 | One enqueue does to the items, stamps forgotten, what a plain append-if-new-and-it-fits queue does, with the same outcome. |
| `ResultQueue.RunRefinesFifo` | scout/internal/queue/queue.go:79-235 | Over any sequence of enqueues, enqueues lost to a fault or a crash, drains and restarts, under any clock readings that leave one stamp per operation, the pending items are the plain queue's, in its order. |
| `ResultQueue.RunStaysWithinCap` | scout/internal/queue/queue.go:122-130 | A queue opened within its byte cap never exceeds it, on any run. |
| `DurableQueue.FileNames` | scout/internal/queue/queue.go:99-142 | Entry and temporary file names never coincide, and different keys have different files. |
| `DurableQueue.ListingUnique` | scout/internal/queue/queue.go:152-184 | A directory denotes one listing only. |
| `DurableQueue.Queue.constructor` | scout/internal/queue/queue.go:86-86 | A queue over a directory, with no stamp used yet. |
| `DurableQueue.Queue.Open` | scout/internal/queue/queue.go:79-97 | Fails exactly when some entry does not decode; otherwise the directory is untouched and stamps resume behind the latest stored one. |
| `DurableQueue.Queue.PendingLocked` | scout/internal/queue/queue.go:152-184 | Reads, decodes and sorts the entries: fails exactly on an undecodable one, else returns the directory's listing. |
| `DurableQueue.Queue.Pending` | scout/internal/queue/queue.go:146-150 | Never fails on a queue that opened, and returns the abstract items in delivery order. |
| `DurableQueue.Queue.Backlog` | scout/internal/queue/queue.go:188-207 | Count and payload bytes of the pending items. |
| `DurableQueue.Queue.Enqueue` | scout/internal/queue/queue.go:103-143 | Against the directory: does what the abstract enqueue does; a write or a rename that fails leaves the listing as it was, so a half-written item is never visible. |
| `DurableQueue.Queue.TakeStamp` | scout/internal/queue/queue.go:113-120 | The persisted stamp is the clock, or one past the latest, with 64-bit wrap-around, and the latest stamp never moves back. |
| `DurableQueue.Queue.Write` | scout/internal/queue/queue.go:136-142 | Temporary file, then rename: the listing gains exactly the item, at its place in delivery order. |
| `DurableQueue.Queue.Drain` | scout/internal/queue/queue.go:213-235 | Uploads oldest first and stops at the first item that was not both uploaded and removed; exactly the uploaded prefix is gone, and what was sent is that prefix and the item it stopped at. |
| `DurableQueue.Queue.Restart` | scout/internal/queue/queue.go:79-97 | After a crash at any moment, opening the directory again gives the same items. |
| `StreamingRunner.RunStreaming` | scout/internal/scanners/scanners.go:192-378 | Said of the scanners' runs alone: without a cancellation the trace holds a batch exactly if one of the runs of its stage yields it (a run per chunk for discovery, one for any other stage; the events' batches of a streaming scanner with a sink, the raw result otherwise) and a marker exactly for a stage none of whose runs failed; the failed stages are those with a failed run; the units are the runs. The trace is the one the sink's answers determine, cut where a cancellation was noticed; the result carries exactly what the sink did not take; percentages follow the units and never decrease for honest streamers; with distinct plugins the trace is legal. |
| `StreamingRunner.ExecuteChunks` | scout/internal/scanners/scanners.go:262-352 | The chunk loop: the trace grows by each chunk's batches in turn, and one failure is recorded per failed stage however many chunks fail. |
| `StreamingRunner.RunChunk` | scout/internal/scanners/scanners.go:274-333 | One scanner over one chunk: each non-empty batch is offered once, in order; host counts move the bar within this unit only. |
| `StreamingRunner.Offer` | scout/internal/scanners/scanners.go:278-298 | An output the sink refuses, or that there is no sink for, is kept in the result; nothing is both sent and kept. |
| `StreamingRunner.FinishStage` | scout/internal/scanners/scanners.go:354-374 | A stage that did not fail ends with its marker, offered to the sink only if the sink took every batch of the stage. |
| `StreamingRunner.Resolve` | scout/internal/scanners/scanners.go:209-226 | Plugins with a registered scanner run, in order; each other entry is recorded as unavailable. |
| `StreamingRunner.CountUnits` | scout/internal/scanners/scanners.go:228-241 | Work units: the number of chunks for each discovery stage, one for each other stage. |
| `RunContents.WholeTraceDelivers` | scout/internal/scanners/scanners.go:244-374 | The whole trace holds the outputs the stages' runs call for, and no others. |
| `RunContents.FirstPartDelivers` | scout/internal/scanners/scanners.go:262-301 | A trace that is cut holds nothing else. |
| `RunContents.StageMeans` | scout/internal/scanners/scanners.go:248-273 | A stage runs over all chunks exactly if it is a discovery stage, and otherwise once; its batches, its failure and its marker are those of these runs. |
| `RunContents.UnitsMean` | scout/internal/scanners/scanners.go:228-241 | The units are the number of chunks times the number of discovery stages plus the number of the others. |
| `StreamingRunner.ResolvedInTurn` | scout/internal/scanners/scanners.go:209-226 | An entry with an installed plugin is run at the place that the installed entries before it leave it, by its own scanner. |
| `StreamingRunner.MissingAreRecorded` | scout/internal/scanners/scanners.go:212-223 | Exactly the entries whose plugin is missing are recorded as unavailable. |
| `StreamingRunner.FailuresMean` | scout/internal/scanners/scanners.go:336-343 | A failure is recorded exactly for the stages with a failed run. |
| `StreamingRunner.FailuresCounted` | scout/internal/scanners/scanners.go:336-362 | There is one failure for each stage with a failed run. |
| `StreamingRunner.PercentMonotone` | scout/internal/scanners/scanners.go:420-441 | More completed units never give a smaller percentage. |
| `StreamingRunner.PercentMeans` | scout/internal/scanners/scanners.go:430-438 | The percentage is the whole part of a hundred times the share of units done, and 99 at most. |
| `StreamingRunner.FractionMeans` | scout/internal/scanners/scanners.go:312-316 | Within a unit hosts count against its addresses, up to all of them. |
| `StreamingRunner.EveryStageIsCounted` | scout/internal/scanners/scanners.go:354-374 | Markers and failures of the stages that are over add up to their number. |
| `StreamingRunner.EveryStageEndsOnce` | scout/internal/scanners/scanners.go:354-374 | With distinct scanners a stage that is over has its failure exactly if one of its runs failed, and its marker exactly if none did: one of the two, never both. |
| `StreamingRunner.DistinctPluginsRunDistinctScanners` | scout/internal/scanners/scanners.go:102-110 | A workflow that names each plugin once runs each scanner once. |
| `Workflow.StagesExact` | scout/internal/scanners/scanners.go:192-378 | Every non-empty batch appears exactly once and in order, so does the marker of every stage that did not fail, and where each went is what the sink answered. |
| `Workflow.CutExact` | scout/internal/scanners/scanners.go:262-266 | A cancelled run has produced a prefix of the batches, none lost or repeated. |
| `Workflow.CutIsPrefix` | scout/internal/scanners/scanners.go:262-266 | Wherever a run is cancelled, what it did is the first part of what the whole run does. |
| `Workflow.StagesLegal` | scout/internal/scanners/scanners.go:357-374 | With distinct scanners nothing of a scanner follows its marker, and a marker is offered to the sink only after the sink took every batch in front of it. |
| `Workflow.CutLegal` | scout/internal/scanners/scanners.go:262-266 | The same when the run is cancelled after any chunk of any stage. |
| `StreamingRunner.LegalExactlyWithDistinctScanners` | scout/internal/scanners/scanners.go:192-378 | Whatever scanners and sink do, markers come last in this sense, if and only if the workflow names no installed scanner twice. |
| `Workflow.RepeatedPluginIsNotLegal` | scout/internal/scanners/scanners.go:209-226 | A workflow that names a plugin twice breaks it: a batch of the second stage follows the marker of the first. |
| `DeliveryProof.StepKeeps` | scout/internal/agent/agent.go:72-85 | Every step of worker, finalizer, queue, drain, server, reaper and crash keeps the eleven-part invariant. |
| `DeliveryProof.RunKeeps` | scout/internal/agent/agent.go:309-468 | So does every run. |
| `DeliveryProof.MarkerAcceptedLast` | scout/internal/agent/agent.go:362-396 | On every run, through refusals, a full queue, partial drains, lost acknowledgements, crashes, fences, lapsed leases and reaping: before the server takes a completion marker it took every batch of that scanner, exactly except those the Scout dropped after a refusal and that were not taken otherwise; there are none unless the attempt was reaped. |
| `DeliveryProof.BatchAnswered` | scout/internal/queue/queue.go:213-235 | The server's order is the queue's order: the batch in question is among the items answered, by taking or by refusing them, before the marker. |
| `DeliveryProof.ReapedMarkerWithoutBatch` | dash/backend/app/api/v1/probes.py:207-221 | For every attempt, batch and marker a run in which the lease lapses, the batch is refused and dropped, the reaper marks the attempt, and the server takes the marker without the batch. |
| `DeliveryProof.AcceptedItemsAreSafe` | scout/internal/queue/queue.go:103-143 | An item the queue said yes to is for ever after pending, taken, or lost to a refusal of its attempt, which then was fenced or had lapsed; a taken item has its row, once however often it was sent. |
| `DeliveryProof.RowsTellApart` | dash/backend/alembic/versions/a1b2c3d4e5f6_phase_27_probe_result_uploads.py:41-43 | Two uploads go to one row if and only if they are of one job and agree in payload, completion flag, stage and scanner, after the defaults, for names without NUL and a hash without collisions. |
| `DeliveryProof.TakenContentIsStored` | scout/internal/api/client.go:29-39 | On every run the uploads the server took have their rows, and two that differ in job, stage, scanner, payload or completion flag have different ones. |
| `DeliveryProof.RowsComeFromWork` | dash/backend/alembic/versions/a1b2c3d4e5f6_phase_27_probe_result_uploads.py:23-43 | A stored row comes from an item that some attempt's worker really produced. |
| `DeliveryProof.OneTerminalReport` | scout/internal/agent/agent.go:352-360 | Two terminal reports sent for one attempt are identical. |
| `DeliveryProof.EnqueueKeeps` | scout/internal/queue/queue.go:103-143 | An accepted enqueue keeps the queue in the order of first enqueueing, with nothing lost and every item traceable. |
| `DeliveryProof.UploadKeeps` | scout/internal/agent/agent.go:72-85 | An upload, acknowledged or not, taken or refused, keeps order and loses nothing but a refused item. |
| `DeliveryProof.FinalizerHasBatches` | scout/internal/agent/agent.go:362-396 | The finalizer reaches a marker only after every batch the sink had refused. |
| `RunnerDelivery.RunnerTakesEmitSteps` | scout/internal/agent/agent.go:330-345 | For distinct scanners with clean names, and with the queue as sink, which may refuse for want of room or for a fault, every act of the runner is in turn an enabled step of the pipeline, wherever uploads, fences, lapses and reaping fall in between. |
| `RunnerDelivery.MarkerPlace` | scout/internal/scanners/scanners.go:354-374 | A marker in the runner's trace is the last act of its own stage, and no chunk of that stage failed. |
| `RunnerDelivery.AcceptedMarkerCoversStage` | scout/internal/agent/agent.go:72-85 | For an attempt that did a first part of what the runner does: if the server takes a stage's marker, no run of the stage failed, and each batch its runs yield was taken before exactly if it was not lost; all were if the attempt was not reaped. |
| `RunnerDelivery.MarkerMeansEveryBatch` | scout/internal/scanners/scanners.go:278-298 | The same from start to end: any run before, the start of the attempt, its runner interleaved with uploads and the server's steps, an end by completion, cancellation or crash anywhere, and any run after. |
| `Finalizer.Agent.Finalize` | scout/internal/agent/agent.go:352-457 | The first call delivers what the sink did not take and fixes the bounded report; every later call sends that same report and leaves the queue alone; a refusal by the queue is reported as a failure. |
| `Finalizer.Agent.DeliverOutputs` | scout/internal/agent/agent.go:362-396 | Outputs are offered in order, empty batches skipped, and nothing after the first refusal. |
| `Finalizer.WorthMeans` | scout/internal/agent/agent.go:363-366 | Offered are exactly the outputs that are not empty or are markers. |
| `Finalizer.NothingIsSkipped` | scout/internal/agent/agent.go:363-366 | Of what the runner carries nothing is skipped. |
| `Finalizer.Agent.ReportTerminal` | scout/internal/agent/agent.go:462-468 | The bounded report is stored, and what is sent is the stored report. |
| `Finalizer.Agent.Send` | scout/internal/agent/agent.go:352-360 | Only a report that is stored can be sent, first send and retries alike. |
| `Finalizer.FinalizerTakesDeliverSteps` | scout/internal/agent/agent.go:362-396 | What the finalizer does to the real queue is, output by output, what the step system does to its abstract queue. |
| `Finalizer.CompletedMeansNothingFailed` | scout/internal/agent/agent.go:397-446 | For the result of a run of the workflow: the job is reported completed if and only if it was not cancelled, had a stage that could run, and no run of any stage failed; every other report carries details. |
| `TerminalReports.BoundsToSchema` | scout/internal/agent/agent.go:470-502 | A report fits the orchestrator's limits exactly when bounding leaves it unchanged; a bounded report always fits, so bounding twice is bounding once. |
| `TerminalReports.BoundKeepsDetails` | scout/internal/agent/agent.go:470-502 | Details keep their order: all, the first fifty, or for a cancellation the first forty-nine and the last. |
| `TerminalReports.ReportIsHonest` | scout/internal/agent/agent.go:397-446 | For a result whose failed stages have failures: completed means that something ran and nothing failed; every other report says why, and a cancellation's reason is its last detail however many failures came before. |
| `TerminalReports.CancelTellsReason` | scout/internal/agent/agent.go:397-425 | Code and message tell the four reasons of a cancellation apart, each code being the reason's own. |
| `TerminalReports.TruncateRunes` | scout/internal/agent/agent.go:504-516 | What is within the limit is unchanged; a longer text keeps its first part and ends in an ellipsis at the limit. |
| `Lease.RunningJob.Begin` | scout/internal/agent/agent.go:242-281 | There is a job exactly if the accepted report was acknowledged; its stamp is taken after both reports, whatever became of the second. |
| `Lease.RunningJob.RenewLease` | scout/internal/agent/agent.go:129-146 | One call does what the timing model says: no request within 30 s, cancel on a stale attempt or 150 s without renewal. |
| `Lease.StopsInTime` | scout/internal/agent/agent.go:115-146 | For calls at most d apart, requests of at most e and a stamp at most gap ahead of the server's, the worker is renewed or stopped less than gap + 150 s + d + e after the server's last extension, on a nanosecond clock. |
| `Lease.LateStopExists` | scout/internal/agent/agent.go:115-146 | For every gap, d and e some run comes within one nanosecond of that bound. |
| `Lease.SafeExactlyWhenItFits` | scout/internal/agent/agent.go:115-146 | From a stamp at most gap ahead every worker stops before the 180 s lease is over if and only if gap + d + e <= 30 s. |
| `Lease.SafeExactlyWhenThreeLatenciesFit` | scout/internal/agent/agent.go:242-281 | Every job, however its two start reports fared, stops before its lease is over if and only if d + 3e <= 30 s: the second report may be lost, and the stamp then runs two requests ahead. |
| `Lease.SafeExactlyWhenTwoLatenciesFit` | dash/backend/app/api/v1/probes.py:1163-1165 | If the server has served the running report, d + 2e <= 30 s is necessary and sufficient. |
| `Lease.SafeAfterRenewalExactly` | scout/internal/agent/agent.go:133-145 | After a renewal, however the job started, the condition is min(d, e) + d + e <= 30 s, which is d + 2e <= 30 s for e <= d. |
| `Lease.RequestTimeoutDoesNotFit` | scout/internal/api/client.go:41-44 | With the client's own 30 s request timeout none of these conditions can be met. |
| `ScoutLoop.Loop.Iterate` | scout/internal/cli/cli.go:355-490 | Each iteration appends only events that are permitted then, and the loop ends with no worker left running. |
| `ScoutLoop.Loop.Report` | scout/internal/cli/cli.go:439-478 | The worker's result is taken once and kept; a report is sent exactly when it is due, with that result; if it fails the next one is put off by the delay, which doubles up to 30 s, and if it is acknowledged the loop is free and the delay starts over. |
| `ScoutLoop.Loop.Answer` | scout/internal/cli/cli.go:417-436 | A poll starts a job only when there is none; the job is cancelled exactly if the answer names it and its result is not in yet. |
| `ScoutLoop.JobsDoNotOverlap` | scout/internal/cli/cli.go:417-436 | Between the starts of two jobs the report of the first was acknowledged. |
| `ScoutLoop.RetriesBackOff` | scout/internal/cli/cli.go:451-461 | A failed report is repeated for the same job with the same result, and no sooner than the delay after the failure. |
| `ScoutLoop.DelayDoubles` | scout/internal/cli/cli.go:458-461 | The delays are 1, 2, 4, 8, 16 and then 30 seconds. |
| `Addresses.ContainmentTest` | scout/internal/policy/policy.go:148-158 | The bit-length and network-address test holds exactly when every address of the target is in the approved prefix. |
| `Addresses.OverlapTest` | scout/internal/policy/policy.go:137-141 | The overlap test holds exactly when the two prefixes share an address. |
| `Addresses.MaskedIsInterval` | scout/internal/policy/policy.go:160-169 | A prefix is the interval of 2^(host bits) addresses from its masked address. |
| `Addresses.PrefixFits` | scout/internal/scanners/chunk.go:107-112 | A prefix never reaches past the last address of its family. |
| `Addresses.AddressesCounted` | scout/internal/policy/job.go:289-301 | The address count of a prefix is the number of addresses it contains. |
| `ScopePolicy.TargetPrefixDenotes` | scout/internal/policy/policy.go:160-169 | The parsed prefix is masked and denotes exactly the addresses of the target. |
| `ScopePolicy.ApprovedContains` | scout/internal/policy/policy.go:148-158 | The scope test holds exactly when one approved prefix includes the target. |
| `ScopePolicy.UnionIsNotEnough` | scout/internal/policy/policy.go:148-158 | A target covered only by two approved prefixes together is refused. |
| `ScopePolicy.AllowsTarget` | scout/internal/policy/policy.go:129-146 | The verdict is the one the address sets give: inside an approved prefix, disjoint from every denied one, private network address unless public is allowed. |
| `ScopePolicy.AllowsWorkflow` | scout/internal/policy/policy.go:109-127 | A workflow passes exactly when every named plugin is permitted and active ZAP is used only with its own permission; plugins are checked first. |
| `ScopePolicy.HostCountSaturates` | scout/internal/policy/job.go:291-301 | The host count of a target is the smaller of 2^30 and its number of addresses. |
| `ScopePolicy.VerifyTargets` | scout/internal/policy/job.go:150-164 | The first refused target decides; without one the total is exactly the smaller of 2^30 and the true count. |
| `ScopePolicy.VerifyJob` | scout/internal/policy/job.go:97-182 | After the signature, a job is accepted exactly when it is acceptable: in time, for this probe and policy, all targets allowed, true address count within a limit below 2^30, every ceiling, plugin and credential rule kept; a rejection names a rule that the job breaks. |
| `ScopePolicy.EnforceLimits` | scout/internal/policy/job.go:305-323 | Each of the four declared limits is at most its own ceiling, where that is positive. |
| `ScopePolicy.FirstRefusalMeans` | scout/internal/policy/job.go:150-164 | The verdict of a refusal is that of the first target that is not allowed. |
| `ScopePolicy.WorkflowRefusals` | scout/internal/policy/job.go:174-179 | A plugin is refused exactly if some stage names one that is not permitted, and active scanning exactly if a ZAP stage asks for it without permission. |
| `ScopePolicy.PrivateMeans` | scout/internal/policy/policy.go:171-174 | The blocks are 10/8, 172.16/12, 192.168/16, 127/8, 169.254/16 and 224.0.0/24 by octets, and fc00::/7, ::1, fe80::/10 and link-local multicast by the first sixteen bits. |
| `Chunks.PrefixSizeSaturates` | scout/internal/scanners/chunk.go:96-105 | A unit's size is the smaller of 2^31 - 1 and its number of addresses. |
| `Chunks.PackedSplits` | scout/internal/scanners/chunk.go:32-47 | Packing splits the units in order into non-empty chunks that are single units or within the limit. |
| `Chunks.PackedIsFewest` | scout/internal/scanners/chunk.go:32-47 | No order-preserving split of the units into such chunks has fewer chunks. |
| `Chunks.PiecesTile` | scout/internal/scanners/chunk.go:58-82 | The /24 pieces end exactly where the prefix ends and start on /24 boundaries, so stepping never wraps into an emitted address. |
| `Chunks.PiecesCount` | scout/internal/scanners/chunk.go:70-82 | The pieces are disjoint: each address between the first and the end is covered once, any other not at all. |
| `Chunks.Subdivide` | scout/internal/scanners/chunk.go:58-82 | An IPv4 range of more addresses than the limit and than 256, and of at most 4096 * 256, becomes blocks of 256 addresses, as many as it holds; anything else stays one unit, an IPv4 range with its host bits cleared. The loop's 32-bit steps emit exactly the pieces. |
| `Chunks.SubdividedCount` | scout/internal/scanners/chunk.go:58-82 | Subdividing covers every address exactly as often as the target did. |
| `Chunks.ChunkTargets` | scout/internal/scanners/chunk.go:24-52 | The chunks are a split of the subdivided targets that fits, with the fewest chunks of all such splits, none empty, and every address is covered exactly as often as by the targets. In true numbers of addresses: if the limit is at least 256 and no target is an IPv6 range or an IPv4 range of more than 4096 * 256 addresses, no chunk exceeds the limit; of any targets, no chunk of several units does (for limits below 2^31 - 1); a target that is not divided is one unit of some chunk. |
| `Chunks.ChunksAreBounded` | scout/internal/scanners/chunk.go:15-52 | The same for every fitting split of the subdivided targets, not only the one made. |
| `Chunks.SizeIsEstimate` | scout/internal/scanners/chunk.go:84-105 | The capped sizes that packing adds up are true numbers of addresses, unless a cap is reached. |
| `Chunks.CoveringIsCount` | scout/internal/scanners/chunk.go:32-47 | The chunks an address is in are at most the units that cover it, at least one if any does, and exactly as many if every chunk is a single unit. |
| `Chunks.DisjointTargetsAreChunkedOnce` | scout/internal/scanners/chunk.go:20-23 | If no two targets share an address, every covered address is in exactly one chunk, whatever the limit. |
| `Chunks.OneChunkExactlyForDisjointTargets` | scout/internal/scanners/chunk.go:20-23 | Every address is in at most one chunk for every limit, if and only if no two targets share an address. |
| `Chunks.RepeatedTargets` | scout/internal/scanners/chunk.go:32-47 | The same /24 twice, with the limit of one /24, is scanned in two chunks; the same /30 twice ends up in one. |
| `Chunks.AcceptedJobStaysInScope` | scout/internal/policy/job.go:143-182 | Every address in any such chunks of an accepted job lies in some approved prefix and in no denied one. |
| `Chunks.TargetAddressCount` | scout/internal/executor/worker.go:150-168 | The estimate with its early returns is the smaller of 10^9 and the true sum. |
| `RelayFirewall.CompilationMeans` | scout/internal/relayagent/agent.go:456-487 | The verdict of the chain for every packet, for any order of the return rules. |
| `RelayFirewall.TunnelPolicy` | scout/internal/relayagent/agent.go:456-487 | With no approved range routed into the tunnel, a tunnel packet is accepted exactly when its destination is in no denied range and in an approved one routed to its output interface. |
| `RelayFirewall.MasqueradeMeans` | scout/internal/relayagent/agent.go:474-477 | Traffic is masqueraded exactly if it comes from the server and goes to an approved range over that range's own route. |
| `RelayFirewall.PrefixDecidesAlike` | scout/internal/relayagent/agent.go:456-487 | While the chain is being built, what it decides already is what the finished chain decides. |
| `RelayAgent.EnsuredMeans` | scout/internal/relayagent/agent.go:489-500 | The sequence leaves an empty chain behind exactly one jump if and only if the chain is new or emptied and the jump, of which there is at most one, is found or inserted once, whichever of its four commands fail; everybody else's rules stay. |
| `RelayAgent.RemovedMeans` | scout/internal/relayagent/agent.go:511-519 | Removal leaves neither chain nor jump if and only if there was at most one jump and each command that had something to remove did so; everybody else's rules stay. |
| `RelayAgent.SecondJumpSurvivesRemoval` | scout/internal/relayagent/agent.go:489-519 | If the check fails although the jump is there, a second jump is inserted and keeps the chain alive through a removal whose commands all succeed. |
| `RelayAgent.FailedFlushKeepsOldRules` | scout/internal/relayagent/agent.go:489-500 | If the flush fails over the chain of an earlier configuration, the new rules stand behind it and the old configuration goes on deciding every tunnel packet. |
| `RelayAgent.Relay.ConfigureFirewall` | scout/internal/relayagent/agent.go:456-487 | Every content the chain passes through is what ensuring left with a first part of the compilation behind it; success means the whole compilation is there; it succeeds if the checked commands do, the routes are known and both chains exist. |
| `RelayAgent.Relay.Configure` | scout/internal/relayagent/agent.go:424-454 | On success the firewall is the fetched configuration if and only if both chains got ready; it succeeds if the checked commands do, every approved range has a route and both chains exist, even if an unchecked command failed. |
| `RelayAgent.Relay.Teardown` | scout/internal/relayagent/agent.go:502-509 | Chains, jumps and link are gone if and only if each command that had something to remove did so; foreign rules stay. |
| `RelayAgent.Relay.Iterate` | scout/internal/relayagent/agent.go:248-268 | From at most one jump, and if the unchecked commands work, an iteration leaves the firewall down or exactly the configuration just fetched, and never anything but a first part of it in between, whichever checked commands fail; as long as no check denies a jump that is there, at most one jump remains. |
| `RelayAgent.Relay.Run` | scout/internal/relayagent/agent.go:228-270 | After any number of iterations in which no check denied a jump that was there, an iteration whose unchecked commands work leaves the firewall down or exactly the configuration just fetched, whatever was fetched before and whichever other commands failed before. |
| `Versions.VersionTuple` | dash/backend/app/intelligence/matching.py:84-109 | The one-pass tokenizer yields the maximal runs of digits and of letters, in order. |
| `Versions.LettersMean` | dash/backend/app/intelligence/matching.py:84-109 | Letters are the twenty-six of either case. |
| `Versions.TokensOfRender` | dash/backend/app/intelligence/matching.py:84-109 | Printing components with dots gives a version with exactly these components. |
| `Versions.Cmp` | dash/backend/app/intelligence/matching.py:112-132 | The loop compares component by component, then by length. |
| `Versions.TokenOrder` | dash/backend/app/intelligence/matching.py:112-132 | Components are totally ordered, a mixed number and text included: the string fallback puts every number before every text. |
| `Versions.CompareIsTotalPreorder` | dash/backend/app/intelligence/matching.py:112-132 | The comparator is reflexive, antisymmetric up to equal components, and transitive on all versions. |
| `Versions.CompareMeans` | dash/backend/app/intelligence/matching.py:112-132 | Less means: the first component that differs is a smaller number, a number against a text, or a smaller text, or the version ends first. Greater is the reverse, equal is equal components. |
| `Ordering.StringLessMeans` | dash/backend/app/intelligence/matching.py:120-128 | Texts compare by the first character that differs, or the shorter comes first. |
| `Versions.VersionInRange` | dash/backend/app/intelligence/matching.py:135-150 | True exactly when there is a bound and every bound present holds. |
| `Versions.RangeMeans` | dash/backend/app/intelligence/matching.py:135-150 | In terms of that order: an included bound admits versions with its own components, an excluded one does not, and some bound is not empty. |
| `Versions.RangeIsConvex` | dash/backend/app/intelligence/matching.py:135-150 | Whatever lies between two versions of a range is in it, for every combination of bounds. |
| `CveMatching.SplitOfJoin` | dash/backend/app/intelligence/matching.py:31-53 | Splitting takes apart what joining put together. |
| `CveMatching.LowerMeans` | dash/backend/app/intelligence/matching.py:48-53 | Lower-casing turns the twenty-six capitals into their small letters and leaves everything else. |
| `CveMatching.BothNotationsAgree` | dash/backend/app/intelligence/matching.py:31-53 | The 2.3 and 2.2 notations of a plain name parse to the same identity. |
| `CveMatching.Judge` | dash/backend/app/intelligence/matching.py:180-229 | One turn of the loop yields the confidence that match gives on its own. |
| `CveMatching.SingleMatch` | dash/backend/app/intelligence/matching.py:180-227 | A match alone gives high exactly if it applies to the service, names its version, and the service's own identity is of that vendor and product; medium if it applies and names the version but the identity is not; low if it applies, does not match by version, and has neither version nor bounds. |
| `CveMatching.MatchConfidence` | dash/backend/app/intelligence/matching.py:153-232 | High if some match alone gives high; medium if none does and some gives medium; low if none gives either and some gives low; nothing otherwise, or without a product. |
| `CveMatching.BestIgnoresOrder` | dash/backend/app/intelligence/matching.py:153-232 | The best depends on which matches there are, not on order or repetition. |
| `CveMatching.ProductsFromCpeMatches` | dash/backend/app/intelligence/matching.py:70-81 | Exactly the application and operating-system products that are not wildcards. |
| `CveMatching.IndexIsComplete` | dash/backend/app/intelligence/matching.py:70-232 | A product the matcher would match is in the index exactly when it is not a wildcard. |
| `CveIndexMigration.FrozenAgreesOn23` | dash/backend/alembic/versions/cve1prod2idx3_cve_product_index.py:21-39 | The migration's copy finds what the application indexes if and only if there is nothing to index or the criteria are in the 2.3 notation. |
| `CveIndexMigration.ShortNotationIsMissed` | dash/backend/alembic/versions/cve1prod2idx3_cve_product_index.py:33-34 | A concrete 2.2 criterion that is matched and indexed by the application and missed by the migration. |
| `CveIndexMigration.Products` | dash/backend/alembic/versions/cve1prod2idx3_cve_product_index.py:21-39 | The products of one record, as the frozen copy finds them. |
| `CveIndexMigration.Backfill` | dash/backend/alembic/versions/cve1prod2idx3_cve_product_index.py:52-73 | Every (product, CVE) pair is inserted exactly once and no other, in full batches of 1000 and a last one of at most that. |
| `CveIndexMigration.TableIsComplete` | dash/backend/alembic/versions/cve1prod2idx3_cve_product_index.py:21-73 | After the migration the table finds every product the matcher matches, wildcards aside, if and only if every product a matchable 2.2 criterion names is named in the 2.3 notation for the same CVE too. |
| `CveIndexMigration.SomeServiceMatches` | dash/backend/app/intelligence/matching.py:153-232 | Whether any service can match is decided by the match's own fields: vulnerable, an application or operating system, a product that is no wildcard, and a version, no bounds, or bounds some version meets. |
| `AuditChain.Backfill` | dash/backend/alembic/versions/gov1audit2roe_audit_integrity.py:25-62 | The running (sequence, hash) per scope builds exactly the rows the trigger would have built one by one, and valid chains. |
| `AuditChain.SealExtends` | dash/backend/alembic/versions/gov1audit2roe_audit_integrity.py:224-251 | A sealed row extends its own chain and leaves every other valid. |
| `AuditChain.SealedKeepsEvents` | dash/backend/alembic/versions/gov1audit2roe_audit_integrity.py:41-62 | Every event gets one row, in the order read, with its own scope and legacy signature. |
| `AuditChain.LatestIsLast` | dash/backend/alembic/versions/gov1audit2roe_audit_integrity.py:231-238 | The row with the highest sequence, which the trigger queries, is the end of the chain. |
| `AuditChain.SequencesUnique` | dash/backend/alembic/versions/gov1audit2roe_audit_integrity.py:211-212 | No two rows of a scope share a sequence, so the unique constraint is met. |
| `AuditChain.CommitsCommute` | dash/backend/alembic/versions/gov1audit2roe_audit_integrity.py:224-251 | Two open transactions hold rows of different scopes, because scopes are locked to the end: either may commit first. |
| `AuditChain.StepKeeps` | dash/backend/alembic/versions/gov1audit2roe_audit_integrity.py:224-251 | Every begin, lock, insert, commit and abort keeps all chains valid, committed ones and those a transaction sees, and never changes a committed row. |
| `AuditChain.ChainsStayValid` | dash/backend/alembic/versions/gov1audit2roe_audit_integrity.py:25-285 | After the backfill, under any interleaving, every scope's committed rows are sequences 1 to n linked from genesis, and earlier rows stay where they were. |
| `AuditChain.SameEndSameHistory` | dash/backend/alembic/versions/gov1audit2roe_audit_integrity.py:224-251 | Two valid chains that end in the same hash have equal length, signatures and hashes throughout, unless the hash collides on their rows. |
| `SiteScope.ComputationsAgree` | dash/backend/app/auth/site_scope.py:40-225 | For a site of the organization the query filter, the check and the id set agree, in grant mode and both legacy modes, with any key or none, and fail on the same keys. |
| `SiteScope.ForeignSites` | dash/backend/app/auth/site_scope.py:116-225 | A site of another organization is never accessible; the id set names one exactly for a legacy user in assigned mode whose assignment row points there. |
| `SiteScope.KeyOnlyNarrows` | dash/backend/app/auth/site_scope.py:65-89 | Asking for a permission as well never widens access. |
| `SiteScope.GrantGivesExactlyItsScope` | dash/backend/app/auth/site_scope.py:56-96 | One more grant gives exactly what it says, to the principal it names, and takes nothing away. |
| `PermissionCatalog.TablesDiffer` | dash/backend/alembic/versions/e3f4a5b6c7d8_phase_39_authorization.py:101-133 | Exactly where the frozen role table and today's differ: the frozen one lets a pentest approver request a pentest; it lacks what belongs to areas added since. |
| `PermissionCatalog.KeysAdded` | dash/backend/app/auth/permission_catalog.py:42-340 | Today's catalogue is the frozen one plus eight whole areas. |
| `PermissionCatalog.RolesMean` | dash/backend/app/auth/permission_catalog.py:42-340 | The administrator may do everything; everybody may use the self-service keys and read what is not privileged; the auditor alone also reads the audit log; a viewer may do nothing else; only an approver approves. |
| `GrantMigration.BackfillRoles` | dash/backend/alembic/versions/e3f4a5b6c7d8_phase_39_authorization.py:326-357 | The nested loops write exactly the specified role and permission rows. |
| `GrantMigration.CollectAssignments` | dash/backend/alembic/versions/e3f4a5b6c7d8_phase_39_authorization.py:359-361 | The dictionary holds each user's assigned sites in order. |
| `GrantMigration.BackfillGrants` | dash/backend/alembic/versions/e3f4a5b6c7d8_phase_39_authorization.py:359-400 | The user loop writes exactly the specified grants. |
| `GrantMigration.RolesCarryFrozenKeys` | dash/backend/alembic/versions/e3f4a5b6c7d8_phase_39_authorization.py:326-357 | A backfilled role holds exactly the keys of the frozen table, in its own organization. |
| `GrantMigration.GrantsOfUser` | dash/backend/alembic/versions/e3f4a5b6c7d8_phase_39_authorization.py:371-397 | A user's grants are exactly: one for the organization, or one per assigned site. |
| `GrantMigration.AccessAfter` | dash/backend/alembic/versions/e3f4a5b6c7d8_phase_39_authorization.py:316-400 | Access after the migration in closed form, for any user, site and key. |
| `GrantMigration.SiteAccessIsPreserved` | dash/backend/alembic/versions/e3f4a5b6c7d8_phase_39_authorization.py:316-400 | With no key access is the same before and after if and only if the user has all sites or the assignment row is filed under the user's organization. |
| `GrantMigration.SiteKeysArePreserved` | dash/backend/alembic/versions/e3f4a5b6c7d8_phase_39_authorization.py:316-400 | With a site-scoped key access is the same exactly when the role tables agree on it or there was no access. |
| `GrantMigration.OrganizationKeysNeedOrganizationGrants` | dash/backend/app/auth/site_scope.py:80-81 | With a key that is not site-scoped, users of assigned sites lose it, all others keep it where the tables agree. |
| `GrantMigration.UnknownKeysNowFail` | dash/backend/app/auth/site_scope.py:73-75 | An unknown key was refused before and is an error after. |
| `GrantMigration.ApproversMayRequest` | dash/backend/alembic/versions/e3f4a5b6c7d8_phase_39_authorization.py:117-126 | The one permission the migration gives away, until the roles are synchronized, on a concrete user. |
| `GrantMigration.SynchronizeRole` | dash/backend/app/services/authorization.py:124-143 | One built-in role: missing keys are added and keys outside today's table deleted, every other row kept. |
| `GrantMigration.EnsureBuiltinRoles` | dash/backend/app/services/authorization.py:92-144 | The built-in roles of an organization hold exactly today's keys afterwards, and no other row changes. |
| `GrantMigration.BackfilledRowsAreOwn` | dash/backend/alembic/versions/e3f4a5b6c7d8_phase_39_authorization.py:326-357 | A backfilled row of an organization's role belongs to that organization. |
| `GrantMigration.SynchronizationRestoresAccess` | dash/backend/app/services/authorization.py:92-144 | Once the roles have been synchronized, access with every site-scoped key is what it was before the migration. |
| `EnvFile.ReadLines` | cli/internal/deploy/deploy.go:230-244 | The loop reads the settings the lines state, later lines winning. |
| `EnvFile.LinesJoin` | cli/internal/deploy/deploy.go:231-240 | The lines, with a newline between any two, are the text again, and none contains a newline. |
| `EnvFile.SpaceMeans` | cli/internal/deploy/deploy.go:231-240 | Space is what Unicode calls white space, character by character. |
| `EnvFile.Render` | cli/internal/deploy/deploy.go:247-258 | Writes the comment lines and one line per key, sorted. |
| `EnvFile.WrittenIsStable` | cli/internal/deploy/deploy.go:245-258 | The text depends on the settings alone, not on map order. |
| `EnvFile.TrimRemovesOnlySpace` | cli/internal/deploy/deploy.go:231-240 | Trimming removes leading and trailing space and nothing else. |
| `EnvFile.ParseIsClean` | cli/internal/deploy/deploy.go:222-244 | Whatever the file says, what is read is trimmed, one-line, without = or # in the wrong place. |
| `EnvFile.RoundTrip` | cli/internal/deploy/deploy.go:222-264 | Reading gives back what was written if and only if the settings are clean in that sense. |
| `Installer.BuildEnv` | cli/internal/deploy/deploy.go:74-143 | Fails exactly when a missing secret cannot be generated; otherwise yields the twelve settings and no others, each under its own name and with its existing value unless that is empty; URL and relay endpoint fall back to the domain, or to localhost. |
| `Installer.Installation.ReadEnv` | cli/internal/deploy/deploy.go:222-244 | A missing file is empty and no error. |
| `Installer.Installation.Apply` | cli/internal/deploy/deploy.go:195-218 | Writes the built settings over what it read, a file that cannot be read counting as empty; on failure the file is unchanged. |
| `Installer.Installation.SetEnvVersion` | cli/internal/deploy/deploy.go:308-316 | Writes what was read with one version; a file that cannot be read is an error. |
| `Installer.ApplyKeepsSettings` | cli/internal/deploy/deploy.go:195-218 | A run leaves the settings as they were exactly when they are the twelve and nothing empty has a fallback; other keys are dropped. |
| `Installer.ReinstallChangesNothing` | cli/internal/deploy/deploy.go:193-218 | Running the installer again leaves the file byte for byte the same, exactly when no setting still empty has been given a fallback since. |
| `Installer.ValuesSurviveExactlyWhenRead` | cli/internal/deploy/deploy.go:204-206 | A non-empty value, secrets included, survives a run if and only if the file could be read. |
| `Installer.SetVersionChangesOneKey` | cli/internal/deploy/deploy.go:308-316 | Only the version changes, if and only if it is one clean line. |
| `Installer.SecretsNeverRotate` | cli/internal/deploy/deploy.go:71-150 | Over any sequence of installs and updates no secret or other non-empty setting changes, the version excepted. |
| `KeyDerivation.DeriveKey` | cli/internal/backup/crypto.go:90-115 | The loops compute PBKDF2 of section 5.2 of RFC 8018, with an iteration count below one counting as one. |
| `KeyDerivation.DeriveBlock` | cli/internal/backup/crypto.go:96-112 | The in-place exclusive-or loop computes the block function F. |
| `KeyDerivation.XorInto` | cli/internal/backup/crypto.go:108-110 | Each bit of each octet is afterwards set exactly if it was set in one of the two octets and not in both; in place. |
| `KeyDerivation.XorOctetMeans` | cli/internal/backup/crypto.go:108-110 | A bit of the exclusive or of two octets is set exactly if it is set in one and not in both. |
| `KeyDerivation.BitsDetermine` | cli/internal/backup/crypto.go:108-110 | An octet is determined by these bits. |
| `KeyDerivation.BlockBit` | cli/internal/backup/crypto.go:100-112 | A bit of a block is set exactly if an odd number of the outputs U_1 to U_c have it set. |
| `KeyDerivation.CounterOctets` | cli/internal/backup/crypto.go:99-99 | The block number is written in four octets, most significant first. |
| `KeyDerivation.KeyAt` | cli/internal/backup/crypto.go:90-115 | Octet k of the key is octet k mod hLen of block k / hLen + 1, whatever the length asked for. |
| `KeyDerivation.ShorterKeysArePrefixes` | cli/internal/backup/crypto.go:114-114 | A shorter key is a prefix of every longer one. |
| `KeyDerivation.CounterWraps` | cli/internal/backup/crypto.go:99-99 | Two blocks have the same counter octets exactly when their numbers agree modulo 2^32. |
| `KeyDerivation.Encrypt` | cli/internal/backup/crypto.go:36-58 | Salt, nonce and the text sealed under the 32-octet key of 200,000 iterations, in this order; refuses an empty passphrase. |
| `KeyDerivation.Decrypt` | cli/internal/backup/crypto.go:62-78 | Refuses a bundle of less than 28 octets, opens the rest with the key of its own 16-octet salt and its 12-octet nonce. |
| `KeyDerivation.DecryptOpensFrames` | cli/internal/backup/crypto.go:62-78 | Decryption yields a plaintext exactly for the salt, nonce and sealed text of it under the passphrase, the empty one included. |
| `KeyDerivation.EmptyPassphraseOpens` | cli/internal/backup/crypto.go:36-78 | With an empty passphrase Decrypt opens what is sealed under it, and Encrypt refuses to make it. |
| `KeyDerivation.DecryptInvertsEncrypt` | cli/internal/backup/crypto.go:36-78 | Decryption yields a plaintext exactly for the bundles that encrypting it can produce, if and only if the passphrase is not empty. |

## Left out

- Delivery without a queue, `RunWithProgress`, and the endpoints that later stages derive from discovery
  output: a scanner's behaviour on a chunk is arbitrary, so its targets do not matter to the trace.
- Error texts, ETA and target counts in progress reports. The number of failed stages in a message is a
  parameter.
- Finalizer.Agent.Finalize: the report after a refused delivery always carries the text of a full backlog,
  where the code puts the queue's own error, which may also be one of the disk.
- The server's endpoints: it is a store with one row per (job, key), as the unique constraint of the
  uploads table says, that refuses attempts with a newer one for good and attempts whose lease has expired
  until they are reaped. An attempt may be fenced, lapse or be reaped at any time. Uploads refused for another
  reason, which stay in the queue, are drains that stop; a crash of the server is not modelled.
- Liveness: that a retried report is acknowledged one day, or that a backlog is drained.
- DurableQueue.Queue.Enqueue: item keys are assumed to be usable as file names, as hexadecimal digests are;
  errors of the directory listing itself, and files that are removed behind the queue's back, are not modelled.
- Finalizer.FinalizerTakesDeliverSteps: for a disk that works and clocks with stamps left; faults are part
  of the step system only as refused deliveries.
- Lease.RunningJob.RenewLease: clocks of server and Scout are one, and reading the clock takes no time; the
  deadline of the signed job, which may stop the worker earlier, and progress reports, which may extend the
  lease further, are not part of it.
- ScoutLoop.Loop.Iterate: policy synchronization, heartbeats' contents and the drain are not events of the log.
- Parsing of targets, times, CIDRs and JSON; signatures; IPv6 zones and IPv4-mapped addresses.
- ScopePolicy.AllowsTarget: the public-address gate is the code's own, a test of the network address only,
  so nothing is stated about the other addresses of a wide prefix.
- The relay's certificate renewal, reachability test, heartbeat and validation of fetched configurations;
  first-match evaluation is of the relay's own chain, not of the parent's other rules.
- Versions.VersionTuple: versions are ASCII; Python's limit on the digits of an integer and the digits and
  letters of other scripts are not modelled.
- The statement-level isolation of the database: a trigger's query is taken to see every commit that
  happened before its lock was granted, as it does at the default isolation level.
- AuditChain.Backfill: the order of the legacy rows is the query's and plays no part; HMAC signatures of
  later rows are arbitrary strings.
- GrantMigration.EnsureBuiltinRoles: the roles exist, as they do after the migration; creating a missing one
  is not modelled.
- Custom roles, service-account provisioning, the optional site clause for organization-wide rows, and the
  identifiers and timestamps of rows.
- GrantMigration.BackfillGrants: a user's role is an enumerated value; the lower-casing of its stored name
  and the name-based UUID of a role are an injective function.
- Installer.Installation.Apply: the directories and the install record; a write that fails leaves the file as
  it was, so a write that breaks off half-way is not modelled.
- Permission keys are pairs of area and verb; labels and risk flags are dropped.
- KeyDerivation.DeriveKey: a negative key length, on which the code panics, is excluded by type.
- HTTP, TLS, enrollment, WireGuard, Docker Compose, updates and rollback, preflight, SCIM, the frontend and
  the remaining migrations.
