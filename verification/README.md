# Verification of the GPU runtime control plane

A Dafny model of the control plane of the GPU operator runtime, with proofs of what its
protocols guarantee over whole runs. Four state machines and the normalisers they rest on:

* **Serverless queue.** An invocation travels from the ingress consumer to the activator, as
  a dispatch to a worker sidecar, as a result to the result table. The stream is an
  append-only log with duplicate detection; consumers run concurrently, one message at a
  time each; every call may be refused, or be carried out although the caller sees an error.
  Proved: what is lost and that nothing else is, at most one result and one record per
  invocation, and the discipline of deliveries, delays and dead letters (`queue*.dfy`, `consumer_loop.dfy`,
  `subjects.dfy`, `retry.dfy`, `results.dfy`).
* **Units and storages.** Concurrent create, update, delete and storage calls of one service
  process, once at the grain of single store calls with the one mutex some of them hold,
  once with each call as a step, and a refinement between the two
  (`unit_*.dfy`, `mount_races.dfy`, `claim_runs.dfy`).
* **Storage reconcile loop.** Claim, prepare job, accessor and status of storages, with store
  faults, environment steps and several storages. Proved: a pass is a fixpoint, readiness is
  exact, nothing is prepared twice while its source is ready (`storage_*.dfy`).
* **Worker pools.** Generated names, templates, the registry of ready workers, prewarming,
  idle deletion and the acquisition of a worker (`workers.dfy`, `registry.dfy`,
  `lifecycle.dfy`, `activator.dfy`, `pool_deletion.dfy`, `acquire.dfy`, `sidecar.dfy`).
* **Normalisers.** Create requests, the package catalogue and SSH access (`contract.dfy`,
  `catalog.dfy`, `checked.dfy`, `paths.dfy`, `ssh.dfy`, `names.dfy`); `text.dfy` holds the
  string functions everything uses.

Code that works step by step is a class or a method with loops (`ConsumerProcess`, `Service`,
`GPUStorageReconciler`, `WorkerRegistry`, `LifecycleManager`, `WorkerSidecar`, the key, mount,
environment, capacity and label loops), proved against the functions that the theorems are
about. `dafny verify dfyconfig.toml` checks the whole project.

## What the proofs found

* A consumer that stops during a message's last permitted delivery loses the message: no
  dead letter is written. Messages are lost by that and by nothing else
  (`QueueLosses.LostExactly`, `QueueTheorems.UnaccountedExactly`).
* A metric is identified by invocation and kind, so when a second worker runs an invocation
  its metrics are dropped as duplicates (`QueueTheorems.AtMostOneMetric`).
* A create call checks its storages before it takes the mutex, an update under it, and storage
  deletion takes none, so a unit can end up mounting a storage that does not exist
  (`MountRaces.CreateRace`, `MountRaces.UpdateRace`); exactly which steps do that, and which
  overlaps of calls must be absent for it not to happen, is
  `MountRaces.MountsExistThroughoutExactly` and `MountRaces.RaceFreeMountsExist`.
* A storage deleted and created again with a smaller size lowers the request of a claim that
  has not been collected yet (`ClaimRuns.RecreatedStorageLowersOldClaim`), and nothing else
  lowers one (`ClaimRuns.LoweredExactly`).
* A storage copied from another one is copied again, over what it holds, if its source stops
  being ready for a while after its job has expired (`StorageCopies.CopiedTwice`); exactly the
  passes that find the source not ready take the record of success away
  (`StorageJobs.StaysPreparedExactly`).
* A replayed create fails although its unit is live, if an update dropped a mount and the
  storage was deleted since (`UnitTheorems.ReplayFailsWithoutItsStorage`).
* Comparing two storage statuses erases the transition times of both, so every status the
  controller writes carries conditions without a transition time
  (`StorageModel.StatusToWrite`).
* Prepare job names identify storage and digest up to 34 characters of storage name, and for
  no longer name (`StorageRuns.JobNameInjective`, `StorageRuns.JobNameAmbiguousBeyond`).
* Prewarm names keep three digits of the time, so a pass normally creates one worker, however
  many are missing; and a template that mounts a storage never yields a worker
  (`Lifecycle.LifecycleManager.EnsureMinAvailable`, `Activator.SecondPrewarmRefused`,
  `Activator.TemplateYieldsWorkerExactly`).
* A pool of managed workers only may delete its own template and create right afterwards
  (`Activator.DeletedTemplateLeadsToCreating`); exactly when it cannot is
  `PoolDeletion.NeverCreatesAfterExactly`.
* The metric that reports a finished invocation still counts that invocation as in flight, so
  only a later heartbeat makes a worker idle (`Sidecar.IdleWorkerReportedBetweenInvocations`).
* The generated SSH client name of a dotted unit name is refused by the controller exactly
  when it is cut behind a dot (`SSHContract.ResolverAcceptsNormalized`).
* Framework paths that clean to `/` and paths with inner white space are not fixed points of
  the request normaliser (`Contract.NormalizeTwice`, `Paths.HttpPathFixed`).

## Model

| member | source | states |
|---|---|---|
| QueueTheorems.Conservation | pkg/serverless/nats.go:335-367 | In every run with generated invocation IDs in which no consumer stops during a last permitted delivery, every accepted invocation is pending, dead-lettered, or has a dispatch or result in the stream; every dispatch is pending, dead-lettered or has a result; every result is pending, dead-lettered or stored |
| QueueTheorems.EveryMessageAccounted | pkg/serverless/nats.go:289-372 | In every run, without that condition, each message is for each consumer pending or in hand, dead-lettered, handed on, or recorded as abandoned |
| QueueLosses.NothingLost | pkg/serverless/nats.go:345-367 | Nothing is abandoned in a run without a stop during a last permitted delivery |
| QueueLosses.LostExactly | pkg/serverless/nats.go:345-367 | Over every run, a message is lost if and only if some step took its consumer away during the last permitted delivery, before it was handled or dead-lettered: a stop, or a refused dead-letter publish |
| QueueLosses.LostForGood | pkg/serverless/nats.go:374-387 | A lost message stays lost and is never delivered again, whatever the run does next |
| QueueLosses.LostHasNoDeadLetter | pkg/serverless/nats.go:389-432 | A lost message that could be decoded never gets a dead letter, if no other consumer of its source was given it |
| QueueLosses.DeadLetteredExactly | pkg/serverless/nats.go:389-432 | Over every run the stream holds a dead letter of a message if and only if some step stored one, for a message that could not be decoded or on its last permitted delivery |
| QueueLosses.LostAndDeadLettered | pkg/serverless/nats.go:335-367 | A lost message has a dead letter if and only if it could not be decoded and some step stored one; it was never terminated |
| QueueLosses.UndecodableMayBeBoth | pkg/serverless/nats.go:338-342 | A run with two permitted deliveries after which a message that cannot be decoded is both dead-lettered and lost |
| QueueLosses.ReceiverIsOnly | pkg/serverless/nats.go:255-281 | Over every run, with workers named by single tokens, no consumer but the one it is for is ever given a message |
| QueueLosses.StoppingEveryTimeLoses | pkg/serverless/nats.go:345-367 | Losses happen under every retry policy: a process that stops after each fetch loses the invocation without a trace |
| QueueTheorems.UnaccountedExactly | pkg/serverless/nats.go:335-367 | In every run a message is neither pending, dead-lettered nor handed on if and only if a final stop hit it and it was not handed on |
| QueueTheorems.InvocationUnaccountedExactly | pkg/serverless/nats.go:335-367 | So an accepted invocation vanishes exactly when a final stop hit it and it has neither a dispatch nor a result |
| QueueTheorems.AtMostOneMetric | pkg/serverless/nats.go:164-172 | The stream holds at most one metric of each kind per invocation, so the metric of a second worker that runs it is dropped |
| QueueTheorems.AtMostOneResult | pkg/serverless/nats.go:222-242 | Whatever is redelivered and whichever workers run it, the stream holds at most one result per invocation ID |
| QueueTheorems.StoredRecordIsDetermined | pkg/resultstore/model.go:35-80 | Any order and number of result redeliveries leaves the record that the one published result determines, apart from StoredAt |
| QueueTheorems.StoredRecordHasResult | pkg/resultconsumer/service.go:52-66 | No record is stored without a result in the stream |
| QueueOrigin.NothingInvented | pkg/activator/service.go:277-309 | In every run, every dispatch carries the payload of an invocation accepted earlier under the same identifier and request ID, and every result belongs to such an invocation |
| QueueTheorems.DeliveryDiscipline | pkg/serverless/nats.go:345-409 | Over every run a message is delivered at most MaxDeliver times, is never both acked and termed, is termed only after a dead letter with its original payload was stored, and is negatively acknowledged only with the positive backoff delay of its delivery number |
| QueueSafety.RunKeeps | pkg/serverless/nats.go:289-372 | The invariant behind these results holds after every run: log entries carry the identity and subject of their body, and every message of every consumer is accounted for |
| QueueSafety.StepKeeps | pkg/activator/service.go:110-143 | Each step of ingress, delivery, the four handlers, ack, nak, dead-lettering, term and stop keeps the invariant |
| QueueSafety.HandleDispatchKeeps | pkg/workersidecar/service.go:126-203 | The sidecar step keeps the invariant, by which a dispatch counts as handled only once its invocation has a result in the stream |
| QueueSafety.HandleInvocationKeeps | pkg/activator/service.go:110-143 | The activator step keeps the invariant, by which an invocation counts as handled only once it has a dispatch or a result in the stream |
| QueueSafety.ReceivesExactlyItsFamily | pkg/serverless/nats.go:255-288 | A consumer's filter receives exactly the messages of its family, a worker's filter exactly the dispatches to that worker |
| QueueSafety.PublishKeepsLog | pkg/serverless/nats.go:222-253 | A publish keeps identities unique and the log well formed, and afterwards the log holds an entry with the published identity: the new one or the one that made it a duplicate |
| QueueSafety.DeadLetterStored | pkg/serverless/nats.go:411-432 | After the dead-letter publish, even as a duplicate, the stream holds a dead letter for that very message with its original payload |
| Queue.Publish | pkg/serverless/nats.go:128-147 | The log is kept and grows by the entry exactly if its identifier is new or empty; afterwards the log holds the identifier, and identifiers stay unique |
| Queue.HandlerPublish | pkg/workersidecar/service.go:150-165 | The handler ends handled or errored, handled only once the stream holds the identity of what it published; a refused publish leaves the stream alone, and deliveries and losses are untouched |
| ConsumerLoop.ConsumerProcess.ConsumeMessages | pkg/serverless/nats.go:289-372 | The loop's executions are runs of the protocol; it ends between messages, and while it keeps going it abandons none |
| ConsumerLoop.ConsumerProcess.ConsumeOne | pkg/serverless/nats.go:335-367 | One batch: fetch, decode, handle and settle, or dead-letter a malformed message |
| ConsumerLoop.ConsumerProcess.HandleAndSettle | pkg/serverless/nats.go:352-367 | After the handler the message is settled before the next one is fetched |
| ConsumerLoop.ConsumerProcess.Settle | pkg/serverless/nats.go:352-367 | Acked exactly after a nil return; otherwise termed, or negatively acknowledged with deliveries left |
| ConsumerLoop.ConsumerProcess.DeadLetterAndTerm | pkg/serverless/nats.go:389-409 | On success the message is termed and the stream holds its dead letter with the original payload; without a stored dead letter no delivery is settled |
| Results.RecordIgnoresClock | pkg/resultstore/model.go:35-80 | Storing one result at two times gives the same record apart from StoredAt, exactly when the result carries its completion time |
| Results.WorkerResult | pkg/workersidecar/service.go:126-188 | The result is about the dispatched invocation, succeeded exactly when the framework answered, expired exactly after a deadline, with the answer's status, headers, body and error, or 504 or 502 and the failure's message |
| Results.WorkerStateIsKept | pkg/resultstore/model.go:35-80 | The record keeps the state and failure class of a worker's result; a result without its state would get the same one back exactly if an answer has no error text and a failure has one or passed its deadline |
| Subjects.SubjectMatchesExactlyOneBinding | pkg/serverless/subjects.go:34-68 | Every subject built matches its own stream wildcard and no other |
| Subjects.SubjectInjective | pkg/serverless/subjects.go:44-57 | A subject determines its family and tokens; dispatch subjects are injective in request ID and worker |
| Subjects.MessageIDInjective | pkg/serverless/nats.go:164-172 | Invocation, dispatch, result, metric (by invocation, or by worker and time) and dead-letter message IDs are injective and disjoint, for generated invocation IDs |
| Subjects.DispatchToken | pkg/serverless/subjects.go:70-80 | The result is always a single subject token, and a token is left alone |
| Retry.Normalized | pkg/serverless/reliability.go:124-146 | Accepts exactly the policies whose defaulted form has positive delays, no more of them than deliveries, and returns that form |
| Retry.BackoffDurations | pkg/serverless/reliability.go:148-158 | The positive delays among the entries that parse, in order |
| Retry.SplitRetryBackoff | pkg/serverless/reliability.go:111-122 | The trimmed non-empty entries between commas |
| Retry.DelayExact | pkg/serverless/reliability.go:160-173 | For a normalised policy and delivery d the delay is backoff[min(d-1, len-1)] and positive; the conversion of d to an index stays in range exactly up to 2^63 |
| Retry.EnvRoundTrip | internal/controller/runtime_unit_helpers.go:367-368 | Rendering a normalised policy into the sidecar environment and parsing it back keeps MaxDeliver and the delay of every delivery |
| Retry.BackoffRoundTrip | pkg/serverless/reliability.go:99-122 | Splitting the joined entries gives back as many entries with the same delays |
| UnitInterleaving.MountsAndOperationsStayDistinct | pkg/service/unit_service.go:39-52 | Under every interleaving of the store calls of any number of clients, no storage is mounted by two live units and no two live units share an operation ID |
| UnitInterleaving.CreateWritesOnlyFresh | pkg/service/unit_service.go:21-74 | Whenever a create call is about to write, no live unit has its operation ID, its name or one of its mounts |
| UnitInterleaving.StorageSizeNeverDecreases | pkg/service/storage.go:147-195 | No step of any interleaving makes a storage smaller or changes which object it is |
| ClaimRuns.LoweredExactly | internal/controller/storage_runtime_helpers.go:466-473 | In every reachable state a step lowers a claim's request if and only if it is the claim step and finds a smaller storage of that name, which then is not the one the claim was made for |
| ClaimRuns.NeverLoweredThroughoutExactly | internal/controller/gpustorage_controller.go:108-138 | A claim's request never decreases throughout a run if and only if no claim step of the run finds a storage smaller than the claim |
| ClaimRuns.OwnerDeletedExactly | pkg/service/storage.go:229-250 | Over every run a claim has lost its owner if and only if that storage was deleted while the claim was there and the claim has not been collected since |
| ClaimRuns.LoweredAfterDeletion | internal/controller/gpustorage_controller.go:108-138 | So a claim is lowered only after its storage was deleted and a smaller one created before the collector came by |
| ClaimRuns.RecreatedStorageLowersOldClaim | internal/controller/gpustorage_controller.go:108-138 | Which does happen, for any two sizes: a run after which the claim step lowers the request from the larger to the smaller |
| MountRaces.BreaksExactly | pkg/service/storage.go:229-250 | In any state whose mounts all exist, a step of the interleaved machine makes one vanish if and only if it deletes a mounted storage or writes a unit with a mount that does not exist |
| MountRaces.MountsExistThroughoutExactly | pkg/service/unit_service.go:35-74 | All mounts exist after every step of a run if and only if none of its steps is one of those |
| MountRaces.RaceFreeMountsExist | pkg/service/unit_service.go:35-177 | Over every interleaved run in which no storage is deleted between a client's check of it and its write, and no unit is written with a mount that a client is about to delete, all mounts exist and every check still holds when it is acted on |
| MountRaces.RaceBreaks | pkg/service/storage.go:229-250 | With one client about to delete a storage and one about to write a unit mounting it, either order of the two leaves a mount that does not exist |
| MountRaces.CreateRace | pkg/service/unit_service.go:35-39 | A run from the empty store that does so: the existence check of a create precedes the mutex |
| MountRaces.UpdateRace | pkg/service/unit_service.go:119-177 | Another: an update checks under the mutex, which deleting a storage does not take |
| UnitInterleaving.RunKeeps | pkg/service/unit_service.go:119-177 | The invariant over program counters, the mutex holder and stored versions holds after every run |
| UnitInterleaving.AdvanceKeeps | pkg/service/unit_service.go:21-193 | Every single store call of every client keeps it, whether the store refuses, performs, or performs and reports an error |
| UnitInterleaving.CreateWriteKeeps | pkg/service/unit_service.go:55-74 | What was checked under the mutex still holds at the creating write |
| UnitInterleaving.UpdateWriteKeeps | pkg/service/unit_service.go:160-177 | An update writes only over the version it read, with mounts nobody else has |
| UnitService.Service.CreateGPUUnit | pkg/service/unit_service.go:21-74 | The call's new store and response for every listing: missing storage, an answer that the listing justifies, conflicts, or one new unit; exactly the one-step call where operation IDs are distinct |
| UnitService.Service.UpdateGPUUnit | pkg/service/unit_service.go:114-180 | The call's new store and response; an update without effect writes nothing |
| UnitService.Service.DeleteGPUUnit | pkg/service/unit_service.go:183-193 | The unit is gone, or was not there |
| UnitService.Service.FindExistingOperation | pkg/service/unit_inventory.go:16-48 | For every listing, two live units of one operation included: a live unit of the operation made from this request, a conflict with one that was not or with a taken name, or nothing exactly if neither is there |
| UnitService.Service.StorageMountIndex | pkg/service/storage.go:371-394 | For every mounted storage, and no other, the sorted names of exactly the units that mount it |
| UnitService.Service.EnsureStoragesExist | pkg/service/storage.go:404-416 | Accepts exactly if all mounts exist |
| UnitService.Service.EnsureExclusivelyMountable | pkg/service/storage.go:438-459 | Accepts exactly if no unit other than the given one mounts any of them |
| UnitService.Service.CreateGPUStorage | pkg/service/storage.go:40-96 | The call's new store and response, with the source checks |
| UnitService.Service.UpdateGPUStorage | pkg/service/storage.go:147-195 | Refuses a smaller size, changes accessor and size, writes only a change |
| UnitService.Service.RecoverGPUStorage | pkg/service/storage.go:198-226 | Sets the recovery nonce of a storage that has a prepare workflow |
| UnitService.Service.DeleteGPUStorage | pkg/service/storage.go:229-250 | Deletes exactly a storage that no unit mounts |
| UnitTheorems.MountsAlwaysExist | pkg/service/storage.go:404-459 | With each call as one step, in every run every mount names an existing storage and no storage is mounted twice |
| UnitTheorems.ReplayIsIdempotent | pkg/service/unit_service.go:21-53 | After a create and any calls that do not delete the unit, updates included, replaying the request changes nothing and returns that unit exactly if its storages are still there; else it reports the missing storage |
| UnitTheorems.OtherRequestNeverCreates | pkg/service/unit_inventory.go:22-31 | The same operation ID with any other request never creates a unit and changes nothing while the first unit is live |
| UnitTheorems.ReplayFailsWithoutItsStorage | pkg/service/unit_service.go:35-37 | The condition on the storages is needed: a run after which replaying a live unit's request fails |
| UnitTheorems.UnitIsRequestPlusChanges | pkg/service/unit_inventory.go:51-85 | Over every run after its creation a unit is what was requested with the accepted updates applied in order and nothing else, under its operation ID and request, until it is deleted |
| UnitTheorems.RunKeeps | pkg/service/unit_service.go:21-193 | Existing mounts, exclusive mounts, distinct operations and remembered requests hold after every run of calls |
| UnitRefinement.CallAloneIsOneStep | pkg/service/unit_service.go:21-193 | Any of the seven calls, run without interference from a free mutex, ends with exactly the store and response of the one-step call and disturbs nothing else |
| StorageTheorems.ReconcileIsFixpoint | internal/controller/gpustorage_controller.go:48-90 | From any cluster, a second pass with nothing in between creates, updates and deletes nothing, writes no status, reports the same error and computes the same snapshot modulo times, also on the failing paths |
| StorageTheorems.ReadyExactly | internal/controller/storage_status_helpers.go:75-205 | After a completed pass the phase is Ready exactly when the claim is bound, prepare is not requested or succeeded, and the accessor is disabled or ready |
| StorageTheorems.ReadyMeansAllConditions | internal/controller/storage_status_helpers.go:182-225 | The three conditions are present, and Ready means that all are true |
| StorageTheorems.AccessorPublishedExactly | internal/controller/gpustorage_controller.go:173-205 | Accessor deployment and service exist together, exactly when enabled, bound and prepared; otherwise neither does |
| StorageTheorems.PassInstallsDesired | internal/controller/gpustorage_controller.go:468-492 | After a completed pass the claim asks for the storage's size and class and carries the owner's labels, a published accessor serves that claim, and the status names claim and generation |
| StorageJobs.JobDoesTheCurrentWork | internal/controller/storage_runtime_helpers.go:232-311 | In every reachable cluster, after any changes of storages, claims and jobs, a job under a storage's current job name runs exactly the image and script, or copies exactly the source, that the storage asks for now, if no other preparation has its digest |
| StorageTheorems.PrepareIsFixed | internal/controller/gpustorage_controller.go:140-171 | The prepare step repeated on what it left changes nothing and reports the same progress |
| StorageTheorems.AccessorIsFixed | internal/controller/gpustorage_controller.go:266-360 | The accessor step repeated on what it left changes nothing and reports the same progress |
| StorageTheorems.ClaimIsFixed | internal/controller/gpustorage_controller.go:108-138 | The claim step repeated on what it left changes nothing and reports the same claim |
| StorageTheorems.SourceIsAnother | internal/controller/gpustorage_controller.go:371-377 | An accepted specification never has its own storage as source |
| StorageJobs.NeverPreparedTwice | internal/controller/gpustorage_controller.go:233-264 | Once an image-seeded, bound storage is recorded as prepared for its current digest, over every run of passes, store faults, failed passes, TTL deletions and changes elsewhere it stays so, and the journal of writes gains no creation of its job, as long as its claim stays bound and no other preparation is asked for |
| StorageJobs.NotPreparedAgain | internal/controller/gpustorage_controller.go:207-264 | The same for every storage, copied ones included, over every such run in which no pass over it falls back: finds its source missing or not ready and records that |
| StorageJobs.StaysPreparedExactly | internal/controller/gpustorage_controller.go:207-264 | A storage stays recorded as prepared throughout such a run if and only if no pass over it falls back |
| StorageCopies.CopiedTwice | internal/controller/gpustorage_controller.go:207-251 | For any two names: a run after which the copy is prepared and its job has been created once, and a continuation that leaves its preparation alone, in which the job expires and the source is not ready for a while, and after which the job has been created twice |
| StorageCopies.MovesShown | internal/controller/gpustorage_controller.go:48-90 | What a run of fault-free passes, bindings, job successes and expiries does to a source and its copy is what the moves do to their view |
| StorageRuns.RunKeepsTruthful | internal/controller/gpustorage_controller.go:422-442 | In every reachable cluster, a storage recorded as prepared has no unfinished or failed job of that digest |
| StorageRuns.JobNameInjective | internal/controller/storage_runtime_helpers.go:213-230 | For storage names of at most 34 characters, the job name determines storage and digest |
| StorageRuns.JobNameAmbiguousBeyond | internal/controller/storage_runtime_helpers.go:213-230 | For every longer name two different digests share a job name |
| StorageRuns.LongNameFindsOtherJob | internal/controller/storage_runtime_helpers.go:213-230 | A longer name can take over the job of a storage with a name of 34 characters |
| StorageRuns.JobCreatedExactly | internal/controller/gpustorage_controller.go:233-264 | A pass without faults creates a prepare job exactly when the specification is valid and not empty, claim and source are ready, no job is there and the digest is not recorded as succeeded; so a failed job is recreated once it expired |
| StorageRuns.SucceededReportedExactly | internal/controller/gpustorage_controller.go:207-264 | The prepare step of a storage recorded as prepared creates nothing; where the store answers it reports success if and only if the source is ready, and pending otherwise |
| StorageModel.ReadyExactlyWhenNothingMatches | internal/controller/storage_status_helpers.go:75-151 | The rule table decides ready exactly when none of its rules matches; an unbound claim is pending, a failed preparation failed |
| StorageModel.ResolveStatusRule | internal/controller/status_rules.go:16-23 | The first matching rule decides, and the fallback exactly if none matches |
| StorageModel.EnsureStringMapValues | internal/controller/storage_runtime_helpers.go:539-556 | The desired entries are set, all others stay, and changed is reported exactly if the map differs |
| StorageModel.NormalizeForCompare | internal/controller/gpustorage_controller.go:459-465 | Compares without times, and erases the transition times in the caller's own list |
| StorageModel.StatusToWrite | internal/controller/gpustorage_controller.go:445-457 | Writes exactly if something other than times differs, and what is written has lost its transition times |
| StorageController.GPUStorageReconciler.ReconcileRequest | internal/controller/gpustorage_controller.go:48-90 | The program's pass is the pass the theorems are about, for all store faults; a pass that computed its snapshot leaves phase, conditions and accessor objects that fit claim, preparation and specification |
| StorageController.GPUStorageReconciler.ReconcilePVC | internal/controller/gpustorage_controller.go:108-138 | Creates, updates or leaves the claim as the claim step says |
| StorageController.GPUStorageReconciler.PrepareStep | internal/controller/gpustorage_controller.go:140-171 | Validation, waiting for claim and source, then the job state |
| StorageController.GPUStorageReconciler.ReconcilePrepareJobState | internal/controller/gpustorage_controller.go:233-264 | An existing job decides, else recorded success, else a new job |
| StorageController.GPUStorageReconciler.AccessorStep | internal/controller/gpustorage_controller.go:173-205 | Publishes or removes the accessor and reports its progress |
| StorageController.GPUStorageReconciler.EnsureAccessorAbsent | internal/controller/gpustorage_controller.go:336-360 | Deletes the deployment, then the service, stopping at a fault |
| StorageController.GPUStorageReconciler.ReconcileAccessorService | internal/controller/gpustorage_controller.go:278-305 | Creates, updates or leaves the service |
| StorageController.GPUStorageReconciler.ReconcileAccessorDeployment | internal/controller/gpustorage_controller.go:307-334 | Creates, updates or leaves the deployment |
| StorageController.GPUStorageReconciler.UpdateStorageStatus | internal/controller/gpustorage_controller.go:445-451 | Writes the snapshot unless only times differ |
| StorageController.GPUStorageReconciler.MarkStorageFailed | internal/controller/gpustorage_controller.go:422-442 | The failed snapshot keeps what was known about prepare and accessor |
| StorageController.SyncClaimObject | internal/controller/storage_runtime_helpers.go:454-482 | The claim is brought in line field by field; changed exactly if it differed |
| StorageController.SyncServiceObject | internal/controller/storage_runtime_helpers.go:484-505 | The service is brought in line field by field; changed exactly if it differed |
| StorageController.SyncDeploymentObject | internal/controller/storage_runtime_helpers.go:507-537 | The deployment is brought in line field by field; changed exactly if it differed |
| Workers.GeneratedNameValidAndManaged | pkg/activator/service.go:333-367 | Every generated name is a label of at most 63 characters starting with a letter, and is recognised as managed |
| Workers.SanitizeWorkerNameToken | pkg/activator/service.go:369-382 | The result is empty or a label of lower-case letters, digits and inner dashes |
| Workers.PrewarmNamesCoincide | pkg/activator/lifecycle.go:271-273 | Two prewarm sources give the same worker name if and only if their times agree in the first three digits |
| Workers.WorkerNamesDiffer | pkg/activator/service.go:333-347 | Workers activated for two generated invocation IDs have the same name exactly when the IDs agree in their first eight digits |
| Workers.TemplateUnit | pkg/activator/service.go:443-450 | The first unmanaged unit, else the first unit |
| Workers.TemplateDependsOnUnmanaged | pkg/activator/service.go:258-275 | The template depends only on the unmanaged units of the pool, whatever order they are listed in |
| Registry.PickedWasReady | pkg/activator/registry.go:35-83 | After any sequence of Sync and Pick calls, a picked worker was ready in the last snapshot synced for its request ID |
| Registry.SyncRegistersExactlyTheReady | pkg/activator/registry.go:35-64 | Right after Sync the entries of the request ID are exactly its ready workers, and entries of other IDs are as before unless a ready worker took over their key |
| Registry.WorkerRegistry.Sync | pkg/activator/registry.go:35-64 | The program's two loops compute that registry |
| Registry.WorkerRegistry.Pick | pkg/activator/registry.go:67-83 | Returns the worker with the least key, and nothing exactly if the ID has no entry |
| Lifecycle.LifecycleManager.ObserveMetric | pkg/activator/lifecycle.go:55-86 | The new table: last event and counter, and activity that only executions, or a first registration, move |
| Lifecycle.TableHoldsLastMetric | pkg/activator/lifecycle.go:68-85 | After any metrics, the table holds for each worker what its last metric said |
| Lifecycle.TableHoldsLastTimes | pkg/activator/lifecycle.go:73-84 | A worker was last seen at its last metric, and its activity is the time of its last execution metric, which heartbeats and registrations do not move |
| Lifecycle.LifecycleManager.EnsureMinAvailable | pkg/activator/lifecycle.go:130-166 | Exactly one worker is created under every generated name that was free and did not fail, and nothing else changes; the minimum is reached if and only if those names are pairwise different, free and do not fail; a clock that keeps its three leading digits yields one worker at most |
| Lifecycle.AllCreatedExactly | pkg/activator/lifecycle.go:150-158 | n requests make n workers if and only if the n names are pairwise different and free |
| Lifecycle.LifecycleManager.DeleteIdleWorkers | pkg/activator/lifecycle.go:168-233 | Deletes only idle managed ready workers, longest idle first, as many as the excess allows, goes on after a failed deletion, and leaves at least min(ready, minAvailable) ready workers |
| Lifecycle.LongestIdleFirst | pkg/activator/lifecycle.go:209-216 | No candidate that was passed over has been idle longer than one that was chosen |
| Lifecycle.RemovalCost | pkg/activator/lifecycle.go:213-216 | Removing workers by name costs at most one ready worker for each name |
| Lifecycle.NeverBoth | pkg/activator/lifecycle.go:130-187 | One pass over a pool never both creates and deletes |
| Lifecycle.NoCreateAfterDelete | pkg/activator/lifecycle.go:130-233 | A deleting pass is not followed by a creating one over the same phases, if the template asks for the same minimum |
| Lifecycle.TemplateSurvivesDeletion | pkg/activator/service.go:443-450 | Deleting managed workers keeps the template of a pool that has an unmanaged unit |
| Activator.ReconcilePool | pkg/activator/lifecycle.go:114-126 | One pool in one pass: registry synced, workers created under exactly the free names asked for, never both created and deleted, only managed ready workers deleted, minimum kept; a run of the activator's machine whenever the pool is in the store as listed |
| Activator.Reconcile | pkg/activator/lifecycle.go:103-128 | A whole pass over all pools of one listing, in any order, is a run of the machine and leaves every unmanaged unit as it is |
| Activator.TemplateStaysTheSame | pkg/activator/service.go:311-367 | Over every run of the machine, hence over whatever passes and acquisitions do, the unmanaged units are unchanged, and every later listing gives the same template |
| Activator.DeletingPassNotFollowedByCreating | pkg/activator/lifecycle.go:130-233 | Both halves together, for a pool with an unmanaged unit |
| Activator.SameMinimumNotFollowedByCreating | pkg/activator/lifecycle.go:130-233 | The same for a pool of managed units only, if all of them ask for the same minimum |
| PoolDeletion.NeverCreatesAfterExactly | pkg/activator/lifecycle.go:168-233 | For a pool of managed units: whatever a pass may delete, the next one creates nothing, if and only if every unit that can become the template asks for no more than is available after the largest deletion that spares it |
| Activator.AgreementStays | pkg/activator/service.go:311-331 | A pool whose units ask for the same minimum stays so over every run whose workers are made from it |
| Activator.DeletedTemplateLeadsToCreating | pkg/activator/service.go:443-450 | Where they do not agree, a deleting pass can be followed by a creating one |
| Activator.TemplateYieldsWorkerExactly | pkg/activator/service.go:311-331 | A request that copies the mounts of a live template yields a worker if and only if there are none, the name is free and the operation new; otherwise nothing changes |
| Acquire.AcquireWorker | pkg/activator/service.go:196-234 | Every outcome with its exact condition: a ready unit of the pool, else the first pending one once its polls show it ready, else a worker asked for within the limit and shown ready; missing template, backpressure, failed creation and timeout otherwise; what happens to the units is a run of the activator's machine |
| Acquire.WaitForReady | pkg/activator/service.go:236-256 | Succeeds exactly if some poll of the named unit shows it ready, with the unit as the first such poll showed it, and then registers it alone for its request ID |
| Acquire.FirstPending | pkg/activator/service.go:391-402 | The first unit that is not ready, exactly if there is one |
| Acquire.CountPending | pkg/activator/service.go:404-419 | The number of managed units that are not ready |
| Acquire.NothingRegistered | pkg/activator/service.go:201-204 | After a Sync the request ID has no entry exactly if no unit of the snapshot is ready |
| Acquire.AcquisitionDecides | pkg/activator/service.go:110-143 | In every state of the queue: a result for the invocation in hand appears only for want of a template, an acquired worker leaves a dispatch, and any other failure leaves the stream alone and is redelivered while deliveries are left and dead-lettered after the last |
| Sidecar.WorkerSidecar.HandleDispatch | pkg/workersidecar/service.go:86-204 | What is sent, in order: the started metric, the one result, the final metric, the last two only if the result is stored; nil exactly then, every metric counts the invocation as in flight, and the counter is restored |
| Sidecar.IdleWorkerReportedBetweenInvocations | pkg/activator/lifecycle.go:192-206 | A worker counts as idle only if the last metric about it was a registration or heartbeat with nothing in flight |
| Contract.NormalizeTwice | pkg/contract/gpuunit.go:49-139 | With a normalised catalogue, normalising an accepted request again gives the same request exactly when its mount paths are trimmed and its framework paths trimmed and not the root |
| Contract.PlainRequestsAreFixed | pkg/contract/gpuunit.go:49-139 | So it does for all requests with empty framework paths and no white space inside mount paths |
| Contract.PackageDecides | pkg/contract/package_catalog.go:137-166 | A request that names a configured package gets exactly the package's resources and devices, with the generated claim name; what it says itself must be absent or agree |
| Contract.AcceptedRequest | pkg/contract/gpuunit.go:49-139 | What holds of every accepted request: valid name, image and resources present, device class and claim set, a primary port that exists, mounts without repetition |
| Contract.NormalizeEnvs | pkg/contract/gpuunit.go:257-274 | Accepts exactly valid distinct names, and trims them in the caller's own list |
| Contract.NormalizeStorageMounts | pkg/contract/gpuunit.go:467-522 | Valid names, clean absolute paths, no repetition, sorted |
| Contract.TemplateFixed | pkg/contract/gpuunit.go:256-311 | Normalising a template twice is normalising it once |
| Contract.AccessFixed | pkg/contract/gpuunit.go:314-343 | The same for access |
| Contract.ServerlessFixed | pkg/contract/serverless.go:86-133 | The same for the serverless contract, exactly when its paths are stable |
| Contract.MountsFixed | pkg/contract/gpuunit.go:467-522 | The same for mounts, exactly when their paths are trimmed |
| Contract.AllocationAgain | pkg/contract/gpuunit.go:142-172 | The same for the device allocation |
| Paths.HttpPathFixed | pkg/contract/serverless.go:146-156 | A normalised framework path is a fixed point exactly when it is trimmed and not the root |
| Paths.SocketPathFixed | pkg/contract/serverless.go:135-144 | A normalised socket path is a fixed point exactly when it is trimmed |
| Catalog.CatalogIsFixed | pkg/contract/package_catalog.go:49-67 | Normalising a catalogue twice is normalising it once |
| Catalog.CatalogIgnoresOrder | pkg/contract/package_catalog.go:49-67 | Acceptance and result do not depend on the order of the entries, capacity keys being distinct when trimmed |
| Catalog.PackageIsFixed | pkg/contract/package_catalog.go:70-114 | The same for one package, HAMi capacity included |
| Catalog.MergePackageDRACapacity | pkg/contract/package_catalog.go:214-232 | Refuses a conflicting value, and otherwise leaves the key as the only spelling, with the value |
| Catalog.NormalizeCapacity | pkg/contract/package_catalog.go:251-265 | Accepts exactly named valid quantities; the result does not depend on the order of the map if trimmed keys are distinct |
| Catalog.LookupPackage | pkg/contract/package_catalog.go:117-125 | Finds a package of that ID exactly if there is one |
| SSHContract.ResolverAcceptsNormalized | internal/controller/runtime_unit_helpers.go:573-665 | For every valid unit name, the resolver accepts every enabled specification the normaliser produced and changes nothing but an empty client name, unless the generated name, of at most 63 characters, ends in a dot; exactly then it refuses |
| SSHContract.ResolverAcceptsDotFree | internal/controller/runtime_unit_helpers.go:830-836 | For unit names without a dot it never refuses |
| SSHContract.NormalizeIsIdempotent | pkg/contract/gpuunit.go:346-464 | Normalising an SSH specification twice is normalising it once |
| SSHContract.NormalizeThenResolve | internal/controller/runtime_unit_helpers.go:573-665 | Whenever the normaliser accepts a specification, the controller resolves the original and the normalised one to the same |
| SSHContract.CollectKeys | pkg/contract/gpuunit.go:356-368 | Exactly the trimmed non-empty keys, each once |
| Names.ClampedSubdomain | internal/controller/storage_runtime_helpers.go:225-230 | A clamped subdomain is a subdomain exactly when it does not end in a dot |

## Left out

- NATS, Kubernetes, Scylla and HTTP clients, TLS and configuration files: the stream, the object store and the result table are abstract and may refuse any call.
- SHA-256, JSON, duration and quantity parsing and name-validation regular expressions: parameters. The request hash is the request itself; the prepare digest is any function with twelve digits as result.
- Retention and the duplicate window of the stream: taken to cover the run. Two processes of one consumer at once are not modelled.
- Worker names with dots in dispatch subjects: the dispatch steps take names that are single subject tokens, which every generated worker name is.
- Non-ASCII lower-casing: only A to Z change case.
- Admission defaulting and stale reads: the store returns objects as written, and a storage pass is one step of the run.
- Nil versus empty maps and slices: not distinguished; the desired label and selector maps are never empty.
- Owner references and garbage collection: only for claims, in `UnitInterleaving`.
- The resource quota check of create calls: in the interleaved model it may refuse, in the one-step model it is absent.
- Error messages: validation errors of requests and SSH specifications are not told apart; the status messages of storages are kept.
- Polling intervals and deadlines of acquireWorker: the answers to the polls are given as lists; in the queue model its result is any worker, a missing template or a retryable error.
- GPUUnit reconcile, pod templates, network policies, FRP configuration, API handlers, telemetry and jobs: mostly field copying and plumbing.
- Update normalisation of units: updates arrive normalised in the unit models.
- Time: a parameter; timeouts may happen at any step.
- Storage names beyond 34 characters in `StorageRuns`: the run theorem is about clusters whose storages all have shorter names, because longer ones can share jobs.
- Catalog.NormalizeCapacity: says nothing about the value where two keys trim to the same name, since the program's choice follows map order there.
