/** GPUStorageReconciler.Reconcile (internal/controller/gpustorage_controller.go) against a
    cluster of objects.  Every store call may be refused, or be carried out although the
    caller sees an error. */
module StorageReconcile {
  import opened Text
  import opened Names
  import opened StorageModel

  datatype Op =
    | GetStorage | GetClaim | CreateClaim | UpdateClaim | GetSource | GetJob | CreateJob
    | GetService | CreateService | UpdateService | DeleteService
    | GetDeployment | CreateDeployment | UpdateDeployment | DeleteDeployment
    | UpdateStatus

  datatype Io = Done | Refused | DoneButErrored

  /** How the store answers each kind of call during one pass. */
  type Store = Op -> Io

  function Healthy(op: Op): Io { Done }

  /** The objects, and the writes carried out so far. */
  datatype Cluster = Cluster(
    storages: map<string, Storage>,
    claims: map<string, Claim>,
    jobs: map<string, Job>,
    services: map<string, Service>,
    deployments: map<string, Deployment>,
    journal: seq<(Op, string)>)

  datatype Step<T> = Failure(message: string) | Success(value: T, changed: bool)

  const STORE_ERROR := "the store failed"

  // ------------------------------------------------------------------- store calls

  function PutClaim(cl: Cluster, op: Op, name: string, claim: Claim, store: Store): Cluster {
    if store(op).Refused? then cl
    else cl.(claims := cl.claims[name := claim], journal := cl.journal + [(op, name)])
  }

  function PutJob(cl: Cluster, name: string, job: Job, store: Store): Cluster {
    if store(CreateJob).Refused? then cl
    else cl.(jobs := cl.jobs[name := job], journal := cl.journal + [(CreateJob, name)])
  }

  function PutService(cl: Cluster, op: Op, name: string, service: Service, store: Store): Cluster {
    if store(op).Refused? then cl
    else cl.(services := cl.services[name := service], journal := cl.journal + [(op, name)])
  }

  function PutDeployment(cl: Cluster, op: Op, name: string, deployment: Deployment, store: Store): Cluster {
    if store(op).Refused? then cl
    else cl.(deployments := cl.deployments[name := deployment], journal := cl.journal + [(op, name)])
  }

  // ----------------------------------------------------------------------- sub-steps

  /** reconcileGPUStoragePVC. */
  function ReconcileClaim(lib: Library, cl: Cluster, st: Storage, store: Store): (r: (Cluster, Step<Claim>))
    ensures r.0 == cl.(claims := r.0.claims, journal := r.0.journal)
  {
    var desired := DesiredClaim(lib, st);
    if desired.None? then (cl, Failure("invalid quantity"))
    else if !store(GetClaim).Done? then (cl, Failure(STORE_ERROR))
    else if st.name !in cl.claims then
      (PutClaim(cl, CreateClaim, st.name, desired.value, store),
       if store(CreateClaim).Done? then Success(desired.value, true) else Failure(STORE_ERROR))
    else
      var current := cl.claims[st.name];
      var synced := SyncClaim(current, desired.value);
      if synced == current then (cl, Success(current, false))
      else
        (PutClaim(cl, UpdateClaim, st.name, synced, store),
         if store(UpdateClaim).Done? then Success(synced, true) else Failure(STORE_ERROR))
  }

  /** resolveGPUStoragePrepareSource: a failure, the source claim, or what to wait for. */
  datatype Source = SourceFailure | SourceClaim(claim: string) | Waiting(message: string)

  function ResolveSource(cl: Cluster, st: Storage, store: Store): Source {
    var source := st.spec.prepare.fromStorageName;
    if source == "" then SourceClaim("")
    else if !store(GetSource).Done? then SourceFailure
    else if source !in cl.storages then Waiting("Waiting for source storage " + (source + " to exist."))
    else if !cl.storages[source].status.phase.PhaseReady? then Waiting("Waiting for source storage " + (source + " to become ready."))
    else SourceClaim(FirstNonEmpty(cl.storages[source].status.claimName, source))
  }

  predicate AlreadySucceeded(lib: Library, st: Storage) {
    st.status.prepare.observedDigest == DigestOf(lib, st) && st.status.prepare.phase.PrepareSucceeded?
  }

  /** reconcileGPUStoragePrepareJobState. */
  function ReconcileJob(lib: Library, cl: Cluster, st: Storage, source: string, store: Store)
    : (r: (Cluster, Step<PrepareProgress>))
    ensures r.0 == cl.(jobs := r.0.jobs, journal := r.0.journal)
  {
    var p := JobProgress(lib, st);
    if !store(GetJob).Done? then (cl, Failure(STORE_ERROR))
    else if p.jobName in cl.jobs then (cl, Success(ProgressFromJob(st, p, cl.jobs[p.jobName]), false))
    else if AlreadySucceeded(lib, st) then (cl, Success(SucceededProgress(st, p), false))
    else
      (PutJob(cl, p.jobName, DesiredJob(st, FirstNonEmpty(st.name, st.name), source), store),
       if store(CreateJob).Done? then Success(p.(recovery := RecoveryFor(st, PreparePending), changed := true), true)
       else Failure(STORE_ERROR))
  }

  /** reconcileGPUStoragePrepare. */
  function ReconcilePrepare(lib: Library, cl: Cluster, st: Storage, claim: Claim, store: Store)
    : (r: (Cluster, Step<PrepareProgress>))
    ensures r.0 == cl.(jobs := r.0.jobs, journal := r.0.journal)
  {
    var error := PrepareError(st.name, st.spec.prepare);
    if error.Some? then (cl, Failure(error.value))
    else if IsZeroPrepare(st.spec.prepare) then (cl, Success(NOT_REQUESTED_PROGRESS, false))
    else if !claim.bound then (cl, Success(CLAIM_WAITING_PROGRESS, false))
    else match ResolveSource(cl, st, store)
      case SourceFailure => (cl, Failure(STORE_ERROR))
      case Waiting(message) => (cl, Success(JobProgress(lib, st).(message := message), false))
      case SourceClaim(source) => ReconcileJob(lib, cl, st, source, store)
  }

  /** ensureGPUStorageAccessorAbsent: first the deployment, then the service. */
  function RemoveDeployment(cl: Cluster, name: string, store: Store): (r: (Cluster, Step<()>))
    ensures r.0 == cl.(deployments := r.0.deployments, journal := r.0.journal)
    ensures r.1.Success? ==> r.0.deployments == cl.deployments - {name}
  {
    if !store(GetDeployment).Done? then (cl, Failure(STORE_ERROR))
    else if name !in cl.deployments then (cl, Success((), false))
    else
      (if store(DeleteDeployment).Refused? then cl
       else cl.(deployments := cl.deployments - {name}, journal := cl.journal + [(DeleteDeployment, name)]),
       if store(DeleteDeployment).Done? then Success((), true) else Failure(STORE_ERROR))
  }

  function RemoveService(cl: Cluster, name: string, store: Store): (r: (Cluster, Step<()>))
    ensures r.0 == cl.(services := r.0.services, journal := r.0.journal)
    ensures r.1.Success? ==> r.0.services == cl.services - {name}
  {
    if !store(GetService).Done? then (cl, Failure(STORE_ERROR))
    else if name !in cl.services then (cl, Success((), false))
    else
      (if store(DeleteService).Refused? then cl
       else cl.(services := cl.services - {name}, journal := cl.journal + [(DeleteService, name)]),
       if store(DeleteService).Done? then Success((), true) else Failure(STORE_ERROR))
  }

  function RemoveAccessor(cl: Cluster, st: Storage, store: Store): (r: (Cluster, Step<()>))
    ensures r.0 == cl.(services := r.0.services, deployments := r.0.deployments, journal := r.0.journal)
    ensures r.1.Success? ==> r.0.services == cl.services - {AccessorName(st.name)}
                             && r.0.deployments == cl.deployments - {AccessorName(st.name)}
  {
    var (cl1, removed) := RemoveDeployment(cl, AccessorName(st.name), store);
    if removed.Failure? then (cl1, removed)
    else
      var (cl2, gone) := RemoveService(cl1, AccessorName(st.name), store);
      if gone.Failure? then (cl2, gone) else (cl2, Success((), removed.changed || gone.changed))
  }

  /** reconcileGPUStorageAccessorService. */
  function PublishService(cl: Cluster, st: Storage, store: Store): (r: (Cluster, Step<()>))
    ensures r.0 == cl.(services := r.0.services, journal := r.0.journal)
    ensures r.1.Success? ==> AccessorName(st.name) in r.0.services
  {
    var name, desired := AccessorName(st.name), DesiredService(st.name);
    if !store(GetService).Done? then (cl, Failure(STORE_ERROR))
    else if name !in cl.services then
      (PutService(cl, CreateService, name, desired, store),
       if store(CreateService).Done? then Success((), true) else Failure(STORE_ERROR))
    else
      var synced := SyncService(cl.services[name], desired);
      if synced == cl.services[name] then (cl, Success((), false))
      else
        (PutService(cl, UpdateService, name, synced, store),
         if store(UpdateService).Done? then Success((), true) else Failure(STORE_ERROR))
  }

  /** reconcileGPUStorageAccessorDeployment. */
  function PublishDeployment(cl: Cluster, st: Storage, store: Store): (r: (Cluster, Step<Deployment>))
    ensures r.0 == cl.(deployments := r.0.deployments, journal := r.0.journal)
    ensures r.1.Success? ==> AccessorName(st.name) in r.0.deployments
  {
    var name, desired := AccessorName(st.name), DesiredDeployment(st.name, FirstNonEmpty(st.name, st.name));
    if !store(GetDeployment).Done? then (cl, Failure(STORE_ERROR))
    else if name !in cl.deployments then
      (PutDeployment(cl, CreateDeployment, name, desired, store),
       if store(CreateDeployment).Done? then Success(desired, true) else Failure(STORE_ERROR))
    else
      var synced := SyncDeployment(cl.deployments[name], desired);
      if synced == cl.deployments[name] then (cl, Success(synced, false))
      else
        (PutDeployment(cl, UpdateDeployment, name, synced, store),
         if store(UpdateDeployment).Done? then Success(synced, true) else Failure(STORE_ERROR))
  }

  function PublishAccessor(cl: Cluster, st: Storage, store: Store): (r: (Cluster, Step<AccessorProgress>))
    ensures r.0 == cl.(services := r.0.services, deployments := r.0.deployments, journal := r.0.journal)
    ensures r.1.Success? ==> AccessorName(st.name) in r.0.services && AccessorName(st.name) in r.0.deployments
  {
    var (cl1, service) := PublishService(cl, st, store);
    if service.Failure? then (cl1, Failure(service.message))
    else
      var (cl2, deployment) := PublishDeployment(cl1, st, store);
      if deployment.Failure? then (cl2, Failure(deployment.message))
      else
        var changed := service.changed || deployment.changed;
        (cl2, Success(AccessorFromDeployment(st.name, deployment.value.available, changed), changed))
  }

  /** reconcileGPUStorageAccessor. */
  function ReconcileAccessor(cl: Cluster, st: Storage, claim: Claim, prepare: PrepareProgress, store: Store)
    : (r: (Cluster, Step<AccessorProgress>))
    ensures r.0 == cl.(services := r.0.services, deployments := r.0.deployments, journal := r.0.journal)
  {
    if st.spec.accessorEnabled && claim.bound && prepare.ready then PublishAccessor(cl, st, store)
    else
      var (cl1, removed) := RemoveAccessor(cl, st, store);
      if removed.Failure? then (cl1, Failure(removed.message))
      else
        (cl1, Success(if st.spec.accessorEnabled then PendingAccessor(removed.changed) else DisabledAccessor(removed.changed),
                      removed.changed))
  }

  /** updateGPUStorageStatus; the flag says whether it succeeded. */
  function WriteStatus(cl: Cluster, st: Storage, next: Status, store: Store): (r: (Cluster, bool))
    ensures r.0 == cl.(storages := r.0.storages, journal := r.0.journal)
  {
    if Normalize(st.status) == Normalize(next) then (cl, true)
    else if store(UpdateStatus).Refused? then (cl, false)
    else
      var written := st.(status := next.(conditions := Timeless(next.conditions)));
      (cl.(storages := cl.storages[st.name := written], journal := cl.journal + [(UpdateStatus, st.name)]),
       store(UpdateStatus).Done?)
  }

  /** What a pass reports: an error, whether to come back soon, and the computed snapshot
      if the pass got that far. */
  datatype Outcome = Outcome(error: bool, requeue: bool, computed: Option<Status>)

  function MarkFailed(cl: Cluster, st: Storage, reason: string, message: string, now: nat, store: Store, error: bool)
    : (Cluster, Outcome)
  {
    var (cl1, ok) := WriteStatus(cl, st, FailedStatus(st, reason, message, now), store);
    (cl1, Outcome(error || !ok, false, None))
  }

  function Finish(cl: Cluster, st: Storage, next: Status, changed: bool, store: Store): (Cluster, Outcome) {
    var (cl1, ok) := WriteStatus(cl, st, next, store);
    if !ok then (cl1, Outcome(true, false, None))
    else (cl1, Outcome(false, changed || !next.phase.PhaseReady?, Some(next)))
  }

  /** The pass from the accessor step on. */
  function AfterPrepare(cl: Cluster, st: Storage, claim: Claim, claimChanged: bool, prepare: Step<PrepareProgress>, now: nat, store: Store)
    : (Cluster, Outcome)
  {
    if prepare.Failure? then MarkFailed(cl, st, REASON_INVALID_SPEC, prepare.message, now, store, false)
    else
      var (cl1, accessor) := ReconcileAccessor(cl, st, claim, prepare.value, store);
      if accessor.Failure? then MarkFailed(cl1, st, REASON_ACCESSOR_FAILED, accessor.message, now, store, true)
      else
        var next := BuildStatus(st, claim, prepare.value, accessor.value, now);
        Finish(cl1, st, next, claimChanged || prepare.value.changed || accessor.value.changed, store)
  }

  /** The pass from the prepare step on. */
  function AfterClaim(lib: Library, cl: Cluster, st: Storage, claim: Step<Claim>, now: nat, store: Store): (Cluster, Outcome) {
    if claim.Failure? then MarkFailed(cl, st, REASON_PVC_SYNC_FAILED, claim.message, now, store, true)
    else
      var (cl1, prepare) := ReconcilePrepare(lib, cl, st, claim.value, store);
      AfterPrepare(cl1, st, claim.value, claim.changed, prepare, now, store)
  }

  function Reconcile(lib: Library, cl: Cluster, name: string, now: nat, store: Store): (Cluster, Outcome) {
    if !store(GetStorage).Done? then (cl, Outcome(true, false, None))
    else if name !in cl.storages then (cl, Outcome(false, false, None))
    else
      var (cl1, claim) := ReconcileClaim(lib, cl, cl.storages[name], store);
      AfterClaim(lib, cl1, cl.storages[name], claim, now, store)
  }
}
