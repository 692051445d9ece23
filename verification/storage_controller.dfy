/** The storage controller as a program over the cluster
    (internal/controller/gpustorage_controller.go and storage_runtime_helpers.go): the
    sub-steps read, build and write objects one call at a time, and a pass does exactly what
    StorageReconcile.Reconcile says. */
module StorageController {
  import opened Text
  import opened Names
  import opened StorageModel
  import opened StorageReconcile
  import opened StorageTheorems

  /** syncGPUStoragePVC. */
  method SyncClaimObject(existing: Claim, desired: Claim) returns (current: Claim, changed: bool)
    ensures current == SyncClaim(existing, desired)
    ensures changed <==> current != existing
  {
    current, changed := existing, false;
    var nextLabels, labelsChanged := EnsureStringMapValues(current.labels, desired.labels);
    if labelsChanged {
      current := current.(labels := nextLabels);
      changed := true;
    }
    if current.accessModes != desired.accessModes {
      current := current.(accessModes := desired.accessModes);
      changed := true;
    }
    if current.request != desired.request {
      current := current.(request := desired.request);
      changed := true;
    }
    if current.storageClass != desired.storageClass {
      current := current.(storageClass := desired.storageClass);
      changed := true;
    }
  }

  /** syncGPUStorageAccessorService. */
  method SyncServiceObject(existing: Service, desired: Service) returns (current: Service, changed: bool)
    ensures current == SyncService(existing, desired)
    ensures changed <==> current != existing
  {
    current, changed := existing, false;
    var nextLabels, labelsChanged := EnsureStringMapValues(current.labels, desired.labels);
    if labelsChanged {
      current := current.(labels := nextLabels);
      changed := true;
    }
    if current.clusterIP != desired.clusterIP {
      current := current.(clusterIP := desired.clusterIP);
      changed := true;
    }
    if current.ports != desired.ports {
      current := current.(ports := desired.ports);
      changed := true;
    }
    if current.selector != desired.selector {
      current := current.(selector := desired.selector);
      changed := true;
    }
  }

  /** syncGPUStorageAccessorDeployment. */
  method SyncDeploymentObject(existing: Deployment, desired: Deployment) returns (current: Deployment, changed: bool)
    ensures current == SyncDeployment(existing, desired)
    ensures changed <==> current != existing
  {
    current, changed := existing, false;
    var nextLabels, labelsChanged := EnsureStringMapValues(current.labels, desired.labels);
    if labelsChanged {
      current := current.(labels := nextLabels);
      changed := true;
    }
    if current.replicas != desired.replicas {
      current := current.(replicas := desired.replicas);
      changed := true;
    }
    if current.selector != desired.selector {
      current := current.(selector := desired.selector);
      changed := true;
    }
    if current.templateLabels != desired.templateLabels {
      current := current.(templateLabels := desired.templateLabels);
      changed := true;
    }
    if current.pod != desired.pod {
      current := current.(pod := desired.pod);
      changed := true;
    }
  }

  class GPUStorageReconciler {
    const lib: Library
    var cluster: Cluster

    constructor (lib: Library, cluster: Cluster)
      ensures this.lib == lib && this.cluster == cluster
    {
      this.lib, this.cluster := lib, cluster;
    }

    method ReconcilePVC(st: Storage, store: Store) returns (result: StorageReconcile.Step<Claim>)
      modifies this`cluster
      ensures (cluster, result) == ReconcileClaim(lib, old(cluster), st, store)
    {
      var desired := DesiredClaim(lib, st);
      if desired.None? {
        return Failure("invalid quantity");
      }
      if !store(GetClaim).Done? {
        return Failure(STORE_ERROR);
      }
      if st.name !in cluster.claims {
        cluster := PutClaim(cluster, CreateClaim, st.name, desired.value, store);
        return if store(CreateClaim).Done? then Success(desired.value, true) else Failure(STORE_ERROR);
      }
      var claim, changed := SyncClaimObject(cluster.claims[st.name], desired.value);
      if changed {
        cluster := PutClaim(cluster, UpdateClaim, st.name, claim, store);
        return if store(UpdateClaim).Done? then Success(claim, true) else Failure(STORE_ERROR);
      }
      return Success(claim, false);
    }

    method ReconcilePrepareJobState(st: Storage, source: string, store: Store) returns (result: StorageReconcile.Step<PrepareProgress>)
      modifies this`cluster
      ensures (cluster, result) == ReconcileJob(lib, old(cluster), st, source, store)
    {
      var progress := JobProgress(lib, st);
      if !store(GetJob).Done? {
        return Failure(STORE_ERROR);
      }
      if progress.jobName in cluster.jobs {
        return Success(ProgressFromJob(st, progress, cluster.jobs[progress.jobName]), false);
      }
      if st.status.prepare.observedDigest == progress.digest && st.status.prepare.phase.PrepareSucceeded? {
        return Success(SucceededProgress(st, progress), false);
      }
      cluster := PutJob(cluster, progress.jobName, DesiredJob(st, FirstNonEmpty(st.name, st.name), source), store);
      if !store(CreateJob).Done? {
        return Failure(STORE_ERROR);
      }
      progress := progress.(changed := true);
      return Success(progress.(recovery := RecoveryFor(st, progress.phase)), true);
    }

    method PrepareStep(st: Storage, claim: Claim, store: Store) returns (result: StorageReconcile.Step<PrepareProgress>)
      modifies this`cluster
      ensures (cluster, result) == ReconcilePrepare(lib, old(cluster), st, claim, store)
    {
      var error := PrepareError(st.name, st.spec.prepare);
      if error.Some? {
        return Failure(error.value);
      }
      if IsZeroPrepare(st.spec.prepare) {
        return Success(NOT_REQUESTED_PROGRESS, false);
      }
      if !claim.bound {
        return Success(CLAIM_WAITING_PROGRESS, false);
      }
      var source := ResolveSource(cluster, st, store);
      match source {
        case SourceFailure => result := Failure(STORE_ERROR);
        case Waiting(message) => result := Success(JobProgress(lib, st).(message := message), false);
        case SourceClaim(name) => result := ReconcilePrepareJobState(st, name, store);
      }
    }

    method EnsureAccessorAbsent(st: Storage, store: Store) returns (result: StorageReconcile.Step<()>)
      modifies this`cluster
      ensures (cluster, result) == RemoveAccessor(old(cluster), st, store)
    {
      var name := AccessorName(st.name);
      var changed := false;
      if !store(GetDeployment).Done? {
        return Failure(STORE_ERROR);
      }
      if name in cluster.deployments {
        cluster := RemoveDeployment(cluster, name, store).0;
        if !store(DeleteDeployment).Done? {
          return Failure(STORE_ERROR);
        }
        changed := true;
      }
      if !store(GetService).Done? {
        return Failure(STORE_ERROR);
      }
      if name in cluster.services {
        cluster := RemoveService(cluster, name, store).0;
        if !store(DeleteService).Done? {
          return Failure(STORE_ERROR);
        }
        changed := true;
      }
      return Success((), changed);
    }

    method ReconcileAccessorService(st: Storage, store: Store) returns (result: StorageReconcile.Step<()>)
      modifies this`cluster
      ensures (cluster, result) == PublishService(old(cluster), st, store)
    {
      var name, desired := AccessorName(st.name), DesiredService(st.name);
      if !store(GetService).Done? {
        return Failure(STORE_ERROR);
      }
      if name !in cluster.services {
        cluster := PutService(cluster, CreateService, name, desired, store);
        return if store(CreateService).Done? then Success((), true) else Failure(STORE_ERROR);
      }
      var service, changed := SyncServiceObject(cluster.services[name], desired);
      if !changed {
        return Success((), false);
      }
      cluster := PutService(cluster, UpdateService, name, service, store);
      return if store(UpdateService).Done? then Success((), true) else Failure(STORE_ERROR);
    }

    method ReconcileAccessorDeployment(st: Storage, store: Store) returns (result: StorageReconcile.Step<Deployment>)
      modifies this`cluster
      ensures (cluster, result) == PublishDeployment(old(cluster), st, store)
    {
      var name, desired := AccessorName(st.name), DesiredDeployment(st.name, FirstNonEmpty(st.name, st.name));
      if !store(GetDeployment).Done? {
        return Failure(STORE_ERROR);
      }
      if name !in cluster.deployments {
        cluster := PutDeployment(cluster, CreateDeployment, name, desired, store);
        return if store(CreateDeployment).Done? then Success(desired, true) else Failure(STORE_ERROR);
      }
      var deployment, changed := SyncDeploymentObject(cluster.deployments[name], desired);
      if !changed {
        return Success(deployment, false);
      }
      cluster := PutDeployment(cluster, UpdateDeployment, name, deployment, store);
      return if store(UpdateDeployment).Done? then Success(deployment, true) else Failure(STORE_ERROR);
    }

    method AccessorStep(st: Storage, claim: Claim, prepare: PrepareProgress, store: Store)
      returns (result: StorageReconcile.Step<AccessorProgress>)
      modifies this`cluster
      ensures (cluster, result) == ReconcileAccessor(old(cluster), st, claim, prepare, store)
    {
      if !st.spec.accessorEnabled || !claim.bound || !prepare.ready {
        var removed := EnsureAccessorAbsent(st, store);
        if removed.Failure? {
          return Failure(removed.message);
        }
        var progress := if st.spec.accessorEnabled then PendingAccessor(removed.changed) else DisabledAccessor(removed.changed);
        return Success(progress, removed.changed);
      }
      var service := ReconcileAccessorService(st, store);
      if service.Failure? {
        return Failure(service.message);
      }
      var deployment := ReconcileAccessorDeployment(st, store);
      if deployment.Failure? {
        return Failure(deployment.message);
      }
      var changed := service.changed || deployment.changed;
      return Success(AccessorFromDeployment(st.name, deployment.value.available, changed), changed);
    }

    /** updateGPUStorageStatus: no write when only times differ. */
    method UpdateStorageStatus(st: Storage, next: Status, store: Store) returns (ok: bool)
      modifies this`cluster
      ensures (cluster, ok) == WriteStatus(old(cluster), st, next, store)
    {
      var write, written := StatusToWrite(st.status, next);
      if !write {
        return true;
      }
      if !store(UpdateStatus).Refused? {
        cluster := cluster.(storages := cluster.storages[st.name := st.(status := written)],
                            journal := cluster.journal + [(UpdateStatus, st.name)]);
      }
      return store(UpdateStatus).Done?;
    }

    method MarkStorageFailed(st: Storage, reason: string, message: string, now: nat, store: Store, error: bool)
      returns (outcome: Outcome)
      modifies this`cluster
      ensures (cluster, outcome) == MarkFailed(old(cluster), st, reason, message, now, store, error)
    {
      var ok := UpdateStorageStatus(st, FailedStatus(st, reason, message, now), store);
      return Outcome(error || !ok, false, None);
    }

    /** Reconcile: one pass.  Whatever the store refused on the way, a pass that computed its
        snapshot leaves a storage whose phase, conditions and accessor fit together. */
    method ReconcileRequest(name: string, now: nat, store: Store) returns (outcome: Outcome)
      modifies this`cluster
      ensures (cluster, outcome) == Reconcile(lib, old(cluster), name, now, store)
      ensures WellKeyed(old(cluster)) && outcome.computed.Some? ==> FitsTogether(cluster, name)
    {
      outcome := Pass(name, now, store);
      if WellKeyed(old(cluster)) && outcome.computed.Some? {
        CompletedPassFits(lib, old(cluster), name, now, store);
      }
    }

    /** The steps of the pass, in order. */
    method Pass(name: string, now: nat, store: Store) returns (outcome: Outcome)
      modifies this`cluster
      ensures (cluster, outcome) == Reconcile(lib, old(cluster), name, now, store)
    {
      if !store(GetStorage).Done? {
        return Outcome(true, false, None);
      }
      if name !in cluster.storages {
        return Outcome(false, false, None);
      }
      var st := cluster.storages[name];
      var claim := ReconcilePVC(st, store);
      if claim.Failure? {
        outcome := MarkStorageFailed(st, REASON_PVC_SYNC_FAILED, claim.message, now, store, true);
        return;
      }
      var prepare := PrepareStep(st, claim.value, store);
      if prepare.Failure? {
        outcome := MarkStorageFailed(st, REASON_INVALID_SPEC, prepare.message, now, store, false);
        return;
      }
      var accessor := AccessorStep(st, claim.value, prepare.value, store);
      if accessor.Failure? {
        outcome := MarkStorageFailed(st, REASON_ACCESSOR_FAILED, accessor.message, now, store, true);
        return;
      }
      var next := BuildStatus(st, claim.value, prepare.value, accessor.value, now);
      var ok := UpdateStorageStatus(st, next, store);
      if !ok {
        return Outcome(true, false, None);
      }
      var changed := claim.changed || prepare.value.changed || accessor.value.changed;
      return Outcome(false, changed || !next.phase.PhaseReady?, Some(next));
    }
  }
}
