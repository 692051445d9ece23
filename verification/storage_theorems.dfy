/** What one pass and two passes of the storage controller guarantee. */
module StorageTheorems {
  import opened Text
  import opened Names
  import opened StorageModel
  import opened StorageReconcile

  /** The API server keys objects by name and admits only lower-case names. */
  ghost predicate WellKeyed(cl: Cluster) {
    forall n :: n in cl.storages ==> cl.storages[n].name == n && Canonical(n) == n
  }

  // ------------------------------------------------------------------- one pass

  /** The facts about a pass that got as far as computing and storing its snapshot. */
  ghost predicate Passed(lib: Library, cl: Cluster, name: string, now: nat, store: Store) {
    Reconcile(lib, cl, name, now, store).1.computed.Some?
  }

  /** Whether the prepare phase counts as done. */
  predicate PrepareDone(phase: PreparePhase) {
    phase.NotRequested? || phase.PrepareSucceeded?
  }

  lemma PrepareReadyMeansDone(lib: Library, cl: Cluster, st: Storage, claim: Claim, store: Store)
    ensures var r := ReconcilePrepare(lib, cl, st, claim, store).1;
            r.Success? ==> (r.value.ready <==> PrepareDone(r.value.phase))
  {
  }

  /** What the accessor step leaves behind. */
  lemma AccessorExistsExactly(cl: Cluster, st: Storage, claim: Claim, prepare: PrepareProgress, store: Store)
    requires ReconcileAccessor(cl, st, claim, prepare, store).1.Success?
    ensures var (cl1, accessor) := ReconcileAccessor(cl, st, claim, prepare, store);
            var wanted := st.spec.accessorEnabled && claim.bound && prepare.ready;
            && (wanted ==> AccessorName(st.name) in cl1.services && AccessorName(st.name) in cl1.deployments)
            && (!wanted ==> AccessorName(st.name) !in cl1.services && AccessorName(st.name) !in cl1.deployments)
            && (accessor.value.ready <==> !st.spec.accessorEnabled || accessor.value.phase.AccessorReady?)
            && !accessor.value.phase.AccessorFailed?
            && (accessor.value.phase.AccessorDisabled? <==> !st.spec.accessorEnabled)
  {
  }

  lemma ClaimStored(lib: Library, cl: Cluster, st: Storage, store: Store)
    requires ReconcileClaim(lib, cl, st, store).1.Success?
    ensures var (cl1, claim) := ReconcileClaim(lib, cl, st, store);
            st.name in cl1.claims && cl1.claims[st.name] == claim.value && cl1.storages == cl.storages
  {
  }

  /** The state after a completed pass, in terms of its sub-steps. */
  lemma PassUnfolded(lib: Library, cl: Cluster, name: string, now: nat, store: Store)
    returns (claim: Claim, prepare: PrepareProgress, accessor: AccessorProgress)
    requires WellKeyed(cl) && Passed(lib, cl, name, now, store)
    ensures name in cl.storages
    ensures var st := cl.storages[name];
            var (cl', out) := Reconcile(lib, cl, name, now, store);
            && name in cl'.claims && cl'.claims[name] == claim
            && (prepare.ready <==> PrepareDone(prepare.phase))
            && out.computed == Some(BuildStatus(st, claim, prepare, accessor, now))
            && name in cl'.storages
            && Normalize(cl'.storages[name].status) == Normalize(out.computed.value)
            && cl'.storages[name].spec == st.spec
            && (var wanted := st.spec.accessorEnabled && claim.bound && prepare.ready;
                && (wanted ==> AccessorName(name) in cl'.services && AccessorName(name) in cl'.deployments)
                && (!wanted ==> AccessorName(name) !in cl'.services && AccessorName(name) !in cl'.deployments))
            && (accessor.ready <==> !st.spec.accessorEnabled || accessor.phase.AccessorReady?)
            && !accessor.phase.AccessorFailed?
            && (accessor.phase.AccessorDisabled? <==> !st.spec.accessorEnabled)
  {
    var st := cl.storages[name];
    var (cl1, claimStep) := ReconcileClaim(lib, cl, st, store);
    ClaimStored(lib, cl, st, store);
    claim := claimStep.value;
    var (cl2, prepareStep) := ReconcilePrepare(lib, cl1, st, claim, store);
    PrepareReadyMeansDone(lib, cl1, st, claim, store);
    prepare := prepareStep.value;
    var (cl3, accessorStep) := ReconcileAccessor(cl2, st, claim, prepare, store);
    AccessorExistsExactly(cl2, st, claim, prepare, store);
    accessor := accessorStep.value;
    StatusStored(cl3, st, BuildStatus(st, claim, prepare, accessor, now), store);
  }

  lemma TimelessTwice(conditions: seq<Condition>)
    ensures Timeless(Timeless(conditions)) == Timeless(conditions)
  {
  }

  lemma StatusStored(cl: Cluster, st: Storage, next: Status, store: Store)
    requires st.name in cl.storages && cl.storages[st.name] == st && WriteStatus(cl, st, next, store).1
    ensures var cl' := WriteStatus(cl, st, next, store).0;
            && cl'.claims == cl.claims && cl'.jobs == cl.jobs && cl'.services == cl.services && cl'.deployments == cl.deployments
            && st.name in cl'.storages && Normalize(cl'.storages[st.name].status) == Normalize(next)
            && cl'.storages[st.name] == st.(status := cl'.storages[st.name].status)
            && cl'.storages == cl.storages[st.name := cl'.storages[st.name]]
  {
    TimelessTwice(next.conditions);
    assert cl.storages == cl.storages[st.name := cl.storages[st.name]];
  }

  lemma RefinedStatus(d: Decision, reason: string, message: string)
    ensures Refined(d, reason, message).status == d.status
  {
  }

  /** After a completed pass the stored phase is Ready exactly when the claim is bound,
      prepare is not requested or succeeded, and the accessor is disabled or ready. */
  lemma ReadyExactly(lib: Library, cl: Cluster, name: string, now: nat, store: Store)
    requires WellKeyed(cl) && Passed(lib, cl, name, now, store)
    ensures var cl' := Reconcile(lib, cl, name, now, store).0;
            && name in cl'.storages && name in cl'.claims
            && var st := cl'.storages[name];
               st.status.phase.PhaseReady? <==>
                 && cl'.claims[name].bound
                 && PrepareDone(st.status.prepare.phase)
                 && (!st.spec.accessorEnabled || st.status.accessor.phase.AccessorReady?)
  {
    var claim, prepare, accessor := PassUnfolded(lib, cl, name, now, store);
    ReadyExactlyWhenNothingMatches(ReadyInput(claim.bound, prepare, accessor, cl.storages[name].spec.accessorEnabled));
  }

  /** Whether the three conditions are present and, in a ready snapshot, all true. */
  predicate ConditionsAgree(status: Status) {
    && |status.conditions| == 3
    && status.conditions[0].kind == ConditionReady
    && status.conditions[1].kind == ConditionPrepared
    && status.conditions[2].kind == ConditionAccessorReady
    && (status.phase.PhaseReady? ==> forall i :: 0 <= i < 3 ==> status.conditions[i].decision.status)
  }

  lemma BuiltConditionsAgree(st: Storage, claim: Claim, prepare: PrepareProgress, accessor: AccessorProgress, now: nat)
    requires prepare.ready <==> PrepareDone(prepare.phase)
    requires accessor.ready <==> !st.spec.accessorEnabled || accessor.phase.AccessorReady?
    requires accessor.phase.AccessorDisabled? <==> !st.spec.accessorEnabled
    ensures ConditionsAgree(BuildStatus(st, claim, prepare, accessor, now))
  {
    ReadyExactlyWhenNothingMatches(ReadyInput(claim.bound, prepare, accessor, st.spec.accessorEnabled));
    RefinedStatus(PrepareDecision(prepare.phase), prepare.reason, prepare.message);
    RefinedStatus(AccessorDecision(accessor.phase), accessor.reason, accessor.message);
  }

  /** Ready means that all three conditions are true. */
  lemma ReadyMeansAllConditions(lib: Library, cl: Cluster, name: string, now: nat, store: Store)
    requires WellKeyed(cl) && Passed(lib, cl, name, now, store)
    ensures var cl' := Reconcile(lib, cl, name, now, store).0;
            name in cl'.storages && ConditionsAgree(cl'.storages[name].status)
  {
    var claim, prepare, accessor := PassUnfolded(lib, cl, name, now, store);
    var st := cl.storages[name];
    BuiltConditionsAgree(st, claim, prepare, accessor, now);
    var next := BuildStatus(st, claim, prepare, accessor, now);
    SameAgreement(Reconcile(lib, cl, name, now, store).0.storages[name].status, next);
  }

  lemma SameAgreement(a: Status, b: Status)
    requires Normalize(a) == Normalize(b) && ConditionsAgree(b)
    ensures ConditionsAgree(a)
  {
    TimelessDecisions(a.conditions, b.conditions);
  }

  /** The accessor deployment and service exist together, exactly when the accessor is
      enabled, the claim bound and prepare done; otherwise neither exists. */
  lemma AccessorPublishedExactly(lib: Library, cl: Cluster, name: string, now: nat, store: Store)
    requires WellKeyed(cl) && Passed(lib, cl, name, now, store)
    ensures var cl' := Reconcile(lib, cl, name, now, store).0;
            && name in cl'.storages && name in cl'.claims
            && var st := cl'.storages[name];
               var wanted := st.spec.accessorEnabled && cl'.claims[name].bound && PrepareDone(st.status.prepare.phase);
               && (AccessorName(name) in cl'.services <==> wanted)
               && (AccessorName(name) in cl'.deployments <==> wanted)
  {
    var claim, prepare, accessor := PassUnfolded(lib, cl, name, now, store);
  }

  /** A storage and what belongs to it, after a pass: Ready exactly when the claim is bound,
      prepare done and the accessor as wanted; the conditions agree; and the accessor objects
      exist exactly when they should. */
  ghost predicate FitsTogether(cl: Cluster, name: string) {
    && name in cl.storages && name in cl.claims
    && var st := cl.storages[name];
       var usable := cl.claims[name].bound && PrepareDone(st.status.prepare.phase);
       && (st.status.phase.PhaseReady? <==> usable && (!st.spec.accessorEnabled || st.status.accessor.phase.AccessorReady?))
       && ConditionsAgree(st.status)
       && (AccessorName(name) in cl.services <==> usable && st.spec.accessorEnabled)
       && (AccessorName(name) in cl.deployments <==> usable && st.spec.accessorEnabled)
  }

  lemma CompletedPassFits(lib: Library, cl: Cluster, name: string, now: nat, store: Store)
    requires WellKeyed(cl) && Passed(lib, cl, name, now, store)
    ensures FitsTogether(Reconcile(lib, cl, name, now, store).0, name)
  {
    ReadyExactly(lib, cl, name, now, store);
    ReadyMeansAllConditions(lib, cl, name, now, store);
    AccessorPublishedExactly(lib, cl, name, now, store);
  }

  lemma TimelessDecisions(a: seq<Condition>, b: seq<Condition>)
    requires Timeless(a) == Timeless(b)
    ensures |a| == |b|
    ensures forall i :: 0 <= i < |a| ==> a[i].kind == b[i].kind && a[i].decision == b[i].decision
  {
    forall i | 0 <= i < |a| ensures a[i].kind == b[i].kind && a[i].decision == b[i].decision {
      assert Timeless(a)[i] == Timeless(b)[i];
    }
  }

  // ------------------------------------------------------------ what a pass installs

  lemma MergedHasDesired(current: map<string, string>, desired: map<string, string>)
    requires forall k :: k in desired ==> desired[k] != ""
    ensures forall k :: k in desired ==> k in Merged(current, desired) && Merged(current, desired)[k] == desired[k]
    ensures forall k :: k in current && k !in desired ==> k in Merged(current, desired) && Merged(current, desired)[k] == current[k]
  {
  }

  /** The claim asks for the storage's size, once for one writer, from the storage's class,
      and carries the owner's labels. */
  predicate ClaimMatches(lib: Library, st: Storage, claim: Claim) {
    && claim.request.Some? && claim.request == lib.quantity(st.spec.size)
    && claim.accessModes == ["ReadWriteOnce"]
    && claim.storageClass == Some(if st.spec.storageClassName == "" then DEFAULT_STORAGE_CLASS else st.spec.storageClassName)
    && forall k :: k in OwnedLabels(st.name) ==> k in claim.labels && claim.labels[k] == OwnedLabels(st.name)[k]
  }

  lemma LabelsNotEmpty(name: string)
    requires name != ""
    ensures forall k :: k in OwnedLabels(name) ==> OwnedLabels(name)[k] != ""
  {
  }

  lemma ClaimInstalled(lib: Library, cl: Cluster, st: Storage, store: Store)
    requires st.name != "" && ReconcileClaim(lib, cl, st, store).1.Success?
    ensures ClaimMatches(lib, st, ReconcileClaim(lib, cl, st, store).1.value)
    ensures st.name in cl.claims ==>
              ReconcileClaim(lib, cl, st, store).1.value.bound == cl.claims[st.name].bound
  {
    LabelsNotEmpty(st.name);
    if st.name in cl.claims {
      MergedHasDesired(cl.claims[st.name].labels, OwnedLabels(st.name));
    }
  }

  /** The accessor serves this storage's claim, read by its own selector on its port. */
  predicate ServiceMatches(name: string, service: Service) {
    service.selector == AccessorSelector(name) && service.ports == [ACCESSOR_PORT] && service.clusterIP
  }

  predicate DeploymentMatches(name: string, deployment: Deployment) {
    && deployment.replicas == Some(1) && deployment.selector == AccessorSelector(name)
    && deployment.templateLabels == OwnedLabels(name) + AccessorSelector(name)
    && deployment.pod == PodSpec(ACCESSOR_IMAGE, ProxyPath(name), FirstNonEmpty(name, name))
  }

  lemma ServiceInstalled(cl: Cluster, st: Storage, store: Store)
    requires PublishService(cl, st, store).1.Success?
    ensures ServiceMatches(st.name, PublishService(cl, st, store).0.services[AccessorName(st.name)])
  {
  }

  lemma DeploymentInstalled(cl: Cluster, st: Storage, store: Store)
    requires PublishDeployment(cl, st, store).1.Success?
    ensures DeploymentMatches(st.name, PublishDeployment(cl, st, store).0.deployments[AccessorName(st.name)])
  {
    var name, desired := AccessorName(st.name), DesiredDeployment(st.name, FirstNonEmpty(st.name, st.name));
    assert DeploymentMatches(st.name, desired);
    if name in cl.deployments {
      SyncedMatches(st.name, cl.deployments[name], desired);
    }
  }

  lemma SyncedMatches(name: string, current: Deployment, desired: Deployment)
    requires DeploymentMatches(name, desired)
    ensures DeploymentMatches(name, SyncDeployment(current, desired))
  {
  }

  lemma AccessorInstalled(cl: Cluster, st: Storage, store: Store)
    requires PublishAccessor(cl, st, store).1.Success?
    ensures var cl' := PublishAccessor(cl, st, store).0;
            && ServiceMatches(st.name, cl'.services[AccessorName(st.name)])
            && DeploymentMatches(st.name, cl'.deployments[AccessorName(st.name)])
  {
    ServiceInstalled(cl, st, store);
    DeploymentInstalled(PublishService(cl, st, store).0, st, store);
  }

  /** What a completed pass leaves: the claim matches the specification, and so does the
      accessor where it is published; the status names the claim and the generation seen. */
  lemma PassInstallsDesired(lib: Library, cl: Cluster, name: string, now: nat, store: Store)
    requires WellKeyed(cl) && name != "" && Passed(lib, cl, name, now, store)
    ensures var cl' := Reconcile(lib, cl, name, now, store).0;
            && name in cl'.storages && name in cl'.claims
            && ClaimMatches(lib, cl'.storages[name], cl'.claims[name])
            && (AccessorName(name) in cl'.services && AccessorName(name) in cl'.deployments ==>
                  ServiceMatches(name, cl'.services[AccessorName(name)]) && DeploymentMatches(name, cl'.deployments[AccessorName(name)]))
            && cl'.storages[name].status.claimName == name
            && cl'.storages[name].status.observedGeneration == cl.storages[name].generation
  {
    var st := cl.storages[name];
    var (cl1, claimStep) := ReconcileClaim(lib, cl, st, store);
    ClaimStored(lib, cl, st, store);
    ClaimInstalled(lib, cl, st, store);
    var (cl2, prepareStep) := ReconcilePrepare(lib, cl1, st, claimStep.value, store);
    var (cl3, accessorStep) := ReconcileAccessor(cl2, st, claimStep.value, prepareStep.value, store);
    AccessorExistsExactly(cl2, st, claimStep.value, prepareStep.value, store);
    if st.spec.accessorEnabled && claimStep.value.bound && prepareStep.value.ready {
      AccessorInstalled(cl2, st, store);
    }
    StatusStored(cl3, st, BuildStatus(st, claimStep.value, prepareStep.value, accessorStep.value, now), store);
    assert Trimmed(name);
    TrimmedIsFixed(name);
  }

  /** The job decides the reported phase, and the recovery phase follows it: required
      exactly after a failure, otherwise reported only if recovery was requested. */
  lemma JobDecides(lib: Library, cl: Cluster, st: Storage, source: string, store: Store)
    requires ReconcileJob(lib, cl, st, source, store).1.Success? && !IsZeroPrepare(st.spec.prepare)
    ensures var p := ReconcileJob(lib, cl, st, source, store).1.value;
            var name := JobName(st.name, DigestOf(lib, st));
            var requested := TrimSpace(st.recoveryNonce) != "";
            && p.jobName == name && p.digest == DigestOf(lib, st)
            && (p.phase.PrepareSucceeded? <==> (name in cl.jobs && cl.jobs[name].succeeded > 0) || (name !in cl.jobs && AlreadySucceeded(lib, st)))
            && (p.phase.PrepareFailed? <==> name in cl.jobs && cl.jobs[name].succeeded == 0 && cl.jobs[name].failed > 0)
            && (p.recovery.RecoveryRequired? <==> p.phase.PrepareFailed?)
            && (p.recovery.RecoverySucceeded? <==> requested && p.phase.PrepareSucceeded?)
            && (p.recovery.RecoveryRunning? <==> requested && (p.phase.PreparePending? || p.phase.PrepareRunning?))
  {
  }

  // ------------------------------------------------------------------ two passes

  /** Two progress reports that differ at most in whether something was changed. */
  predicate SamePrepare(a: PrepareProgress, b: PrepareProgress) {
    a.(changed := false) == b.(changed := false)
  }

  predicate SameAccessor(a: AccessorProgress, b: AccessorProgress) {
    a.(changed := false) == b.(changed := false)
  }

  lemma ClaimIsFixed(lib: Library, cl: Cluster, st: Storage, later: Cluster, st': Storage)
    requires var cl1 := ReconcileClaim(lib, cl, st, Healthy).0; later.claims == cl1.claims
    requires st'.name == st.name && st'.spec == st.spec
    ensures var r := ReconcileClaim(lib, cl, st, Healthy).1;
            ReconcileClaim(lib, later, st', Healthy) ==
            (later, if r.Failure? then r else Success(r.value, false))
  {
    var desired := DesiredClaim(lib, st);
    if desired.Some? && st.name in cl.claims {
      MergedIsFixed(cl.claims[st.name].labels, desired.value.labels);
    } else if desired.Some? {
      MergedSelf(desired.value.labels);
    }
  }

  lemma MergedSelf(m: map<string, string>)
    ensures Merged(m, m) == m
  {
  }

  /** A storage after a pass: same specification, and the prepare status that the pass
      computed, or the old one if prepare failed. */
  ghost predicate After(st: Storage, st': Storage, r: StorageReconcile.Step<PrepareProgress>) {
    && st'.name == st.name && st'.spec == st.spec && st'.recoveryNonce == st.recoveryNonce
    && (r.Success? ==> st'.status.prepare == PrepareStatus(r.value.phase, r.value.jobName, r.value.digest, r.value.recovery))
    && (r.Failure? ==> st'.status.prepare == st.status.prepare)
  }

  lemma PrepareIsFixed(lib: Library, cl: Cluster, st: Storage, claim: Claim, later: Cluster, st': Storage)
    requires var (cl1, r) := ReconcilePrepare(lib, cl, st, claim, Healthy);
             && later.jobs == cl1.jobs && After(st, st', r)
             && forall n :: n != st.name ==>
                  (n in later.storages <==> n in cl.storages) && (n in cl.storages ==> later.storages[n] == cl.storages[n])
    requires Canonical(st.name) == st.name
    ensures var r := ReconcilePrepare(lib, cl, st, claim, Healthy).1;
            var (later', r') := ReconcilePrepare(lib, later, st', claim, Healthy);
            && later' == later
            && (r.Failure? ==> r' == r)
            && (r.Success? ==> r'.Success? && SamePrepare(r'.value, r.value) && !r'.changed && !r'.value.changed)
  {
    if PrepareError(st.name, st.spec.prepare).None? && !IsZeroPrepare(st.spec.prepare) && claim.bound {
      SourceIsFixed(cl, st, later, st');
      var source := ResolveSource(cl, st, Healthy);
      if source.SourceClaim? {
        JobIsFixed(lib, cl, st, source.claim, later, st');
      }
    }
  }

  lemma SourceIsFixed(cl: Cluster, st: Storage, later: Cluster, st': Storage)
    requires PrepareError(st.name, st.spec.prepare).None? && Canonical(st.name) == st.name && st'.spec == st.spec
    requires forall n :: n != st.name ==>
               (n in later.storages <==> n in cl.storages) && (n in cl.storages ==> later.storages[n] == cl.storages[n])
    ensures ResolveSource(later, st', Healthy) == ResolveSource(cl, st, Healthy)
  {
    if st.spec.prepare.fromStorageName != "" {
      SourceIsAnother(st.name, st.spec.prepare);
    }
  }

  lemma JobIsFixed(lib: Library, cl: Cluster, st: Storage, source: string, later: Cluster, st': Storage)
    requires var (cl1, r) := ReconcileJob(lib, cl, st, source, Healthy);
             later.jobs == cl1.jobs && After(st, st', r)
    ensures var r := ReconcileJob(lib, cl, st, source, Healthy).1;
            var (later', r') := ReconcileJob(lib, later, st', source, Healthy);
            && later' == later
            && r.Success? && r'.Success? && SamePrepare(r'.value, r.value) && !r'.changed && !r'.value.changed
  {
    var p := JobProgress(lib, st);
    assert JobProgress(lib, st') == p;
    if p.jobName in cl.jobs {
      SameFromJob(st, st', p, cl.jobs[p.jobName]);
    } else if !AlreadySucceeded(lib, st) {
      var job := DesiredJob(st, FirstNonEmpty(st.name, st.name), source);
      assert later.jobs == cl.jobs[p.jobName := job];
      NewJobIsPending(st', p, job);
    } else {
      assert AlreadySucceeded(lib, st');
      SameSucceeded(st, st', p);
    }
  }

  lemma SameRecovery(st: Storage, st': Storage, phase: PreparePhase)
    requires st'.spec == st.spec && st'.recoveryNonce == st.recoveryNonce
    ensures RecoveryFor(st', phase) == RecoveryFor(st, phase)
  {
  }

  lemma SameFromJob(st: Storage, st': Storage, p: PrepareProgress, job: Job)
    requires st'.spec == st.spec && st'.recoveryNonce == st.recoveryNonce
    ensures ProgressFromJob(st', p, job) == ProgressFromJob(st, p, job)
  {
    SameRecovery(st, st', PrepareSucceeded);
    SameRecovery(st, st', PrepareFailed);
    SameRecovery(st, st', PrepareRunning);
    SameRecovery(st, st', PreparePending);
  }

  lemma SameSucceeded(st: Storage, st': Storage, p: PrepareProgress)
    requires st'.spec == st.spec && st'.recoveryNonce == st.recoveryNonce
    ensures SucceededProgress(st', p) == SucceededProgress(st, p)
  {
    SameRecovery(st, st', PrepareSucceeded);
  }

  lemma NewJobIsPending(st: Storage, p: PrepareProgress, job: Job)
    requires job.succeeded == 0 && job.failed == 0 && job.active == 0
    requires p.phase.PreparePending? && p.reason == REASON_PREPARE_PENDING && p.message == MESSAGE_PREPARE_PENDING
    ensures ProgressFromJob(st, p, job) == p.(recovery := RecoveryFor(st, PreparePending))
  {
  }

  /** An accepted specification never names its own storage as the source. */
  lemma SourceIsAnother(name: string, p: PrepareSpec)
    requires PrepareError(name, p).None? && p.fromStorageName != "" && Canonical(name) == name
    ensures p.fromStorageName != name
  {
  }

  lemma AccessorIsFixed(cl: Cluster, st: Storage, claim: Claim, p: PrepareProgress, later: Cluster, st': Storage, p': PrepareProgress)
    requires var cl1 := ReconcileAccessor(cl, st, claim, p, Healthy).0;
             later.services == cl1.services && later.deployments == cl1.deployments
    requires st'.name == st.name && st'.spec == st.spec && p'.ready == p.ready
    ensures var r := ReconcileAccessor(cl, st, claim, p, Healthy).1;
            var (later', r') := ReconcileAccessor(later, st', claim, p', Healthy);
            && later' == later
            && r.Success? && r'.Success? && SameAccessor(r'.value, r.value) && !r'.value.changed
  {
    if st.spec.accessorEnabled && claim.bound && p.ready {
      ServiceIsFixed(cl, st, later, st');
      DeploymentIsFixed(PublishService(cl, st, Healthy).0, st, later, st');
    } else {
      RemovalIsFixed(cl, st, later, st');
    }
  }

  lemma RemovalIsFixed(cl: Cluster, st: Storage, later: Cluster, st': Storage)
    requires var cl1 := RemoveAccessor(cl, st, Healthy).0;
             later.services == cl1.services && later.deployments == cl1.deployments
    requires st'.name == st.name
    ensures RemoveAccessor(cl, st, Healthy).1.Success?
    ensures RemoveAccessor(later, st', Healthy) == (later, Success((), false))
  {
  }

  lemma ServiceIsFixed(cl: Cluster, st: Storage, later: Cluster, st': Storage)
    requires var cl1 := PublishService(cl, st, Healthy).0;
             AccessorName(st.name) in later.services && later.services[AccessorName(st.name)] == cl1.services[AccessorName(st.name)]
    requires st'.name == st.name
    ensures PublishService(later, st', Healthy) == (later, Success((), false))
  {
    var desired := DesiredService(st.name);
    if AccessorName(st.name) in cl.services {
      MergedIsFixed(cl.services[AccessorName(st.name)].labels, desired.labels);
    } else {
      MergedSelf(desired.labels);
    }
  }

  lemma DeploymentIsFixed(cl: Cluster, st: Storage, later: Cluster, st': Storage)
    requires var cl1 := PublishDeployment(cl, st, Healthy).0;
             later.deployments == cl1.deployments
    requires st'.name == st.name
    ensures var r := PublishDeployment(cl, st, Healthy).1;
            r.Success? && PublishDeployment(later, st', Healthy) == (later, Success(r.value, false))
  {
    var desired := DesiredDeployment(st.name, FirstNonEmpty(st.name, st.name));
    if AccessorName(st.name) in cl.deployments {
      MergedIsFixed(cl.deployments[AccessorName(st.name)].labels, desired.labels);
    } else {
      MergedSelf(desired.labels);
    }
  }

  /** The computed snapshot does not depend on what a pass changed, nor on the status it
      started from, except for the time. */
  lemma SnapshotIsFixed(st: Storage, st': Storage, claim: Claim, p: PrepareProgress, p': PrepareProgress,
                        a: AccessorProgress, a': AccessorProgress, now: nat, now': nat)
    requires st'.name == st.name && st'.spec == st.spec && st'.generation == st.generation
    requires SamePrepare(p, p') && SameAccessor(a, a')
    ensures Normalize(BuildStatus(st', claim, p', a', now')) == Normalize(BuildStatus(st, claim, p, a, now))
  {
    var i := ReadyInput(claim.bound, p, a, st.spec.accessorEnabled);
    var i' := ReadyInput(claim.bound, p', a', st.spec.accessorEnabled);
    SameDecision(i, i', READY_RULES);
    var c, c' := BuildStatus(st, claim, p, a, now).conditions, BuildStatus(st', claim, p', a', now').conditions;
    TimelessTriple(c, c');
  }

  lemma TimelessTriple(c: seq<Condition>, c': seq<Condition>)
    requires |c| == 3 && |c'| == 3
    requires c[0].(lastTransition := 0) == c'[0].(lastTransition := 0)
    requires c[1].(lastTransition := 0) == c'[1].(lastTransition := 0)
    requires c[2].(lastTransition := 0) == c'[2].(lastTransition := 0)
    ensures Timeless(c) == Timeless(c')
  {
  }

  lemma SameDecision(i: ReadyInput, i': ReadyInput, rules: seq<Rule<ReadyInput, ReadyDecision>>)
    requires i'.claimBound == i.claimBound && i'.accessorEnabled == i.accessorEnabled
    requires SamePrepare(i.prepare, i'.prepare) && SameAccessor(i.accessor, i'.accessor)
    ensures DecideReady(i') == DecideReady(i)
  {
    DecideReadyUnfolded(i);
    DecideReadyUnfolded(i');
  }

  // -------------------------------------------------------------- main result

  /** What is stored after a pass that stored, or tried to store, the snapshot. */
  lemma WriteIsFixed(cl: Cluster, st: Storage, next: Status, later: Cluster, next': Status)
    requires st.name in cl.storages && cl.storages[st.name] == st
    requires later == WriteStatus(cl, st, next, Healthy).0 && Normalize(next') == Normalize(next)
    ensures st.name in later.storages && WriteStatus(later, later.storages[st.name], next', Healthy) == (later, true)
  {
    StatusStored(cl, st, next, Healthy);
  }

  lemma FailureIsFixed(cl: Cluster, st: Storage, reason: string, message: string, now: nat, now': nat, later: Cluster)
    requires st.name in cl.storages && cl.storages[st.name] == st
    requires later == WriteStatus(cl, st, FailedStatus(st, reason, message, now), Healthy).0
    ensures st.name in later.storages
    ensures var st' := later.storages[st.name];
            && st'.name == st.name && st'.spec == st.spec && st'.recoveryNonce == st.recoveryNonce
            && st'.status.prepare == st.status.prepare
            && WriteStatus(later, st', FailedStatus(st', reason, message, now'), Healthy) == (later, true)
            && later.claims == cl.claims && later.jobs == cl.jobs
            && later.storages == cl.storages[st.name := st']
  {
    StatusStored(cl, st, FailedStatus(st, reason, message, now), Healthy);
    var st' := later.storages[st.name];
    FailedTimeless(st, st', reason, message, now, now');
    WriteIsFixed(cl, st, FailedStatus(st, reason, message, now), later, FailedStatus(st', reason, message, now'));
  }

  lemma FailedTimeless(st: Storage, st': Storage, reason: string, message: string, now: nat, now': nat)
    requires st'.name == st.name && st'.generation == st.generation
    requires st'.status.prepare == st.status.prepare && st'.status.accessor == st.status.accessor
    ensures Normalize(FailedStatus(st', reason, message, now')) == Normalize(FailedStatus(st, reason, message, now))
  {
    var c, c' := FailedStatus(st, reason, message, now).conditions, FailedStatus(st', reason, message, now').conditions;
    assert Timeless(c) == Timeless(c');
  }

  /** The sub-steps of a pass that computes its snapshot. */
  ghost predicate Substeps(lib: Library, cl: Cluster, st: Storage, claim: StorageReconcile.Step<Claim>,
                           prepare: StorageReconcile.Step<PrepareProgress>, accessor: StorageReconcile.Step<AccessorProgress>,
                           cl3: Cluster)
  {
    var (c1, r1) := ReconcileClaim(lib, cl, st, Healthy);
    && r1 == claim && claim.Success?
    && var (c2, r2) := ReconcilePrepare(lib, c1, st, claim.value, Healthy);
       && r2 == prepare && prepare.Success?
       && var (c3, r3) := ReconcileAccessor(c2, st, claim.value, prepare.value, Healthy);
          r3 == accessor && accessor.Success? && c3 == cl3
  }

  lemma ReconcileBySubsteps(lib: Library, cl: Cluster, name: string, now: nat, claim: StorageReconcile.Step<Claim>,
                            prepare: StorageReconcile.Step<PrepareProgress>, accessor: StorageReconcile.Step<AccessorProgress>,
                            cl3: Cluster)
    requires name in cl.storages && Substeps(lib, cl, cl.storages[name], claim, prepare, accessor, cl3)
    ensures var st := cl.storages[name];
            var next := BuildStatus(st, claim.value, prepare.value, accessor.value, now);
            Reconcile(lib, cl, name, now, Healthy) ==
            Finish(cl3, st, next, claim.changed || prepare.value.changed || accessor.value.changed, Healthy)
  {
  }

  /** Once everything is in line, the sub-steps change nothing and report the same. */
  lemma SubstepsAreFixed(lib: Library, cl: Cluster, st: Storage, claim: StorageReconcile.Step<Claim>,
                         prepare: StorageReconcile.Step<PrepareProgress>, accessor: StorageReconcile.Step<AccessorProgress>,
                         cl3: Cluster, later: Cluster, st': Storage)
    returns (prepare': StorageReconcile.Step<PrepareProgress>, accessor': StorageReconcile.Step<AccessorProgress>)
    requires Substeps(lib, cl, st, claim, prepare, accessor, cl3)
    requires later.claims == cl3.claims && later.jobs == cl3.jobs && later.services == cl3.services
    requires later.deployments == cl3.deployments && later.storages == cl3.storages[st.name := st']
    requires Canonical(st.name) == st.name && After(st, st', prepare)
    ensures Substeps(lib, later, st', Success(claim.value, false), prepare', accessor', later)
    ensures SamePrepare(prepare'.value, prepare.value) && SameAccessor(accessor'.value, accessor.value)
    ensures !prepare'.value.changed && !accessor'.value.changed
  {
    var (c1, _) := ReconcileClaim(lib, cl, st, Healthy);
    var (c2, _) := ReconcilePrepare(lib, c1, st, claim.value, Healthy);
    ClaimIsFixed(lib, cl, st, later, st');
    PrepareIsFixed(lib, c1, st, claim.value, later, st');
    prepare' := ReconcilePrepare(lib, later, st', claim.value, Healthy).1;
    AccessorIsFixed(c2, st, claim.value, prepare.value, later, st', prepare'.value);
    accessor' := ReconcileAccessor(later, st', claim.value, prepare'.value, Healthy).1;
  }

  /** The second pass finds everything as the first one left it. */
  ghost predicate SecondPassIdle(lib: Library, cl: Cluster, name: string, now: nat, now': nat) {
    var (cl1, out) := Reconcile(lib, cl, name, now, Healthy);
    var (cl2, out') := Reconcile(lib, cl1, name, now', Healthy);
    && cl2 == cl1
    && out'.error == out.error
    && (out'.computed.Some? <==> out.computed.Some?)
    && (out.computed.Some? ==> Normalize(out'.computed.value) == Normalize(out.computed.value))
    && (out'.requeue <==> out.computed.Some? && !out.computed.value.phase.PhaseReady?)
  }

  lemma HealthyFinish(cl: Cluster, st: Storage, next: Status, changed: bool)
    ensures Finish(cl, st, next, changed, Healthy) ==
            (WriteStatus(cl, st, next, Healthy).0, Outcome(false, changed || !next.phase.PhaseReady?, Some(next)))
  {
  }

  lemma NormalizedPhase(a: Status, b: Status)
    requires Normalize(a) == Normalize(b)
    ensures a.phase == b.phase && a.prepare == b.prepare
  {
  }

  lemma CompletedIsFixed(lib: Library, cl: Cluster, name: string, now: nat, now': nat, claim: StorageReconcile.Step<Claim>,
                         prepare: StorageReconcile.Step<PrepareProgress>, accessor: StorageReconcile.Step<AccessorProgress>,
                         cl3: Cluster)
    requires name in cl.storages && cl.storages[name].name == name && Canonical(name) == name
    requires Substeps(lib, cl, cl.storages[name], claim, prepare, accessor, cl3)
    requires cl3.storages == cl.storages
    ensures SecondPassIdle(lib, cl, name, now, now')
  {
    var st := cl.storages[name];
    var next := BuildStatus(st, claim.value, prepare.value, accessor.value, now);
    var changed := claim.changed || prepare.value.changed || accessor.value.changed;
    ReconcileBySubsteps(lib, cl, name, now, claim, prepare, accessor, cl3);
    HealthyFinish(cl3, st, next, changed);
    var later := WriteStatus(cl3, st, next, Healthy).0;
    var next' := LaterPass(lib, cl, st, claim, prepare, accessor, cl3, next, now, now', later);
    NormalizedPhase(next, next');
  }

  /** The pass after the one that wrote `next`. */
  lemma LaterPass(lib: Library, cl: Cluster, st: Storage, claim: StorageReconcile.Step<Claim>,
                  prepare: StorageReconcile.Step<PrepareProgress>, accessor: StorageReconcile.Step<AccessorProgress>,
                  cl3: Cluster, next: Status, now: nat, now': nat, later: Cluster)
    returns (next': Status)
    requires st.name in cl3.storages && cl3.storages[st.name] == st && Canonical(st.name) == st.name
    requires Substeps(lib, cl, st, claim, prepare, accessor, cl3)
    requires next == BuildStatus(st, claim.value, prepare.value, accessor.value, now)
    requires later == WriteStatus(cl3, st, next, Healthy).0
    ensures Normalize(next') == Normalize(next)
    ensures Reconcile(lib, later, st.name, now', Healthy) == (later, Outcome(false, !next'.phase.PhaseReady?, Some(next')))
  {
    StatusStored(cl3, st, next, Healthy);
    var st' := later.storages[st.name];
    NormalizedPhase(st'.status, next);
    var prepare', accessor' := SubstepsAreFixed(lib, cl, st, claim, prepare, accessor, cl3, later, st');
    next' := BuildStatus(st', claim.value, prepare'.value, accessor'.value, now');
    SnapshotIsFixed(st, st', claim.value, prepare.value, prepare'.value, accessor.value, accessor'.value, now, now');
    WriteIsFixed(cl3, st, next, later, next');
    ReconcileBySubsteps(lib, later, st.name, now', Success(claim.value, false), prepare', accessor', later);
    HealthyFinish(later, st', next', false);
  }

  lemma ClaimFailureIsFixed(lib: Library, cl: Cluster, name: string, now: nat, now': nat)
    requires name in cl.storages && cl.storages[name].name == name
    requires ReconcileClaim(lib, cl, cl.storages[name], Healthy).1.Failure?
    ensures SecondPassIdle(lib, cl, name, now, now')
  {
    var st := cl.storages[name];
    var (cl1, claim) := ReconcileClaim(lib, cl, st, Healthy);
    var later := Reconcile(lib, cl, name, now, Healthy).0;
    assert later == WriteStatus(cl1, st, FailedStatus(st, REASON_PVC_SYNC_FAILED, claim.message, now), Healthy).0;
    FailureIsFixed(cl1, st, REASON_PVC_SYNC_FAILED, claim.message, now, now', later);
    ClaimIsFixed(lib, cl, st, later, later.storages[name]);
  }

  lemma PrepareFailureIsFixed(lib: Library, cl: Cluster, name: string, now: nat, now': nat)
    requires name in cl.storages && cl.storages[name].name == name && Canonical(name) == name
    requires var st := cl.storages[name];
             var (cl1, claim) := ReconcileClaim(lib, cl, st, Healthy);
             claim.Success? && ReconcilePrepare(lib, cl1, st, claim.value, Healthy).1.Failure?
    ensures SecondPassIdle(lib, cl, name, now, now')
  {
    var st := cl.storages[name];
    var (cl1, claim) := ReconcileClaim(lib, cl, st, Healthy);
    var (cl2, prepare) := ReconcilePrepare(lib, cl1, st, claim.value, Healthy);
    var later := Reconcile(lib, cl, name, now, Healthy).0;
    InvalidPass(lib, cl, name, now);
    FailureIsFixed(cl2, st, REASON_INVALID_SPEC, prepare.message, now, now', later);
    StillInvalid(lib, cl, name, later, now');
  }

  /** The second pass over it marks it failed in the same way. */
  lemma StillInvalid(lib: Library, cl: Cluster, name: string, later: Cluster, now: nat)
    requires name in cl.storages && cl.storages[name].name == name && Canonical(name) == name
    requires var st := cl.storages[name];
             var (cl1, claim) := ReconcileClaim(lib, cl, st, Healthy);
             && claim.Success?
             && var (cl2, prepare) := ReconcilePrepare(lib, cl1, st, claim.value, Healthy);
                && prepare.Failure? && later.claims == cl2.claims && later.jobs == cl2.jobs
                && name in later.storages && After(st, later.storages[name], prepare)
                && later.storages == cl.storages[name := later.storages[name]]
    ensures var st := cl.storages[name];
            var (cl1, claim) := ReconcileClaim(lib, cl, st, Healthy);
            var prepare := ReconcilePrepare(lib, cl1, st, claim.value, Healthy).1;
            Reconcile(lib, later, name, now, Healthy) ==
            MarkFailed(later, later.storages[name], REASON_INVALID_SPEC, prepare.message, now, Healthy, false)
  {
    var st, st' := cl.storages[name], later.storages[name];
    var (cl1, claim) := ReconcileClaim(lib, cl, st, Healthy);
    ClaimIsFixed(lib, cl, st, later, st');
    PrepareIsFixed(lib, cl1, st, claim.value, later, st');
    InvalidPass(lib, later, name, now);
  }

  /** A pass over an invalid preparation request marks the storage failed and does no more. */
  lemma InvalidPass(lib: Library, cl: Cluster, name: string, now: nat)
    requires name in cl.storages
    requires var st := cl.storages[name];
             var (cl1, claim) := ReconcileClaim(lib, cl, st, Healthy);
             claim.Success? && ReconcilePrepare(lib, cl1, st, claim.value, Healthy).1.Failure?
    ensures var st := cl.storages[name];
            var (cl1, claim) := ReconcileClaim(lib, cl, st, Healthy);
            var (cl2, prepare) := ReconcilePrepare(lib, cl1, st, claim.value, Healthy);
            Reconcile(lib, cl, name, now, Healthy) == MarkFailed(cl2, st, REASON_INVALID_SPEC, prepare.message, now, Healthy, false)
  {
  }

  /** A pass without store errors is a fixpoint: run again with nothing in between, it
      leaves every object and the journal of writes alone (no create, update or delete, no
      status write), reports the same error status, and computes the same snapshot except
      for the time. */
  lemma ReconcileIsFixpoint(lib: Library, cl: Cluster, name: string, now: nat, now': nat)
    requires WellKeyed(cl)
    ensures SecondPassIdle(lib, cl, name, now, now')
  {
    if name in cl.storages {
      var st := cl.storages[name];
      var (cl1, claim) := ReconcileClaim(lib, cl, st, Healthy);
      if claim.Failure? {
        ClaimFailureIsFixed(lib, cl, name, now, now');
      } else {
        var (cl2, prepare) := ReconcilePrepare(lib, cl1, st, claim.value, Healthy);
        if prepare.Failure? {
          PrepareFailureIsFixed(lib, cl, name, now, now');
        } else {
          var (cl3, accessor) := ReconcileAccessor(cl2, st, claim.value, prepare.value, Healthy);
          AccessorIsFixed(cl2, st, claim.value, prepare.value, cl3, st, prepare.value);
          CompletedIsFixed(lib, cl, name, now, now', claim, prepare, accessor, cl3);
        }
      }
    }
  }
}
