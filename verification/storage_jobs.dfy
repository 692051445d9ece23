/** The prepare jobs over whole runs of the storage controller
    (internal/controller/gpustorage_controller.go): which creations the journal of writes
    records, and what the job under a storage's job name does. */
module StorageJobs {
  import opened Text
  import opened Names
  import opened StorageModel
  import opened StorageReconcile
  import opened StorageTheorems
  import opened StorageRuns

  // ----------------------------------------------------------------- the journal

  /** The writes in between do not create this job. */
  ghost predicate NotCreated(cl: Cluster, cl': Cluster, job: string) {
    && |cl.journal| <= |cl'.journal| && cl'.journal[..|cl.journal|] == cl.journal
    && forall k :: |cl.journal| <= k < |cl'.journal| ==> cl'.journal[k] != (CreateJob, job)
  }

  lemma NotCreatedThen(a: Cluster, b: Cluster, c: Cluster, job: string)
    requires NotCreated(a, b, job) && NotCreated(b, c, job)
    ensures NotCreated(a, c, job)
  {
    assert c.journal[..|a.journal|] == c.journal[..|b.journal|][..|a.journal|];
    forall k | |a.journal| <= k < |c.journal| ensures c.journal[k] != (CreateJob, job) {
      if k < |b.journal| {
        assert c.journal[k] == c.journal[..|b.journal|][k];
      }
    }
  }

  lemma NothingWritten(cl: Cluster, job: string)
    ensures NotCreated(cl, cl, job)
  {
  }

  lemma ClaimCreatesNoJob(lib: Library, cl: Cluster, st: Storage, store: Store, job: string)
    ensures NotCreated(cl, ReconcileClaim(lib, cl, st, store).0, job)
  {
  }

  lemma JobStepCreatesOnly(lib: Library, cl: Cluster, st: Storage, source: string, store: Store, job: string)
    requires job != JobName(st.name, DigestOf(lib, st)) || ReconcileJob(lib, cl, st, source, store).0.jobs == cl.jobs
    ensures NotCreated(cl, ReconcileJob(lib, cl, st, source, store).0, job)
  {
  }

  /** The prepare sub-step creates no other job, and none if it leaves the jobs alone. */
  lemma PrepareCreatesOnly(lib: Library, cl: Cluster, st: Storage, claim: Claim, store: Store, job: string)
    requires job != JobName(st.name, DigestOf(lib, st)) || ReconcilePrepare(lib, cl, st, claim, store).0.jobs == cl.jobs
    ensures NotCreated(cl, ReconcilePrepare(lib, cl, st, claim, store).0, job)
  {
    var source := ResolveSource(cl, st, store);
    if source.SourceClaim? && ReconcilePrepare(lib, cl, st, claim, store).0 == ReconcileJob(lib, cl, st, source.claim, store).0 {
      JobStepCreatesOnly(lib, cl, st, source.claim, store, job);
    }
  }

  lemma PutServiceCreatesNoJob(cl: Cluster, op: Op, name: string, service: Service, store: Store, job: string)
    requires op != CreateJob
    ensures NotCreated(cl, PutService(cl, op, name, service, store), job)
  {
  }

  lemma ServiceCreatesNoJob(cl: Cluster, st: Storage, store: Store, job: string)
    ensures NotCreated(cl, PublishService(cl, st, store).0, job)
  {
    var name := AccessorName(st.name);
    NothingWritten(cl, job);
    if name !in cl.services {
      PutServiceCreatesNoJob(cl, CreateService, name, DesiredService(st.name), store, job);
    } else {
      PutServiceCreatesNoJob(cl, UpdateService, name, SyncService(cl.services[name], DesiredService(st.name)), store, job);
    }
  }

  lemma PutDeploymentCreatesNoJob(cl: Cluster, op: Op, name: string, deployment: Deployment, store: Store, job: string)
    requires op != CreateJob
    ensures NotCreated(cl, PutDeployment(cl, op, name, deployment, store), job)
  {
  }

  lemma DeploymentCreatesNoJob(cl: Cluster, st: Storage, store: Store, job: string)
    ensures NotCreated(cl, PublishDeployment(cl, st, store).0, job)
  {
    var name, desired := AccessorName(st.name), DesiredDeployment(st.name, FirstNonEmpty(st.name, st.name));
    NothingWritten(cl, job);
    if name !in cl.deployments {
      PutDeploymentCreatesNoJob(cl, CreateDeployment, name, desired, store, job);
    } else {
      PutDeploymentCreatesNoJob(cl, UpdateDeployment, name, SyncDeployment(cl.deployments[name], desired), store, job);
    }
  }

  lemma AccessorCreatesNoJob(cl: Cluster, st: Storage, claim: Claim, prepare: PrepareProgress, store: Store, job: string)
    ensures NotCreated(cl, ReconcileAccessor(cl, st, claim, prepare, store).0, job)
  {
    if st.spec.accessorEnabled && claim.bound && prepare.ready {
      var (cl1, service) := PublishService(cl, st, store);
      ServiceCreatesNoJob(cl, st, store, job);
      DeploymentCreatesNoJob(cl1, st, store, job);
      NotCreatedThen(cl, cl1, PublishDeployment(cl1, st, store).0, job);
    } else {
      RemovalCreatesNoJob(cl, st, store, job);
    }
  }

  lemma RemovalCreatesNoJob(cl: Cluster, st: Storage, store: Store, job: string)
    ensures NotCreated(cl, RemoveAccessor(cl, st, store).0, job)
  {
    var (cl1, removed) := RemoveDeployment(cl, AccessorName(st.name), store);
    assert NotCreated(cl, cl1, job);
    var cl2 := RemoveService(cl1, AccessorName(st.name), store).0;
    assert NotCreated(cl1, cl2, job);
    NotCreatedThen(cl, cl1, cl2, job);
  }

  lemma StatusCreatesNoJob(cl: Cluster, st: Storage, next: Status, store: Store, job: string)
    ensures NotCreated(cl, WriteStatus(cl, st, next, store).0, job)
  {
  }

  /** The job is not the one this pass may create, or the pass leaves the jobs alone. */
  ghost predicate PassSpares(lib: Library, cl: Cluster, n: string, store: Store, job: string)
    requires n in cl.storages
  {
    var st := cl.storages[n];
    var (cl1, claim) := ReconcileClaim(lib, cl, st, store);
    job != JobName(st.name, DigestOf(lib, st))
    || (claim.Success? ==> ReconcilePrepare(lib, cl1, st, claim.value, store).0.jobs == cl1.jobs)
  }

  lemma AfterPrepareCreatesNoJob(cl: Cluster, st: Storage, claim: Claim, claimChanged: bool,
                                 prepare: StorageReconcile.Step<PrepareProgress>, now: nat, store: Store, job: string)
    ensures NotCreated(cl, AfterPrepare(cl, st, claim, claimChanged, prepare, now, store).0, job)
  {
    if prepare.Failure? {
      StatusCreatesNoJob(cl, st, FailedStatus(st, REASON_INVALID_SPEC, prepare.message, now), store, job);
    } else {
      var (cl1, accessor) := ReconcileAccessor(cl, st, claim, prepare.value, store);
      AccessorCreatesNoJob(cl, st, claim, prepare.value, store, job);
      var next := if accessor.Failure? then FailedStatus(st, REASON_ACCESSOR_FAILED, accessor.message, now)
                  else BuildStatus(st, claim, prepare.value, accessor.value, now);
      StatusCreatesNoJob(cl1, st, next, store, job);
      NotCreatedThen(cl, cl1, WriteStatus(cl1, st, next, store).0, job);
    }
  }

  lemma AfterClaimCreatesNoJob(lib: Library, cl: Cluster, cl1: Cluster, st: Storage, claim: StorageReconcile.Step<Claim>,
                               now: nat, store: Store, job: string)
    requires NotCreated(cl, cl1, job)
    requires job != JobName(st.name, DigestOf(lib, st))
             || (claim.Success? ==> ReconcilePrepare(lib, cl1, st, claim.value, store).0.jobs == cl1.jobs)
    ensures NotCreated(cl, AfterClaim(lib, cl1, st, claim, now, store).0, job)
  {
    if claim.Failure? {
      StatusCreatesNoJob(cl1, st, FailedStatus(st, REASON_PVC_SYNC_FAILED, claim.message, now), store, job);
    } else {
      var (cl2, prepare) := ReconcilePrepare(lib, cl1, st, claim.value, store);
      PrepareCreatesOnly(lib, cl1, st, claim.value, store, job);
      AfterPrepareCreatesNoJob(cl2, st, claim.value, claim.changed, prepare, now, store, job);
      NotCreatedThen(cl1, cl2, AfterClaim(lib, cl1, st, claim, now, store).0, job);
    }
    NotCreatedThen(cl, cl1, AfterClaim(lib, cl1, st, claim, now, store).0, job);
  }

  lemma PassCreatesNoJob(lib: Library, cl: Cluster, n: string, now: nat, store: Store, job: string)
    requires n in cl.storages && PassSpares(lib, cl, n, store, job)
    ensures NotCreated(cl, Reconcile(lib, cl, n, now, store).0, job)
  {
    if store(GetStorage).Done? {
      var (cl1, claim) := ReconcileClaim(lib, cl, cl.storages[n], store);
      ClaimCreatesNoJob(lib, cl, cl.storages[n], store, job);
      AfterClaimCreatesNoJob(lib, cl, cl1, cl.storages[n], claim, now, store, job);
    } else {
      NothingWritten(cl, job);
    }
  }

  lemma ChangeCreatesNoJob(cl: Cluster, change: Change, job: string)
    ensures NotCreated(cl, Changed(cl, change), job)
  {
    JournalStays(cl, change);
  }

  lemma JournalStays(cl: Cluster, change: Change)
    ensures Changed(cl, change).journal == cl.journal
  {
  }

  /** A pass over any storage spares the job of a prepared one. */
  lemma PassSparesPrepared(lib: Library, cl: Cluster, n: string, m: string, store: Store)
    requires TwelveDigits(lib) && Truthful(cl) && Prepared(lib, cl, n) && m in cl.storages
    ensures PassSpares(lib, cl, m, store, JobName(n, DigestOf(lib, cl.storages[n])))
  {
    if m == n {
      var st := cl.storages[n];
      ClaimStaysBound(lib, cl, st, store);
      var (cl1, claim) := ReconcileClaim(lib, cl, st, store);
      if claim.Success? {
        SucceededReportedExactly(lib, cl1, st, claim.value, store);
      }
    } else {
      OtherJob(lib, cl.storages[n], cl.storages[m]);
    }
  }

  lemma EventCreatesNoJob(lib: Library, cl: Cluster, e: Event, n: string, job: string)
    requires TwelveDigits(lib) && Truthful(cl) && Prepared(lib, cl, n) && job == JobName(n, DigestOf(lib, cl.storages[n]))
    ensures NotCreated(cl, Apply(lib, cl, e), job)
  {
    if e.Happens? {
      ChangeCreatesNoJob(cl, e.change, job);
    } else if e.name in cl.storages {
      PassSparesPrepared(lib, cl, n, e.name, e.store);
      PassCreatesNoJob(lib, cl, e.name, e.now, e.store, job);
    } else {
      PassOfNothing(lib, cl, e);
      NothingWritten(cl, job);
    }
  }

  lemma {:induction false} RunCreatesNoJob(lib: Library, cl: Cluster, events: seq<Event>, n: string)
    requires TwelveDigits(lib) && Truthful(cl) && Prepared(lib, cl, n)
    requires AllLeavePreparation(lib, cl, events, n) && NoFallback(lib, cl, events, n)
    ensures NotCreated(cl, Run(lib, cl, events), JobName(n, DigestOf(lib, cl.storages[n])))
  {
    var job := JobName(n, DigestOf(lib, cl.storages[n]));
    if events == [] {
      NothingWritten(cl, job);
    } else {
      var before, e := events[..|events| - 1], events[|events| - 1];
      var middle := Run(lib, cl, before);
      PrefixLeavesPreparation(lib, cl, events, n);
      RunCreatesNoJob(lib, cl, before, n);
      RunKeepsPrepared(lib, cl, before, n);
      RunKeepsTruthful(lib, cl, before);
      EventCreatesNoJob(lib, middle, e, n, job);
      NotCreatedThen(cl, middle, Run(lib, cl, events), job);
    }
  }

  /** From any reachable cluster in which a storage is bound and recorded as prepared for its
      current digest, over every further run that leaves its claim bound and its preparation
      request alone, and in which no pass over it falls back for want of its source: it stays
      recorded as prepared, and no pass, however the store fails, writes another creation of
      its job, not even once the job is gone. */
  lemma NotPreparedAgain(lib: Library, events: seq<Event>, more: seq<Event>, n: string)
    requires TwelveDigits(lib)
    requires Prepared(lib, Run(lib, EMPTY, events), n)
    requires AllLeavePreparation(lib, Run(lib, EMPTY, events), more, n) && NoFallback(lib, Run(lib, EMPTY, events), more, n)
    ensures var cl := Run(lib, EMPTY, events);
            var cl' := Run(lib, cl, more);
            var job := JobName(n, DigestOf(lib, cl.storages[n]));
            && Prepared(lib, cl', n)
            && cl.journal <= cl'.journal && (CreateJob, job) !in cl'.journal[|cl.journal|..]
            && (job in cl'.jobs ==> job in cl.jobs)
  {
    RunKeepsTruthful(lib, EMPTY, events);
    NotPreparedAgainFrom(lib, Run(lib, EMPTY, events), more, n);
  }

  lemma NotPreparedAgainFrom(lib: Library, cl: Cluster, more: seq<Event>, n: string)
    requires TwelveDigits(lib) && Truthful(cl) && Prepared(lib, cl, n)
    requires AllLeavePreparation(lib, cl, more, n) && NoFallback(lib, cl, more, n)
    ensures var cl' := Run(lib, cl, more);
            var job := JobName(n, DigestOf(lib, cl.storages[n]));
            && Prepared(lib, cl', n)
            && cl.journal <= cl'.journal && (CreateJob, job) !in cl'.journal[|cl.journal|..]
            && (job in cl'.jobs ==> job in cl.jobs)
  {
    RunKeepsPrepared(lib, cl, more, n);
    RunCreatesNoJob(lib, cl, more, n);
  }

  lemma SourcelessNeverFallsBack(lib: Library, cl: Cluster, e: Event, n: string)
    requires n in cl.storages && cl.storages[n].spec.prepare.fromStorageName == ""
    ensures !FallsBack(lib, cl, e, n)
  {
  }

  /** A storage that is seeded from an image never falls back ... */
  lemma {:induction false} ImageNeverFallsBack(lib: Library, cl: Cluster, events: seq<Event>, n: string)
    requires TwelveDigits(lib) && Truthful(cl) && Prepared(lib, cl, n) && AllLeavePreparation(lib, cl, events, n)
    requires cl.storages[n].spec.prepare.fromStorageName == ""
    ensures NoFallback(lib, cl, events, n)
  {
    if events != [] {
      var before := events[..|events| - 1];
      PrefixLeavesPreparation(lib, cl, events, n);
      ImageNeverFallsBack(lib, cl, before, n);
      RunKeepsPrepared(lib, cl, before, n);
      SourcelessNeverFallsBack(lib, Run(lib, cl, before), events[|events| - 1], n);
    }
  }

  /** ... so it is never prepared twice. */
  lemma NeverPreparedTwice(lib: Library, events: seq<Event>, more: seq<Event>, n: string)
    requires TwelveDigits(lib)
    requires Prepared(lib, Run(lib, EMPTY, events), n)
    requires Run(lib, EMPTY, events).storages[n].spec.prepare.fromStorageName == ""
    requires AllLeavePreparation(lib, Run(lib, EMPTY, events), more, n)
    ensures var cl := Run(lib, EMPTY, events);
            var cl' := Run(lib, cl, more);
            var job := JobName(n, DigestOf(lib, cl.storages[n]));
            && Prepared(lib, cl', n)
            && cl.journal <= cl'.journal && (CreateJob, job) !in cl'.journal[|cl.journal|..]
            && (job in cl'.jobs ==> job in cl.jobs)
  {
    RunKeepsTruthful(lib, EMPTY, events);
    ImageNeverFallsBack(lib, Run(lib, EMPTY, events), more, n);
    NotPreparedAgainFrom(lib, Run(lib, EMPTY, events), more, n);
  }

  /** Recorded as prepared after every event of the run. */
  predicate StaysPrepared(lib: Library, cl: Cluster, events: seq<Event>, n: string) {
    Prepared(lib, Run(lib, cl, events), n) && (events == [] || StaysPrepared(lib, cl, events[..|events| - 1], n))
  }

  lemma EventKeepsPreparedExactly(lib: Library, cl: Cluster, e: Event, n: string, cl': Cluster)
    requires TwelveDigits(lib) && Truthful(cl) && Prepared(lib, cl, n) && cl' == Apply(lib, cl, e)
    requires e.Happens? ==> LeavesPreparation(cl, e.change, n)
    ensures Prepared(lib, cl', n) <==> !FallsBack(lib, cl, e, n)
  {
    if FallsBack(lib, cl, e, n) {
      FallbackLosesRecord(lib, cl, n, e.now, e.store);
    } else {
      EventKeepsPrepared(lib, cl, e, n, cl');
    }
  }

  lemma {:induction false} RunKeepsPreparedExactly(lib: Library, cl: Cluster, events: seq<Event>, n: string)
    requires TwelveDigits(lib) && Truthful(cl) && Prepared(lib, cl, n) && AllLeavePreparation(lib, cl, events, n)
    ensures StaysPrepared(lib, cl, events, n) <==> NoFallback(lib, cl, events, n)
  {
    if events != [] {
      var before, e := events[..|events| - 1], events[|events| - 1];
      PrefixLeavesPreparation(lib, cl, events, n);
      RunKeepsPreparedExactly(lib, cl, before, n);
      if StaysPrepared(lib, cl, before, n) {
        RunKeepsTruthful(lib, cl, before);
        PreparedNow(lib, cl, before, n);
        EventKeepsPreparedExactly(lib, Run(lib, cl, before), e, n, Run(lib, cl, events));
      }
    }
  }

  lemma PreparedNow(lib: Library, cl: Cluster, events: seq<Event>, n: string)
    requires StaysPrepared(lib, cl, events, n)
    ensures Prepared(lib, Run(lib, cl, events), n)
  {
  }

  /** Exactly, for copied storages too: a storage stays recorded as prepared throughout such a
      run if and only if no pass over it finds its source missing or not ready and records
      that. */
  lemma StaysPreparedExactly(lib: Library, events: seq<Event>, more: seq<Event>, n: string)
    requires TwelveDigits(lib)
    requires Prepared(lib, Run(lib, EMPTY, events), n)
    requires AllLeavePreparation(lib, Run(lib, EMPTY, events), more, n)
    ensures StaysPrepared(lib, Run(lib, EMPTY, events), more, n) <==> NoFallback(lib, Run(lib, EMPTY, events), more, n)
  {
    RunKeepsTruthful(lib, EMPTY, events);
    RunKeepsPreparedExactly(lib, Run(lib, EMPTY, events), more, n);
  }

  // ---------------------------------------------------------- what the jobs do

  /** The job prepares storage n as asked: it runs the given image and script on the claim, or
      copies the claim of the source storage into it. */
  predicate DoesWork(spec: JobSpec, p: PrepareSpec, n: string) {
    && spec.target == n
    && if p.fromStorageName != "" then spec.image == COPY_IMAGE && spec.source == Some(p.fromStorageName)
       else spec.image == p.fromImage && spec.command == p.command && spec.args == p.args && spec.source == None
  }

  /** A job carries the name of the preparation it does. */
  ghost predicate Made(lib: Library, name: string, spec: JobSpec) {
    exists n, p, nonce :: |n| <= 34 && name == JobName(n, lib.digest(p, nonce)) && DoesWork(spec, p, n)
  }

  ghost predicate AllMade(lib: Library, cl: Cluster) {
    forall j :: j in cl.jobs ==> Made(lib, j, cl.jobs[j].spec)
  }

  /** A storage's status names its own claim, if any. */
  ghost predicate OwnClaims(cl: Cluster) {
    forall n :: n in cl.storages ==> cl.storages[n].status.claimName == "" || cl.storages[n].status.claimName == n
  }

  lemma CanonicalIsTrimmed(n: string)
    requires Canonical(n) == n
    ensures FirstNonEmpty(n, n) == n && FirstNonEmpty("", n) == n
  {
    TrimmedIsFixed(n);
  }

  lemma WrittenClaimName(cl: Cluster, st: Storage, next: Status, store: Store)
    requires st.name in cl.storages && cl.storages[st.name] == st
    ensures var cl' := WriteStatus(cl, st, next, store).0;
            && st.name in cl'.storages
            && (cl'.storages[st.name].status.claimName == next.claimName || cl'.storages[st.name].status.claimName == st.status.claimName)
  {
  }

  lemma PassClaimName(lib: Library, cl: Cluster, n: string, now: nat, store: Store)
    requires Truthful(cl) && n in cl.storages
    ensures var cl' := Reconcile(lib, cl, n, now, store).0;
            && n in cl'.storages
            && (cl'.storages[n].status.claimName == n || cl'.storages[n].status.claimName == cl.storages[n].status.claimName)
  {
    var st := cl.storages[n];
    CanonicalIsTrimmed(n);
    if store(GetStorage).Done? {
      var (cl1, claim) := ReconcileClaim(lib, cl, st, store);
      if claim.Failure? {
        WrittenClaimName(cl1, st, FailedStatus(st, REASON_PVC_SYNC_FAILED, claim.message, now), store);
      } else {
        var (cl2, prepare) := ReconcilePrepare(lib, cl1, st, claim.value, store);
        var cl3, next := AfterPrepareWrites(lib, cl2, st, claim.value, claim.changed, prepare, now, store);
        WrittenClaimName(cl3, st, next, store);
      }
    }
  }

  lemma PassKeepsOwnClaims(lib: Library, cl: Cluster, n: string, now: nat, store: Store, cl': Cluster)
    requires Truthful(cl) && OwnClaims(cl) && n in cl.storages && cl' == Reconcile(lib, cl, n, now, store).0
    requires PassShape(lib, cl, cl', n, store)
    ensures OwnClaims(cl')
  {
    PassClaimName(lib, cl, n, now, store);
    OnlyOneStorage(lib, cl, cl', n, store);
    OneClaimName(cl, cl', n);
  }

  lemma OnlyOneStorage(lib: Library, cl: Cluster, cl': Cluster, n: string, store: Store)
    requires PassShape(lib, cl, cl', n, store)
    ensures n in cl'.storages && cl'.storages == cl.storages[n := cl'.storages[n]]
  {
  }

  lemma OneClaimName(cl: Cluster, cl': Cluster, n: string)
    requires OwnClaims(cl) && n in cl.storages && n in cl'.storages && cl'.storages == cl.storages[n := cl'.storages[n]]
    requires cl'.storages[n].status.claimName == n || cl'.storages[n].status.claimName == cl.storages[n].status.claimName
    ensures OwnClaims(cl')
  {
  }

  lemma ChangeKeepsOwnClaims(cl: Cluster, change: Change, cl': Cluster)
    requires OwnClaims(cl) && cl' == Changed(cl, change)
    ensures OwnClaims(cl')
  {
    forall n | n in cl'.storages ensures cl'.storages[n].status.claimName == "" || cl'.storages[n].status.claimName == n {
      ChangeOfStorages(cl, change, n);
    }
  }

  /** The source claim that a job copies from is the one of the storage it names. */
  lemma SourceIsNamed(cl: Cluster, st: Storage, store: Store)
    requires Truthful(cl) && OwnClaims(cl)
    ensures var s := ResolveSource(cl, st, store);
            s.SourceClaim? && st.spec.prepare.fromStorageName != "" ==> s.claim == st.spec.prepare.fromStorageName
  {
    var source := st.spec.prepare.fromStorageName;
    if source in cl.storages {
      CanonicalIsTrimmed(source);
    }
  }

  /** What the prepare sub-step does to the jobs. */
  lemma PrepareJobs(lib: Library, cl: Cluster, st: Storage, claim: Claim, store: Store)
    ensures var jobs' := ReconcilePrepare(lib, cl, st, claim, store).0.jobs;
            var source := ResolveSource(cl, st, store);
            || jobs' == cl.jobs
            || (source.SourceClaim?
                && jobs' == cl.jobs[JobName(st.name, DigestOf(lib, st)) := DesiredJob(st, FirstNonEmpty(st.name, st.name), source.claim)])
  {
  }

  lemma DesiredDoesWork(st: Storage, target: string, source: string)
    requires target == st.name && (st.spec.prepare.fromStorageName != "" ==> source == st.spec.prepare.fromStorageName)
    ensures DoesWork(DesiredJob(st, target, source).spec, st.spec.prepare, st.name)
  {
  }

  /** At most one job was added, and it does what the storage asks for. */
  ghost predicate AddsWork(lib: Library, jobs: map<string, Job>, jobs': map<string, Job>, st: Storage) {
    var job := JobName(st.name, DigestOf(lib, st));
    || jobs' == jobs
    || (job in jobs' && jobs' == jobs[job := jobs'[job]] && DoesWork(jobs'[job].spec, st.spec.prepare, st.name))
  }

  /** A job that the prepare sub-step creates does what the storage asks for. */
  lemma PrepareAddsWork(lib: Library, cl: Cluster, st: Storage, claim: Claim, store: Store)
    requires Truthful(cl) && OwnClaims(cl) && st.name in cl.storages && cl.storages[st.name] == st
    ensures AddsWork(lib, cl.jobs, ReconcilePrepare(lib, cl, st, claim, store).0.jobs, st)
  {
    PrepareJobs(lib, cl, st, claim, store);
    CanonicalIsTrimmed(st.name);
    SourceIsNamed(cl, st, store);
    var source := ResolveSource(cl, st, store);
    if source.SourceClaim? {
      DesiredDoesWork(st, FirstNonEmpty(st.name, st.name), source.claim);
    }
  }

  lemma PassAddsWork(lib: Library, cl: Cluster, n: string, store: Store, cl': Cluster)
    requires Truthful(cl) && OwnClaims(cl) && n in cl.storages && PassShape(lib, cl, cl', n, store)
    ensures AddsWork(lib, cl.jobs, cl'.jobs, cl.storages[n])
  {
    var (cl1, claim) := ReconcileClaim(lib, cl, cl.storages[n], store);
    if claim.Success? {
      PrepareAddsWork(lib, cl1, cl.storages[n], claim.value, store);
    }
  }

  lemma WorkKeepsMade(lib: Library, cl: Cluster, cl': Cluster, st: Storage)
    requires AllMade(lib, cl) && |st.name| <= 34 && AddsWork(lib, cl.jobs, cl'.jobs, st)
    ensures AllMade(lib, cl')
  {
    forall j | j in cl'.jobs ensures Made(lib, j, cl'.jobs[j].spec) {
      if !(j in cl.jobs && cl'.jobs[j] == cl.jobs[j]) {
        assert j == JobName(st.name, lib.digest(st.spec.prepare, st.recoveryNonce));
      }
    }
  }

  lemma ChangeKeepsSpecs(cl: Cluster, change: Change, j: string)
    requires j in Changed(cl, change).jobs
    ensures j in cl.jobs && Changed(cl, change).jobs[j].spec == cl.jobs[j].spec
  {
  }

  lemma ChangeKeepsMade(lib: Library, cl: Cluster, change: Change, cl': Cluster)
    requires AllMade(lib, cl) && cl' == Changed(cl, change)
    ensures AllMade(lib, cl')
  {
    forall j | j in cl'.jobs ensures Made(lib, j, cl'.jobs[j].spec) {
      ChangeKeepsSpecs(cl, change, j);
    }
  }

  lemma EventKeepsMade(lib: Library, cl: Cluster, e: Event, cl': Cluster)
    requires Truthful(cl) && OwnClaims(cl) && AllMade(lib, cl) && cl' == Apply(lib, cl, e)
    ensures OwnClaims(cl') && AllMade(lib, cl')
  {
    if e.Happens? {
      ChangeKeepsOwnClaims(cl, e.change, cl');
      ChangeKeepsMade(lib, cl, e.change, cl');
    } else if e.name in cl.storages {
      PassHasShape(lib, cl, e.name, e.now, e.store);
      PassKeepsOwnClaims(lib, cl, e.name, e.now, e.store, cl');
      PassAddsWork(lib, cl, e.name, e.store, cl');
      WorkKeepsMade(lib, cl, cl', cl.storages[e.name]);
    } else {
      PassOfNothing(lib, cl, e);
    }
  }

  lemma {:induction false} RunKeepsMade(lib: Library, events: seq<Event>)
    requires TwelveDigits(lib)
    ensures OwnClaims(Run(lib, EMPTY, events)) && AllMade(lib, Run(lib, EMPTY, events))
  {
    if events != [] {
      var before, e := events[..|events| - 1], events[|events| - 1];
      RunKeepsMade(lib, before);
      RunKeepsTruthful(lib, EMPTY, before);
      EventKeepsMade(lib, Run(lib, EMPTY, before), e, Run(lib, EMPTY, events));
    }
  }

  /** No other preparation has the digest of this one. */
  ghost predicate DigestIsOwn(lib: Library, st: Storage) {
    forall p, nonce :: lib.digest(p, nonce) == DigestOf(lib, st) ==> p == st.spec.prepare
  }

  /** In every reachable cluster, whatever happened to storages, claims and jobs before: a job
      under the current job name of a storage does exactly what that storage asks for now, so
      its success is the success of this preparation and of no earlier one. */
  lemma JobDoesTheCurrentWork(lib: Library, events: seq<Event>, n: string)
    requires TwelveDigits(lib)
    requires var cl := Run(lib, EMPTY, events);
             n in cl.storages && DigestIsOwn(lib, cl.storages[n]) && JobName(n, DigestOf(lib, cl.storages[n])) in cl.jobs
    ensures var cl := Run(lib, EMPTY, events);
            DoesWork(cl.jobs[JobName(n, DigestOf(lib, cl.storages[n]))].spec, cl.storages[n].spec.prepare, n)
  {
    RunKeepsTruthful(lib, EMPTY, events);
    RunKeepsMade(lib, events);
    MadeJobDoesTheWork(lib, Run(lib, EMPTY, events), n);
  }

  lemma MadeJobDoesTheWork(lib: Library, cl: Cluster, n: string)
    requires TwelveDigits(lib) && Truthful(cl) && AllMade(lib, cl)
    requires n in cl.storages && DigestIsOwn(lib, cl.storages[n]) && JobName(n, DigestOf(lib, cl.storages[n])) in cl.jobs
    ensures DoesWork(cl.jobs[JobName(n, DigestOf(lib, cl.storages[n]))].spec, cl.storages[n].spec.prepare, n)
  {
    MadeForStorage(lib, cl.storages[n], cl.jobs[JobName(n, DigestOf(lib, cl.storages[n]))].spec);
  }

  /** A job under the storage's job name was made for it, and for the digest it has now. */
  lemma MadeForStorage(lib: Library, st: Storage, spec: JobSpec)
    requires TwelveDigits(lib) && |st.name| <= 34 && DigestIsOwn(lib, st)
    requires Made(lib, JobName(st.name, DigestOf(lib, st)), spec)
    ensures DoesWork(spec, st.spec.prepare, st.name)
  {
    var digest := DigestOf(lib, st);
    var n, p, nonce :| |n| <= 34 && JobName(st.name, digest) == JobName(n, lib.digest(p, nonce)) && DoesWork(spec, p, n);
    JobNameInjective(st.name, digest, n, lib.digest(p, nonce));
  }
}
