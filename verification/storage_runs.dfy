/** Runs of the storage controller: passes over any storages, with any store faults,
    interleaved with what the cluster does on its own; and what keeps a storage recorded as
    prepared, or takes the record away. */
module StorageRuns {
  import opened Text
  import opened Names
  import opened StorageModel
  import opened StorageReconcile
  import opened StorageTheorems

  /** What the cluster and its users do besides the controller. */
  datatype Change =
    | BindClaim(name: string, capacity: string)
    | LoseClaim(name: string)
    | RemoveClaim(name: string)
    | RunJob(job: string)
    | SucceedJob(job: string)
    | FailJob(job: string, message: string)
    | ExpireJob(job: string)               // TTL deletion of a finished job
    | Scale(deployment: string, available: nat)
    | CreateStorage(name: string, spec: StorageSpec)
    | EditStorage(name: string, spec: StorageSpec, nonce: string)
    | RemoveStorage(name: string)

  datatype Event = Pass(name: string, now: nat, store: Store) | Happens(change: Change)

  const NO_STATUS := Status("", "", PhaseUnset, PrepareStatus(PrepareUnset, "", "", RecoveryUnset),
                            AccessorStatus(AccessorUnset, "", ""), 0, 0, [])

  predicate Finished(job: Job) {
    job.succeeded > 0 || job.failed > 0
  }

  function Apply(lib: Library, cl: Cluster, e: Event): Cluster {
    match e
    case Pass(name, now, store) => Reconcile(lib, cl, name, now, store).0
    case Happens(change) => Changed(cl, change)
  }

  function Changed(cl: Cluster, change: Change): Cluster {
    match change
    case BindClaim(name, capacity) =>
      if name in cl.claims then cl.(claims := cl.claims[name := cl.claims[name].(bound := true, capacity := Some(capacity))]) else cl
    case LoseClaim(name) =>
      if name in cl.claims then cl.(claims := cl.claims[name := cl.claims[name].(bound := false)]) else cl
    case RemoveClaim(name) => cl.(claims := cl.claims - {name})
    case RunJob(job) =>
      if job in cl.jobs && !Finished(cl.jobs[job]) then cl.(jobs := cl.jobs[job := cl.jobs[job].(active := 1)]) else cl
    case SucceedJob(job) =>
      if job in cl.jobs && !Finished(cl.jobs[job])
      then cl.(jobs := cl.jobs[job := cl.jobs[job].(active := 0, succeeded := 1)]) else cl
    case FailJob(job, message) =>
      if job in cl.jobs && !Finished(cl.jobs[job])
      then cl.(jobs := cl.jobs[job := cl.jobs[job].(active := 0, failed := 1, failureMessage := message)]) else cl
    case ExpireJob(job) =>
      if job in cl.jobs && Finished(cl.jobs[job]) then cl.(jobs := cl.jobs - {job}) else cl
    case Scale(deployment, available) =>
      if deployment in cl.deployments
      then cl.(deployments := cl.deployments[deployment := cl.deployments[deployment].(available := available)]) else cl
    case CreateStorage(name, spec) =>
      if name !in cl.storages && Canonical(name) == name && |name| <= 34
      then cl.(storages := cl.storages[name := Storage(name, spec, "", 1, NO_STATUS)]) else cl
    case EditStorage(name, spec, nonce) =>
      if name in cl.storages
      then
        var st := cl.storages[name];
        cl.(storages := cl.storages[name := st.(spec := spec, recoveryNonce := nonce, generation := st.generation + 1)])
      else cl
    case RemoveStorage(name) => cl.(storages := cl.storages - {name})
  }

  function Run(lib: Library, cl: Cluster, events: seq<Event>): Cluster {
    if events == [] then cl
    else Apply(lib, Run(lib, cl, events[..|events| - 1]), events[|events| - 1])
  }

  const EMPTY := Cluster(map[], map[], map[], map[], map[], [])

  // ----------------------------------------------------------------- job names

  /** The digest is a fixed number of hexadecimal digits. */
  ghost predicate TwelveDigits(lib: Library) {
    forall p, n :: |lib.digest(p, n)| == 12
  }

  const JOB_PREFIX := "storage-prepare-"

  lemma ShortJobName(name: string, digest: string)
    requires |name| <= 34 && |digest| == 12
    ensures JobName(name, digest) == JOB_PREFIX + (name + ("-" + digest))
  {
  }

  lemma JoinedInjective(a: string, d: string, b: string, e: string)
    requires |d| == |e| && JOB_PREFIX + (a + ("-" + d)) == JOB_PREFIX + (b + ("-" + e))
    ensures a == b && d == e
  {
    var x, y := a + ("-" + d), b + ("-" + e);
    assert (JOB_PREFIX + x)[|JOB_PREFIX|..] == x && (JOB_PREFIX + y)[|JOB_PREFIX|..] == y;
    assert x[..|a|] == a && y[..|b|] == b;
    assert x[|a| + 1..] == d && y[|b| + 1..] == e;
  }

  /** Within 34 characters, storage and digest determine the job name and are determined by
      it. */
  lemma JobNameInjective(a: string, d: string, b: string, e: string)
    requires |a| <= 34 && |b| <= 34 && |d| == 12 && |e| == 12 && JobName(a, d) == JobName(b, e)
    ensures a == b && d == e
  {
    ShortJobName(a, d);
    ShortJobName(b, e);
    JoinedInjective(a, d, b, e);
  }

  /** The bound is exact: for every longer name, clamping drops the end of the digest, and
      two different digests share a job name. */
  lemma JobNameAmbiguousBeyond(name: string)
    requires |name| > 34
    ensures exists d, e :: |d| == 12 && |e| == 12 && d != e && JobName(name, d) == JobName(name, e)
  {
    var d, e := "000000000000", "000000000001";
    var x, y := JOB_PREFIX + (name + ("-" + d)), JOB_PREFIX + (name + ("-" + e));
    assert x[..63] == y[..63] by {
      assert forall k :: 0 <= k < 63 ==> x[k] == y[k];
    }
    assert d[11] != e[11];
    assert JobName(name, d) == TrimRightDash(x[..63]) && JobName(name, e) == TrimRightDash(y[..63]);
  }

  /** The bound is needed for every storage in the cluster: next to a storage with a name of
      34 characters, the storage whose name spells out that one's job finds that very job. */
  lemma LongNameFindsOtherJob(name: string, digest: string, other: string)
    requires |name| == 34 && |digest| == 12 && digest[11] != '-'
    ensures JobName(name + ("-" + digest), other) == JobName(name, digest)
  {
    var job := JOB_PREFIX + (name + ("-" + digest));
    var long := JOB_PREFIX + ((name + ("-" + digest)) + ("-" + other));
    assert |job| == 63 && job[62] == digest[11];
    assert long[..63] == job;
  }

  // ------------------------------------------------------------------ invariant

  /** A storage that counts as prepared for some digest has no unfinished or failed job of
      that digest. */
  ghost predicate Truthful(cl: Cluster) {
    forall n :: n in cl.storages ==>
      && cl.storages[n].name == n && Canonical(n) == n && |n| <= 34
      && (cl.storages[n].status.prepare.phase.PrepareSucceeded? ==> JobSettled(cl.jobs, n, cl.storages[n].status.prepare.observedDigest))
  }

  predicate JobSettled(jobs: map<string, Job>, name: string, digest: string) {
    |digest| == 12 && (JobName(name, digest) in jobs ==> jobs[JobName(name, digest)].succeeded > 0)
  }

  /** What a pass over storage n can do to claims, jobs and statuses: it stops early, or
      follows the claim and prepare sub-steps; the prepare status is kept or is the one
      that the prepare sub-step reports. */
  ghost predicate PassShape(lib: Library, cl: Cluster, cl': Cluster, n: string, store: Store) {
    && n in cl.storages && n in cl'.storages
    && var st := cl.storages[n];
       var st' := cl'.storages[n];
       var (cl1, claim) := ReconcileClaim(lib, cl, st, store);
       && st' == st.(status := st'.status)
       && cl'.storages == cl.storages[n := st']
       && (|| (cl'.claims == cl.claims && cl'.jobs == cl.jobs && st'.status.prepare == st.status.prepare)
           || (claim.Failure? && cl'.claims == cl1.claims && cl'.jobs == cl.jobs && st'.status.prepare == st.status.prepare)
           || (claim.Success? && cl'.claims == cl1.claims
               && var (cl2, prepare) := ReconcilePrepare(lib, cl1, st, claim.value, store);
                  && cl'.jobs == cl2.jobs
                  && (|| st'.status.prepare == st.status.prepare
                      || (prepare.Success? && st'.status.prepare == PrepareStatus(prepare.value.phase, prepare.value.jobName,
                                                                                 prepare.value.digest, prepare.value.recovery)))))
  }

  /** What that means for jobs and for recorded success. */
  ghost predicate PassEffect(lib: Library, cl: Cluster, cl': Cluster, n: string) {
    && n in cl.storages && n in cl'.storages
    && var st := cl.storages[n];
       var job := JobName(n, DigestOf(lib, st));
       && cl'.storages == cl.storages[n := st.(status := cl'.storages[n].status)]
       && (cl'.jobs == cl.jobs
           || (job !in cl.jobs && !AlreadySucceeded(lib, st) && job in cl'.jobs && cl'.jobs == cl.jobs[job := cl'.jobs[job]]))
       && var prepare := cl'.storages[n].status.prepare;
          prepare.phase.PrepareSucceeded? ==>
            || prepare == st.status.prepare
            || (prepare.observedDigest == DigestOf(lib, st) && JobSettled(cl'.jobs, n, prepare.observedDigest))
  }

  lemma WriteEffect(cl: Cluster, st: Storage, next: Status, store: Store)
    requires st.name in cl.storages && cl.storages[st.name] == st
    ensures var cl' := WriteStatus(cl, st, next, store).0;
            && st.name in cl'.storages
            && cl'.storages == cl.storages[st.name := st.(status := cl'.storages[st.name].status)]
            && (cl'.storages[st.name].status.prepare == next.prepare || cl'.storages[st.name].status.prepare == st.status.prepare)
  {
    assert cl.storages == cl.storages[st.name := cl.storages[st.name]];
  }

  /** What the prepare sub-step reports and does. */
  lemma PrepareEffect(lib: Library, cl: Cluster, st: Storage, claim: Claim, store: Store)
    requires TwelveDigits(lib)
    requires AlreadySucceeded(lib, st) ==> JobSettled(cl.jobs, st.name, DigestOf(lib, st))
    ensures var (cl', r) := ReconcilePrepare(lib, cl, st, claim, store);
            var job := JobName(st.name, DigestOf(lib, st));
            && (cl'.jobs == cl.jobs
                || (job !in cl.jobs && !AlreadySucceeded(lib, st) && job in cl'.jobs && cl'.jobs == cl.jobs[job := cl'.jobs[job]]))
            && (r.Success? && r.value.phase.PrepareSucceeded? ==>
                  r.value.digest == DigestOf(lib, st) && JobSettled(cl'.jobs, st.name, r.value.digest))
  {
  }

  lemma StoppedShape(lib: Library, cl: Cluster, st: Storage, store: Store, next: Status)
    requires st.name in cl.storages && cl.storages[st.name] == st && next.prepare == st.status.prepare
    requires ReconcileClaim(lib, cl, st, store).1.Failure?
    ensures PassShape(lib, cl, WriteStatus(ReconcileClaim(lib, cl, st, store).0, st, next, store).0, st.name, store)
  {
    WriteEffect(ReconcileClaim(lib, cl, st, store).0, st, next, store);
  }

  lemma FollowedShape(lib: Library, cl: Cluster, st: Storage, store: Store, cl3: Cluster, next: Status)
    requires st.name in cl.storages && cl.storages[st.name] == st
    requires var (cl1, claim) := ReconcileClaim(lib, cl, st, store);
             && claim.Success?
             && var (cl2, prepare) := ReconcilePrepare(lib, cl1, st, claim.value, store);
                && cl3.storages == cl.storages && cl3.claims == cl1.claims && cl3.jobs == cl2.jobs
                && (|| next.prepare == st.status.prepare
                    || (prepare.Success? && next.prepare == PrepareStatus(prepare.value.phase, prepare.value.jobName,
                                                                         prepare.value.digest, prepare.value.recovery)))
    ensures PassShape(lib, cl, WriteStatus(cl3, st, next, store).0, st.name, store)
  {
    WriteEffect(cl3, st, next, store);
  }

  lemma AfterPrepareWrites(lib: Library, cl: Cluster, st: Storage, claim: Claim, claimChanged: bool,
                           prepare: StorageReconcile.Step<PrepareProgress>, now: nat, store: Store)
    returns (cl3: Cluster, next: Status)
    ensures AfterPrepare(cl, st, claim, claimChanged, prepare, now, store).0 == WriteStatus(cl3, st, next, store).0
    ensures cl3.storages == cl.storages && cl3.claims == cl.claims && cl3.jobs == cl.jobs
    ensures || next.prepare == st.status.prepare
            || (prepare.Success? && next.prepare == PrepareStatus(prepare.value.phase, prepare.value.jobName,
                                                                 prepare.value.digest, prepare.value.recovery))
    ensures next.claimName == st.name || next.claimName == FirstNonEmpty(st.name, st.name)
  {
    if prepare.Failure? {
      return cl, FailedStatus(st, REASON_INVALID_SPEC, prepare.message, now);
    }
    var (cl1, accessor) := ReconcileAccessor(cl, st, claim, prepare.value, store);
    cl3 := cl1;
    next := if accessor.Failure? then FailedStatus(st, REASON_ACCESSOR_FAILED, accessor.message, now)
            else BuildStatus(st, claim, prepare.value, accessor.value, now);
  }

  lemma PassHasShape(lib: Library, cl: Cluster, n: string, now: nat, store: Store)
    requires n in cl.storages && cl.storages[n].name == n
    ensures PassShape(lib, cl, Reconcile(lib, cl, n, now, store).0, n, store)
  {
    var st := cl.storages[n];
    if !store(GetStorage).Done? {
      assert cl.storages == cl.storages[n := st];
    } else {
      var (cl1, claim) := ReconcileClaim(lib, cl, st, store);
      AfterClaimShape(lib, cl, st, claim, cl1, now, store);
    }
  }

  lemma AfterClaimShape(lib: Library, cl: Cluster, st: Storage, claim: StorageReconcile.Step<Claim>, cl1: Cluster, now: nat, store: Store)
    requires st.name in cl.storages && cl.storages[st.name] == st && (cl1, claim) == ReconcileClaim(lib, cl, st, store)
    ensures PassShape(lib, cl, AfterClaim(lib, cl1, st, claim, now, store).0, st.name, store)
  {
    if claim.Failure? {
      StoppedShape(lib, cl, st, store, FailedStatus(st, REASON_PVC_SYNC_FAILED, claim.message, now));
    } else {
      var (cl2, prepare) := ReconcilePrepare(lib, cl1, st, claim.value, store);
      var cl3, next := AfterPrepareWrites(lib, cl2, st, claim.value, claim.changed, prepare, now, store);
      FollowedShape(lib, cl, st, store, cl3, next);
    }
  }

  lemma ShapeHasEffect(lib: Library, cl: Cluster, cl': Cluster, n: string, store: Store)
    requires TwelveDigits(lib) && Truthful(cl) && PassShape(lib, cl, cl', n, store)
    ensures PassEffect(lib, cl, cl', n)
  {
    var st := cl.storages[n];
    var (cl1, claim) := ReconcileClaim(lib, cl, st, store);
    if claim.Success? {
      PrepareEffect(lib, cl1, st, claim.value, store);
    }
  }

  lemma EffectKeepsTruthful(lib: Library, cl: Cluster, cl': Cluster, n: string)
    requires TwelveDigits(lib) && Truthful(cl) && n in cl.storages && PassEffect(lib, cl, cl', n)
    ensures Truthful(cl')
  {
    forall m | m in cl'.storages && cl'.storages[m].status.prepare.phase.PrepareSucceeded?
      ensures JobSettled(cl'.jobs, m, cl'.storages[m].status.prepare.observedDigest)
    {
      var digest := cl'.storages[m].status.prepare.observedDigest;
      if m != n || cl'.storages[m].status.prepare == cl.storages[n].status.prepare {
        assert JobSettled(cl.jobs, m, digest);
        SettledStays(lib, cl, cl', n, m, digest);
      }
    }
  }

  lemma SettledStays(lib: Library, cl: Cluster, cl': Cluster, n: string, m: string, digest: string)
    requires TwelveDigits(lib) && n in cl.storages && |n| <= 34 && |m| <= 34 && PassEffect(lib, cl, cl', n)
    requires JobSettled(cl.jobs, m, digest)
    requires m != n || (cl.storages[n].status.prepare.observedDigest == digest && cl.storages[n].status.prepare.phase.PrepareSucceeded?)
    ensures JobSettled(cl'.jobs, m, digest)
  {
    var st := cl.storages[n];
    if cl'.jobs != cl.jobs && JobName(m, digest) == JobName(n, DigestOf(lib, st)) {
      JobNameInjective(m, digest, n, DigestOf(lib, st));
      assert false;
    }
  }

  lemma PassKeepsTruthful(lib: Library, cl: Cluster, n: string, now: nat, store: Store, cl': Cluster)
    requires TwelveDigits(lib) && Truthful(cl) && n in cl.storages && cl' == Reconcile(lib, cl, n, now, store).0
    ensures Truthful(cl')
  {
    PassHasShape(lib, cl, n, now, store);
    ShapeHasEffect(lib, cl, cl', n, store);
    EffectKeepsTruthful(lib, cl, cl', n);
  }

  /** No job appears by itself, and a success stays one. */
  lemma ChangeOfJobs(cl: Cluster, change: Change, j: string)
    requires j in Changed(cl, change).jobs
    ensures j in cl.jobs && (cl.jobs[j].succeeded > 0 ==> Changed(cl, change).jobs[j].succeeded > 0)
  {
  }

  /** A storage's record of its preparation is written by the controller alone. */
  lemma ChangeOfStorages(cl: Cluster, change: Change, n: string)
    requires n in Changed(cl, change).storages
    ensures var st := Changed(cl, change).storages[n];
            || (n in cl.storages && st.name == cl.storages[n].name && st.status == cl.storages[n].status)
            || (n !in cl.storages && Canonical(n) == n && |n| <= 34 && st.name == n && st.status == NO_STATUS)
  {
    if !change.CreateStorage? && !change.EditStorage? && !change.RemoveStorage? {
      OnlyStorageChanges(cl, change);
    }
  }

  lemma OnlyStorageChanges(cl: Cluster, change: Change)
    requires !change.CreateStorage? && !change.EditStorage? && !change.RemoveStorage?
    ensures Changed(cl, change).storages == cl.storages
  {
  }

  lemma ChangeKeepsTruthful(cl: Cluster, change: Change, cl': Cluster)
    requires Truthful(cl) && cl' == Changed(cl, change)
    ensures Truthful(cl')
  {
    forall n | n in cl'.storages
      ensures cl'.storages[n].name == n && Canonical(n) == n && |n| <= 34
      ensures cl'.storages[n].status.prepare.phase.PrepareSucceeded?
              ==> JobSettled(cl'.jobs, n, cl'.storages[n].status.prepare.observedDigest)
    {
      ChangeOfStorages(cl, change, n);
      var digest := cl'.storages[n].status.prepare.observedDigest;
      if cl'.storages[n].status.prepare.phase.PrepareSucceeded? && JobName(n, digest) in cl'.jobs {
        ChangeOfJobs(cl, change, JobName(n, digest));
      }
    }
  }

  lemma PassOfNothing(lib: Library, cl: Cluster, e: Event)
    requires e.Pass? && e.name !in cl.storages
    ensures Apply(lib, cl, e) == cl
  {
  }

  lemma EventKeepsTruthful(lib: Library, cl: Cluster, e: Event, cl': Cluster)
    requires TwelveDigits(lib) && Truthful(cl) && cl' == Apply(lib, cl, e)
    ensures Truthful(cl')
  {
    if e.Happens? {
      ChangeKeepsTruthful(cl, e.change, cl');
    } else if e.name in cl.storages {
      PassKeepsTruthful(lib, cl, e.name, e.now, e.store, cl');
    } else {
      PassOfNothing(lib, cl, e);
    }
  }

  lemma {:induction false} RunKeepsTruthful(lib: Library, cl: Cluster, events: seq<Event>)
    requires TwelveDigits(lib) && Truthful(cl)
    ensures Truthful(Run(lib, cl, events))
  {
    if events != [] {
      RunKeepsTruthful(lib, cl, events[..|events| - 1]);
      EventKeepsTruthful(lib, Run(lib, cl, events[..|events| - 1]), events[|events| - 1], Run(lib, cl, events));
    }
  }

  // -------------------------------------------------------------- main result

  /** Bound, and recorded as prepared for the current digest. */
  predicate Prepared(lib: Library, cl: Cluster, n: string) {
    && n in cl.storages && n in cl.claims && cl.claims[n].bound
    && AlreadySucceeded(lib, cl.storages[n])
    && PrepareError(n, cl.storages[n].spec.prepare).None?
    && !IsZeroPrepare(cl.storages[n].spec.prepare)
  }

  /** The storage it is copied from, if it is, exists and is ready. */
  predicate SourceReady(cl: Cluster, st: Storage) {
    var source := st.spec.prepare.fromStorageName;
    source == "" || (source in cl.storages && cl.storages[source].status.phase.PhaseReady?)
  }

  /** The pass gets as far as its snapshot. */
  predicate ReachesSnapshot(lib: Library, cl: Cluster, n: string, store: Store)
    requires n in cl.storages
  {
    var st := cl.storages[n];
    var (cl1, claim) := ReconcileClaim(lib, cl, st, store);
    && store(GetStorage).Done? && claim.Success?
    && var (cl2, prepare) := ReconcilePrepare(lib, cl1, st, claim.value, store);
       prepare.Success? && ReconcileAccessor(cl2, st, claim.value, prepare.value, store).1.Success?
  }

  /** A pass over the storage that finds its source missing or not ready, and records what it
      found. */
  predicate FallsBack(lib: Library, cl: Cluster, e: Event, n: string) {
    && e.Pass? && e.name == n && n in cl.storages
    && !SourceReady(cl, cl.storages[n])
    && ReachesSnapshot(lib, cl, n, e.store) && !e.store(UpdateStatus).Refused?
  }

  /** No step of the run does that. */
  predicate NoFallback(lib: Library, cl: Cluster, events: seq<Event>, n: string) {
    events == []
    || (NoFallback(lib, cl, events[..|events| - 1], n)
        && !FallsBack(lib, Run(lib, cl, events[..|events| - 1]), events[|events| - 1], n))
  }

  /** Everything but taking the storage or its bound claim away, or asking for another
      preparation. */
  predicate LeavesPreparation(cl: Cluster, change: Change, n: string) {
    match change
    case LoseClaim(name) => name != n
    case RemoveClaim(name) => name != n
    case RemoveStorage(name) => name != n
    case EditStorage(name, spec, nonce) =>
      name == n && n in cl.storages ==> spec.prepare == cl.storages[n].spec.prepare && nonce == cl.storages[n].recoveryNonce
    case _ => true
  }

  ghost predicate AllLeavePreparation(lib: Library, cl: Cluster, events: seq<Event>, n: string) {
    forall k :: 0 <= k < |events| && events[k].Happens? ==> LeavesPreparation(Run(lib, cl, events[..k]), events[k].change, n)
  }

  lemma ClaimStaysBound(lib: Library, cl: Cluster, st: Storage, store: Store)
    requires st.name in cl.claims && cl.claims[st.name].bound
    ensures var (cl', r) := ReconcileClaim(lib, cl, st, store);
            && st.name in cl'.claims && cl'.claims[st.name].bound
            && (r.Success? ==> r.value.bound)
  {
  }

  lemma OtherClaimStays(lib: Library, cl: Cluster, st: Storage, store: Store, n: string)
    requires n != st.name && n in cl.claims
    ensures var cl' := ReconcileClaim(lib, cl, st, store).0;
            n in cl'.claims && cl'.claims[n] == cl.claims[n]
  {
  }

  /** The prepare sub-step of a storage recorded as prepared, its job gone or succeeded: it
      creates nothing, and if the store answers it reports success exactly if the source is
      ready, and pending otherwise. */
  lemma SucceededReportedExactly(lib: Library, cl: Cluster, st: Storage, claim: Claim, store: Store)
    requires claim.bound && AlreadySucceeded(lib, st)
    requires !IsZeroPrepare(st.spec.prepare) && PrepareError(st.name, st.spec.prepare).None?
    requires JobName(st.name, DigestOf(lib, st)) in cl.jobs ==> cl.jobs[JobName(st.name, DigestOf(lib, st))].succeeded > 0
    ensures var (cl', r) := ReconcilePrepare(lib, cl, st, claim, store);
            && cl'.jobs == cl.jobs && cl'.journal == cl.journal
            && (store(GetSource).Done? && store(GetJob).Done? ==> r.Success?)
            && (r.Success? ==>
                  && r.value.digest == DigestOf(lib, st)
                  && (r.value.phase.PrepareSucceeded? <==> SourceReady(cl, st))
                  && (r.value.phase.PreparePending? <==> !SourceReady(cl, st)))
  {
  }

  /** One pass, over this or any other storage: a prepared storage stays prepared and no
      job is created under its job name. */
  ghost predicate KeepsPrepared(lib: Library, cl: Cluster, cl': Cluster, n: string) {
    && Prepared(lib, cl, n) && Prepared(lib, cl', n)
    && cl'.storages[n].spec.prepare == cl.storages[n].spec.prepare
    && cl'.storages[n].recoveryNonce == cl.storages[n].recoveryNonce
    && (JobName(n, DigestOf(lib, cl.storages[n])) in cl'.jobs ==> JobName(n, DigestOf(lib, cl.storages[n])) in cl.jobs)
  }

  lemma OtherPassKeepsPrepared(lib: Library, cl: Cluster, cl': Cluster, n: string, m: string, store: Store)
    requires TwelveDigits(lib) && Truthful(cl) && Prepared(lib, cl, n) && m != n && PassShape(lib, cl, cl', m, store)
    ensures KeepsPrepared(lib, cl, cl', n)
  {
    ShapeHasEffect(lib, cl, cl', m, store);
    OtherClaims(lib, cl, cl', n, m, store);
    OtherEffectKeepsPrepared(lib, cl, cl', n, m);
  }

  lemma OtherClaims(lib: Library, cl: Cluster, cl': Cluster, n: string, m: string, store: Store)
    requires PassShape(lib, cl, cl', m, store) && cl.storages[m].name == m && m != n && n in cl.claims
    ensures n in cl'.claims && cl'.claims[n] == cl.claims[n]
  {
    OtherClaimStays(lib, cl, cl.storages[m], store, n);
  }

  lemma OtherEffectKeepsPrepared(lib: Library, cl: Cluster, cl': Cluster, n: string, m: string)
    requires TwelveDigits(lib) && Truthful(cl) && Prepared(lib, cl, n) && m != n && PassEffect(lib, cl, cl', m)
    requires n in cl'.claims && cl'.claims[n] == cl.claims[n]
    ensures KeepsPrepared(lib, cl, cl', n)
  {
    OtherJob(lib, cl.storages[n], cl.storages[m]);
  }

  lemma OtherJob(lib: Library, a: Storage, b: Storage)
    requires TwelveDigits(lib) && |a.name| <= 34 && |b.name| <= 34 && a.name != b.name
    ensures JobName(a.name, DigestOf(lib, a)) != JobName(b.name, DigestOf(lib, b))
  {
    if JobName(a.name, DigestOf(lib, a)) == JobName(b.name, DigestOf(lib, b)) {
      JobNameInjective(a.name, DigestOf(lib, a), b.name, DigestOf(lib, b));
    }
  }

  lemma OwnPassKeepsPrepared(lib: Library, cl: Cluster, cl': Cluster, n: string, store: Store)
    requires TwelveDigits(lib) && Truthful(cl) && Prepared(lib, cl, n) && PassShape(lib, cl, cl', n, store)
    requires SourceReady(cl, cl.storages[n]) || cl'.storages[n].status.prepare == cl.storages[n].status.prepare
    ensures KeepsPrepared(lib, cl, cl', n)
  {
    var st := cl.storages[n];
    ClaimStaysBound(lib, cl, st, store);
    var (cl1, claim) := ReconcileClaim(lib, cl, st, store);
    if claim.Success? {
      SucceededReportedExactly(lib, cl1, st, claim.value, store);
    }
  }

  /** A pass that is stopped before its snapshot, or whose status write is refused, leaves the
      record of the preparation as it was. */
  lemma StoppedPassKeepsRecord(lib: Library, cl: Cluster, n: string, now: nat, store: Store)
    requires n in cl.storages && cl.storages[n].name == n
    requires !ReachesSnapshot(lib, cl, n, store) || store(UpdateStatus).Refused?
    ensures var cl' := Reconcile(lib, cl, n, now, store).0;
            n in cl'.storages && cl'.storages[n].status.prepare == cl.storages[n].status.prepare
  {
    var st := cl.storages[n];
    if store(GetStorage).Done? {
      var (cl1, claim) := ReconcileClaim(lib, cl, st, store);
      if claim.Failure? {
        WriteEffect(cl1, st, FailedStatus(st, REASON_PVC_SYNC_FAILED, claim.message, now), store);
      } else {
        var (cl2, prepare) := ReconcilePrepare(lib, cl1, st, claim.value, store);
        StoppedAfterPrepare(cl2, st, claim.value, claim.changed, prepare, now, store);
      }
    }
  }

  lemma StoppedAfterPrepare(cl: Cluster, st: Storage, claim: Claim, claimChanged: bool,
                            prepare: StorageReconcile.Step<PrepareProgress>, now: nat, store: Store)
    requires st.name in cl.storages && cl.storages[st.name] == st
    requires prepare.Success? && !store(UpdateStatus).Refused? ==> ReconcileAccessor(cl, st, claim, prepare.value, store).1.Failure?
    ensures var cl' := AfterPrepare(cl, st, claim, claimChanged, prepare, now, store).0;
            st.name in cl'.storages && cl'.storages[st.name].status.prepare == st.status.prepare
  {
    if prepare.Failure? {
      WriteEffect(cl, st, FailedStatus(st, REASON_INVALID_SPEC, prepare.message, now), store);
    } else {
      var (cl1, accessor) := ReconcileAccessor(cl, st, claim, prepare.value, store);
      if accessor.Failure? {
        WriteEffect(cl1, st, FailedStatus(st, REASON_ACCESSOR_FAILED, accessor.message, now), store);
      } else {
        RefusedWrite(cl1, st, BuildStatus(st, claim, prepare.value, accessor.value, now), store);
      }
    }
  }

  lemma RefusedWrite(cl: Cluster, st: Storage, next: Status, store: Store)
    requires store(UpdateStatus).Refused?
    ensures WriteStatus(cl, st, next, store).0 == cl
  {
  }

  /** The snapshot of a pass that reaches it. */
  lemma SnapshotWritten(lib: Library, cl: Cluster, n: string, now: nat, store: Store) returns (cl3: Cluster, next: Status)
    requires n in cl.storages && ReachesSnapshot(lib, cl, n, store)
    ensures var st := cl.storages[n];
            var (cl1, claim) := ReconcileClaim(lib, cl, st, store);
            && claim.Success?
            && var (cl2, prepare) := ReconcilePrepare(lib, cl1, st, claim.value, store);
               && prepare.Success?
               && cl3.storages == cl.storages && cl3.claims == cl1.claims && cl3.jobs == cl2.jobs
               && next.prepare == PrepareStatus(prepare.value.phase, prepare.value.jobName, prepare.value.digest, prepare.value.recovery)
               && Reconcile(lib, cl, n, now, store).0 == WriteStatus(cl3, st, next, store).0
  {
    var st := cl.storages[n];
    var (cl1, claim) := ReconcileClaim(lib, cl, st, store);
    var (cl2, prepare) := ReconcilePrepare(lib, cl1, st, claim.value, store);
    var (cl', accessor) := ReconcileAccessor(cl2, st, claim.value, prepare.value, store);
    cl3, next := cl', BuildStatus(st, claim.value, prepare.value, accessor.value, now);
  }

  /** The prepare sub-step of a prepared storage without its source reports no success. */
  lemma NothingReported(lib: Library, cl: Cluster, n: string, store: Store)
    requires Truthful(cl) && Prepared(lib, cl, n) && !SourceReady(cl, cl.storages[n])
    ensures var st := cl.storages[n];
            var (cl1, claim) := ReconcileClaim(lib, cl, st, store);
            claim.Success? ==>
              var prepare := ReconcilePrepare(lib, cl1, st, claim.value, store).1;
              prepare.Success? ==> !prepare.value.phase.PrepareSucceeded?
  {
    var st := cl.storages[n];
    ClaimStaysBound(lib, cl, st, store);
    var (cl1, claim) := ReconcileClaim(lib, cl, st, store);
    if claim.Success? {
      SucceededReportedExactly(lib, cl1, st, claim.value, store);
    }
  }

  /** A pass that falls back takes the record away. */
  lemma FallbackLosesRecord(lib: Library, cl: Cluster, n: string, now: nat, store: Store)
    requires Truthful(cl) && Prepared(lib, cl, n) && FallsBack(lib, cl, Pass(n, now, store), n)
    ensures !Prepared(lib, Reconcile(lib, cl, n, now, store).0, n)
  {
    NothingReported(lib, cl, n, store);
    var cl3, next := SnapshotWritten(lib, cl, n, now, store);
    WrittenRecord(cl3, cl.storages[n], next, store);
  }

  lemma WrittenRecord(cl: Cluster, st: Storage, next: Status, store: Store)
    requires !store(UpdateStatus).Refused? && next.prepare != st.status.prepare
    ensures var cl' := WriteStatus(cl, st, next, store).0;
            st.name in cl'.storages && cl'.storages[st.name].status.prepare == next.prepare
  {
    assert Normalize(st.status).prepare == st.status.prepare && Normalize(next).prepare == next.prepare;
  }

  lemma ChangeKeepsPrepared(lib: Library, cl: Cluster, change: Change, n: string)
    requires Prepared(lib, cl, n) && LeavesPreparation(cl, change, n)
    ensures KeepsPrepared(lib, cl, Changed(cl, change), n)
  {
    if JobName(n, DigestOf(lib, cl.storages[n])) in Changed(cl, change).jobs {
      ChangeOfJobs(cl, change, JobName(n, DigestOf(lib, cl.storages[n])));
    }
    ClaimStaysBoundUnder(cl, change, n);
    match change {
      case CreateStorage(_, _) =>
      case EditStorage(_, _, _) =>
      case RemoveStorage(_) =>
      case _ => OnlyStorageChanges(cl, change);
    }
  }

  lemma ClaimStaysBoundUnder(cl: Cluster, change: Change, n: string)
    requires n in cl.claims && cl.claims[n].bound && LeavesPreparation(cl, change, n)
    ensures n in Changed(cl, change).claims && Changed(cl, change).claims[n].bound
  {
  }

  lemma PassKeepsPrepared(lib: Library, cl: Cluster, n: string, m: string, now: nat, store: Store, cl': Cluster)
    requires TwelveDigits(lib) && Truthful(cl) && Prepared(lib, cl, n) && m in cl.storages
    requires cl' == Reconcile(lib, cl, m, now, store).0 && !FallsBack(lib, cl, Pass(m, now, store), n)
    ensures KeepsPrepared(lib, cl, cl', n)
  {
    PassHasShape(lib, cl, m, now, store);
    if m == n {
      if !SourceReady(cl, cl.storages[n]) {
        StoppedPassKeepsRecord(lib, cl, n, now, store);
      }
      OwnPassKeepsPrepared(lib, cl, cl', n, store);
    } else {
      OtherPassKeepsPrepared(lib, cl, cl', n, m, store);
    }
  }

  lemma EventKeepsPrepared(lib: Library, cl: Cluster, e: Event, n: string, cl': Cluster)
    requires TwelveDigits(lib) && Truthful(cl) && Prepared(lib, cl, n) && cl' == Apply(lib, cl, e)
    requires (e.Happens? ==> LeavesPreparation(cl, e.change, n)) && !FallsBack(lib, cl, e, n)
    ensures KeepsPrepared(lib, cl, cl', n)
  {
    if e.Happens? {
      ChangeKeepsPrepared(lib, cl, e.change, n);
    } else if e.name in cl.storages {
      PassKeepsPrepared(lib, cl, n, e.name, e.now, e.store, cl');
    } else {
      PassOfNothing(lib, cl, e);
    }
  }

  lemma KeepsPreparedTransitive(lib: Library, a: Cluster, b: Cluster, c: Cluster, n: string)
    requires KeepsPrepared(lib, a, b, n) && KeepsPrepared(lib, b, c, n)
    ensures KeepsPrepared(lib, a, c, n)
  {
  }

  lemma {:induction false} RunKeepsPrepared(lib: Library, cl: Cluster, events: seq<Event>, n: string)
    requires TwelveDigits(lib) && Truthful(cl) && Prepared(lib, cl, n)
    requires AllLeavePreparation(lib, cl, events, n) && NoFallback(lib, cl, events, n)
    ensures KeepsPrepared(lib, cl, Run(lib, cl, events), n)
  {
    if events != [] {
      var before, e := events[..|events| - 1], events[|events| - 1];
      PrefixLeavesPreparation(lib, cl, events, n);
      RunKeepsPrepared(lib, cl, before, n);
      RunKeepsTruthful(lib, cl, before);
      EventKeepsPrepared(lib, Run(lib, cl, before), e, n, Run(lib, cl, events));
      KeepsPreparedTransitive(lib, cl, Run(lib, cl, before), Run(lib, cl, events), n);
    }
  }

  lemma PrefixLeavesPreparation(lib: Library, cl: Cluster, events: seq<Event>, n: string)
    requires events != [] && AllLeavePreparation(lib, cl, events, n)
    ensures AllLeavePreparation(lib, cl, events[..|events| - 1], n)
  {
    var before := events[..|events| - 1];
    forall k | 0 <= k < |before| && before[k].Happens?
      ensures LeavesPreparation(Run(lib, cl, before[..k]), before[k].change, n)
    {
      assert before[..k] == events[..k];
    }
  }

  /** When a healthy pass does create a prepare job: never for a digest already recorded as
      succeeded, always otherwise once the claim is bound and the source ready. */
  lemma JobCreatedExactly(lib: Library, cl: Cluster, st: Storage, claim: Claim)
    ensures var cl' := ReconcilePrepare(lib, cl, st, claim, Healthy).0;
            cl'.jobs != cl.jobs <==>
              && PrepareError(st.name, st.spec.prepare).None?
              && !IsZeroPrepare(st.spec.prepare)
              && claim.bound
              && ResolveSource(cl, st, Healthy).SourceClaim?
              && JobName(st.name, DigestOf(lib, st)) !in cl.jobs
              && !AlreadySucceeded(lib, st)
  {
  }
}
