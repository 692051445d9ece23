/** A storage copied from another one, whose source stops being ready for a while after the copy
    succeeded (internal/controller/gpustorage_controller.go): it is copied again.  The run is
    followed through what matters of each cluster in it. */
module StorageCopies {
  import opened Text
  import opened Names
  import opened StorageModel
  import opened StorageReconcile
  import opened StorageTheorems
  import opened StorageRuns
  import opened StorageJobs

  // --------------------------------------------------------- passes without faults

  lemma HealthyClaim(lib: Library, cl: Cluster, st: Storage)
    requires lib.quantity(st.spec.size).Some?
    ensures var (cl1, r) := ReconcileClaim(lib, cl, st, Healthy);
            && r.Success? && cl1.claims == cl.claims[st.name := r.value]
            && (r.value.bound <==> st.name in cl.claims && cl.claims[st.name].bound)
  {
  }

  lemma HealthyPrepare(lib: Library, cl: Cluster, st: Storage, claim: Claim)
    requires PrepareError(st.name, st.spec.prepare).None?
    ensures ReconcilePrepare(lib, cl, st, claim, Healthy).1.Success?
  {
  }

  lemma HealthyAccessor(cl: Cluster, st: Storage, claim: Claim, prepare: PrepareProgress)
    requires !st.spec.accessorEnabled
    ensures ReconcileAccessor(cl, st, claim, prepare, Healthy).1.Success?
  {
  }

  lemma HealthyWrite(cl: Cluster, st: Storage, next: Status)
    requires st.name in cl.storages && cl.storages[st.name] == st
    ensures var (cl', ok) := WriteStatus(cl, st, next, Healthy);
            && ok && st.name in cl'.storages && cl'.storages[st.name].status.prepare == next.prepare
  {
    assert Normalize(st.status).prepare == st.status.prepare && Normalize(next).prepare == next.prepare;
  }

  /** Nothing is in the way of a pass over the storage. */
  predicate Plain(lib: Library, st: Storage) {
    lib.quantity(st.spec.size).Some? && PrepareError(st.name, st.spec.prepare).None? && !st.spec.accessorEnabled
  }

  lemma HealthyPassCompletes(lib: Library, cl: Cluster, n: string, now: nat)
    requires n in cl.storages && cl.storages[n].name == n && Plain(lib, cl.storages[n])
    ensures ReachesSnapshot(lib, cl, n, Healthy) && Passed(lib, cl, n, now, Healthy)
  {
    var st := cl.storages[n];
    HealthyClaim(lib, cl, st);
    var (cl1, claim) := ReconcileClaim(lib, cl, st, Healthy);
    HealthyPrepare(lib, cl1, st, claim.value);
    var (cl2, prepare) := ReconcilePrepare(lib, cl1, st, claim.value, Healthy);
    HealthyAccessor(cl2, st, claim.value, prepare.value);
    var (cl3, accessor) := ReconcileAccessor(cl2, st, claim.value, prepare.value, Healthy);
    HealthyWrite(cl3, st, BuildStatus(st, claim.value, prepare.value, accessor.value, now));
  }

  /** What a pass without faults over such a storage does. */
  lemma HealthyPass(lib: Library, cl: Cluster, n: string, now: nat)
    requires WellKeyed(cl) && n in cl.storages && Plain(lib, cl.storages[n])
    ensures var st := cl.storages[n];
            var (cl1, claim) := ReconcileClaim(lib, cl, st, Healthy);
            && claim.Success?
            && var (cl2, prepare) := ReconcilePrepare(lib, cl1, st, claim.value, Healthy);
               var cl' := Reconcile(lib, cl, n, now, Healthy).0;
               && prepare.Success?
               && n in cl'.storages && cl'.storages == cl.storages[n := st.(status := cl'.storages[n].status)]
               && cl'.claims == cl.claims[n := claim.value] && cl'.jobs == cl2.jobs
               && (claim.value.bound <==> n in cl.claims && cl.claims[n].bound)
               && cl'.storages[n].status.prepare == PrepareStatus(prepare.value.phase, prepare.value.jobName,
                                                                  prepare.value.digest, prepare.value.recovery)
  {
    var st := cl.storages[n];
    HealthyClaim(lib, cl, st);
    HealthyPassCompletes(lib, cl, n, now);
    var cl3, next := SnapshotWritten(lib, cl, n, now, Healthy);
    HealthyWrite(cl3, st, next);
    WriteEffect(cl3, st, next, Healthy);
  }

  lemma HealthyPassReady(lib: Library, cl: Cluster, n: string, now: nat)
    requires WellKeyed(cl) && n in cl.storages && Plain(lib, cl.storages[n])
    ensures var cl' := Reconcile(lib, cl, n, now, Healthy).0;
            && n in cl'.storages && n in cl'.claims
            && (cl'.storages[n].status.phase.PhaseReady? <==> cl'.claims[n].bound && PrepareDone(cl'.storages[n].status.prepare.phase))
  {
    HealthyPassCompletes(lib, cl, n, now);
    ReadyExactly(lib, cl, n, now, Healthy);
    HealthyPass(lib, cl, n, now);
  }

  // -------------------------------------------------------- counting creations

  /** How often the journal records the creation of the job. */
  function Creations(journal: seq<(Op, string)>, job: string): nat {
    if journal == [] then 0
    else Creations(journal[..|journal| - 1], job) + if journal[|journal| - 1] == (CreateJob, job) then 1 else 0
  }

  lemma {:induction false} SameCreations(cl: Cluster, cl': Cluster, job: string)
    requires NotCreated(cl, cl', job)
    ensures Creations(cl'.journal, job) == Creations(cl.journal, job)
    decreases |cl'.journal|
  {
    if |cl'.journal| == |cl.journal| {
      assert cl'.journal == cl.journal;
    } else {
      var shorter := cl'.(journal := cl'.journal[..|cl'.journal| - 1]);
      assert shorter.journal[..|cl.journal|] == cl'.journal[..|cl.journal|];
      SameCreations(cl, shorter, job);
    }
  }

  lemma OneCreation(cl: Cluster, name: string, job: Job)
    ensures Creations(PutJob(cl, name, job, Healthy).journal, name) == Creations(cl.journal, name) + 1
  {
    var journal := cl.journal + [(CreateJob, name)];
    assert journal[..|journal| - 1] == cl.journal;
  }

  /** A pass that creates the job creates it once. */
  lemma PassCreatesOnce(lib: Library, cl: Cluster, n: string, now: nat)
    requires WellKeyed(cl) && n in cl.storages && Plain(lib, cl.storages[n])
    requires var st := cl.storages[n];
             var (cl1, claim) := ReconcileClaim(lib, cl, st, Healthy);
             claim.Success? && ReconcilePrepare(lib, cl1, st, claim.value, Healthy).0.jobs != cl1.jobs
    ensures var job := JobName(n, DigestOf(lib, cl.storages[n]));
            Creations(Reconcile(lib, cl, n, now, Healthy).0.journal, job) == Creations(cl.journal, job) + 1
  {
    var st := cl.storages[n];
    var job := JobName(n, DigestOf(lib, st));
    var (cl1, claim) := ReconcileClaim(lib, cl, st, Healthy);
    ClaimCreatesNoJob(lib, cl, st, Healthy, job);
    SameCreations(cl, cl1, job);
    var (cl2, prepare) := ReconcilePrepare(lib, cl1, st, claim.value, Healthy);
    PrepareCreatesOnce(lib, cl1, st, claim.value);
    AfterPrepareCreatesNoJob(cl2, st, claim.value, claim.changed, prepare, now, Healthy, job);
    SameCreations(cl2, AfterPrepare(cl2, st, claim.value, claim.changed, prepare, now, Healthy).0, job);
  }

  lemma PrepareCreatesOnce(lib: Library, cl: Cluster, st: Storage, claim: Claim)
    requires ReconcilePrepare(lib, cl, st, claim, Healthy).0.jobs != cl.jobs
    ensures var job := JobName(st.name, DigestOf(lib, st));
            Creations(ReconcilePrepare(lib, cl, st, claim, Healthy).0.journal, job) == Creations(cl.journal, job) + 1
  {
    var job := JobName(st.name, DigestOf(lib, st));
    var source := ResolveSource(cl, st, Healthy);
    assert source.SourceClaim?;
    OneCreation(cl, job, DesiredJob(st, FirstNonEmpty(st.name, st.name), source.claim));
  }

  // ---------------------------------------------------- a source and its copy

  /** The names of both, their size, and the name of the copy's job. */
  datatype Pair = Pair(source: string, copy: string, size: string, job: string)

  predicate PairOk(lib: Library, p: Pair) {
    && p.source != "" && Canonical(p.source) == p.source && IsDNS1123Subdomain(p.source) && |p.source| <= 34
    && Canonical(p.copy) == p.copy && |p.copy| <= 34 && p.copy != p.source
    && lib.quantity(p.size).Some?
    && p.job == JobName(p.copy, CopyDigest(lib, p))
  }

  function SourceSpec(p: Pair): StorageSpec {
    StorageSpec(p.size, "", PrepareSpec("", "", [], []), false)
  }

  function CopySpec(p: Pair): StorageSpec {
    StorageSpec(p.size, "", PrepareSpec("", p.source, [], []), false)
  }

  function CopyDigest(lib: Library, p: Pair): string {
    lib.digest(CopySpec(p).prepare, "")
  }

  lemma SourceIsPlain(lib: Library, p: Pair, st: Storage)
    requires PairOk(lib, p) && st.name == p.source && st.spec == SourceSpec(p)
    ensures Plain(lib, st) && IsZeroPrepare(st.spec.prepare)
  {
  }

  lemma CopyIsPlain(lib: Library, p: Pair, st: Storage)
    requires PairOk(lib, p) && st.name == p.copy && st.spec == CopySpec(p)
    ensures Plain(lib, st) && !IsZeroPrepare(st.spec.prepare)
  {
  }

  /** What matters of a cluster: the two claims, if they are there, and whether they are bound;
      whether the source is ready and the copy recorded as prepared; the job, if it is there,
      and whether it has succeeded; and how often it was created. */
  datatype View = View(sourceClaim: Option<bool>, ready: bool, copyClaim: Option<bool>, recorded: bool,
                       job: Option<bool>, creations: nat)

  function ClaimView(claims: map<string, Claim>, n: string): Option<bool> {
    if n in claims then Some(claims[n].bound) else None
  }

  /** None of the jobs in view has failed. */
  predicate JobShows(jobs: map<string, Job>, j: string, job: Option<bool>) {
    if j in jobs then job == Some(jobs[j].succeeded > 0) && jobs[j].failed == 0 else job == None
  }

  predicate SourceShows(storages: map<string, Storage>, p: Pair, ready: bool) {
    && p.source in storages && storages[p.source].name == p.source && storages[p.source].spec == SourceSpec(p)
    && (storages[p.source].status.phase.PhaseReady? <==> ready)
  }

  predicate CopyShows(lib: Library, storages: map<string, Storage>, p: Pair, recorded: bool) {
    && p.copy in storages && storages[p.copy].name == p.copy && storages[p.copy].spec == CopySpec(p)
    && storages[p.copy].recoveryNonce == ""
    && var status := storages[p.copy].status.prepare;
       (status.phase.PrepareSucceeded? && status.observedDigest == CopyDigest(lib, p) <==> recorded)
  }

  predicate Shows(lib: Library, p: Pair, cl: Cluster, v: View) {
    && SourceShows(cl.storages, p, v.ready) && CopyShows(lib, cl.storages, p, v.recorded)
    && ClaimView(cl.claims, p.source) == v.sourceClaim && ClaimView(cl.claims, p.copy) == v.copyClaim
    && JobShows(cl.jobs, p.job, v.job)
    && Creations(cl.journal, p.job) == v.creations
  }

  datatype Move = PassSource | PassCopy | BindSource | LoseSource | BindCopy | CompleteJob | RemoveJob

  function EventOf(p: Pair, m: Move): Event {
    match m
    case PassSource => Pass(p.source, 0, Healthy)
    case PassCopy => Pass(p.copy, 0, Healthy)
    case BindSource => Happens(BindClaim(p.source, p.size))
    case LoseSource => Happens(LoseClaim(p.source))
    case BindCopy => Happens(BindClaim(p.copy, p.size))
    case CompleteJob => Happens(SucceedJob(p.job))
    case RemoveJob => Happens(ExpireJob(p.job))
  }

  function Next(v: View, m: Move): View {
    match m
    case PassSource =>
      var bound := v.sourceClaim == Some(true);
      v.(sourceClaim := Some(bound), ready := bound)
    case PassCopy =>
      if v.copyClaim != Some(true) then v.(copyClaim := Some(false), recorded := false)
      else if !v.ready then v.(recorded := false)
      else if v.job.Some? then v.(recorded := v.job.value)
      else if v.recorded then v
      else v.(job := Some(false), creations := v.creations + 1)
    case BindSource => if v.sourceClaim.Some? then v.(sourceClaim := Some(true)) else v
    case LoseSource => if v.sourceClaim.Some? then v.(sourceClaim := Some(false)) else v
    case BindCopy => if v.copyClaim.Some? then v.(copyClaim := Some(true)) else v
    case CompleteJob => if v.job == Some(false) then v.(job := Some(true)) else v
    case RemoveJob => if v.job == Some(true) then v.(job := None) else v
  }

  lemma ClaimChangeShown(lib: Library, p: Pair, cl: Cluster, v: View, m: Move)
    requires Shows(lib, p, cl, v) && p.copy != p.source && (m.BindSource? || m.LoseSource? || m.BindCopy?)
    ensures Shows(lib, p, Changed(cl, EventOf(p, m).change), Next(v, m))
  {
  }

  lemma JobChangeShown(lib: Library, p: Pair, cl: Cluster, v: View, m: Move)
    requires Shows(lib, p, cl, v) && (m.CompleteJob? || m.RemoveJob?)
    ensures Shows(lib, p, Changed(cl, EventOf(p, m).change), Next(v, m))
  {
  }

  /** Only storage n, its claim and perhaps jobs differ. */
  ghost predicate OnlyPassed(cl: Cluster, cl': Cluster, n: string, bound: bool) {
    && n in cl.storages && n in cl'.storages && n in cl'.claims
    && cl'.storages == cl.storages[n := cl.storages[n].(status := cl'.storages[n].status)]
    && cl'.claims == cl.claims[n := cl'.claims[n]] && cl'.claims[n].bound == bound
  }

  lemma SourcePassed(lib: Library, p: Pair, cl: Cluster, cl': Cluster, v: View)
    requires Shows(lib, p, cl, v) && p.copy != p.source
    requires var bound := v.sourceClaim == Some(true);
             && OnlyPassed(cl, cl', p.source, bound)
             && (cl'.storages[p.source].status.phase.PhaseReady? <==> bound)
    requires cl'.jobs == cl.jobs && Creations(cl'.journal, p.job) == Creations(cl.journal, p.job)
    ensures Shows(lib, p, cl', Next(v, PassSource))
  {
  }

  lemma NothingToPrepare(lib: Library, cl: Cluster, st: Storage, claim: Claim)
    requires IsZeroPrepare(st.spec.prepare) && PrepareError(st.name, st.spec.prepare).None?
    ensures ReconcilePrepare(lib, cl, st, claim, Healthy) == (cl, Success(NOT_REQUESTED_PROGRESS, false))
  {
  }

  /** A pass over the source. */
  lemma SourcePassShown(lib: Library, p: Pair, cl: Cluster, v: View)
    requires PairOk(lib, p) && WellKeyed(cl) && Shows(lib, p, cl, v)
    ensures Shows(lib, p, Reconcile(lib, cl, p.source, 0, Healthy).0, Next(v, PassSource))
  {
    var st, cl' := cl.storages[p.source], Reconcile(lib, cl, p.source, 0, Healthy).0;
    SourceIsPlain(lib, p, st);
    HealthyPass(lib, cl, p.source, 0);
    HealthyPassReady(lib, cl, p.source, 0);
    var (cl1, claim) := ReconcileClaim(lib, cl, st, Healthy);
    NothingToPrepare(lib, cl1, st, claim.value);
    PassCreatesNoJob(lib, cl, p.source, 0, Healthy, p.job);
    SameCreations(cl, cl', p.job);
    SourcePassed(lib, p, cl, cl', v);
  }

  /** What the prepare sub-step of the copy reports and creates. */
  lemma CopyPrepared(lib: Library, p: Pair, cl: Cluster, claim: Claim, v: View)
    requires PairOk(lib, p)
    requires SourceShows(cl.storages, p, v.ready) && CopyShows(lib, cl.storages, p, v.recorded) && JobShows(cl.jobs, p.job, v.job)
    ensures var (cl2, r) := ReconcilePrepare(lib, cl, cl.storages[p.copy], claim, Healthy);
            var creates := claim.bound && v.ready && v.job.None? && !v.recorded;
            && r.Success?
            && (creates ==> p.job in cl2.jobs && cl2.jobs != cl.jobs && JobShows(cl2.jobs, p.job, Some(false)))
            && (!creates ==> cl2.jobs == cl.jobs)
            && (r.value.phase.PrepareSucceeded? <==> claim.bound && v.ready && (if v.job.Some? then v.job.value else v.recorded))
            && (r.value.phase.PrepareSucceeded? ==> r.value.digest == CopyDigest(lib, p))
  {
    CopyIsPlain(lib, p, cl.storages[p.copy]);
  }

  lemma CopyPassed(lib: Library, p: Pair, cl: Cluster, cl': Cluster, v: View)
    requires Shows(lib, p, cl, v) && p.copy != p.source
    requires var bound := v.copyClaim == Some(true);
             var creates := bound && v.ready && v.job.None? && !v.recorded;
             && OnlyPassed(cl, cl', p.copy, bound)
             && (if creates then JobShows(cl'.jobs, p.job, Some(false)) else cl'.jobs == cl.jobs)
             && Creations(cl'.journal, p.job) == Creations(cl.journal, p.job) + (if creates then 1 else 0)
             && var prepare := cl'.storages[p.copy].status.prepare;
                && (prepare.phase.PrepareSucceeded? <==> bound && v.ready && (if v.job.Some? then v.job.value else v.recorded))
                && (prepare.phase.PrepareSucceeded? ==> prepare.observedDigest == CopyDigest(lib, p))
    ensures Shows(lib, p, cl', Next(v, PassCopy))
  {
  }

  lemma CopyCreations(lib: Library, p: Pair, cl: Cluster)
    requires PairOk(lib, p) && WellKeyed(cl) && p.copy in cl.storages && cl.storages[p.copy].spec == CopySpec(p)
    requires cl.storages[p.copy].recoveryNonce == ""
    ensures var st := cl.storages[p.copy];
            var (cl1, claim) := ReconcileClaim(lib, cl, st, Healthy);
            claim.Success? ==>
              Creations(Reconcile(lib, cl, p.copy, 0, Healthy).0.journal, p.job) == Creations(cl.journal, p.job)
              + (if ReconcilePrepare(lib, cl1, st, claim.value, Healthy).0.jobs != cl1.jobs then 1 else 0)
  {
    var st := cl.storages[p.copy];
    CopyIsPlain(lib, p, st);
    var (cl1, claim) := ReconcileClaim(lib, cl, st, Healthy);
    if claim.Success? {
      if ReconcilePrepare(lib, cl1, st, claim.value, Healthy).0.jobs != cl1.jobs {
        PassCreatesOnce(lib, cl, p.copy, 0);
      } else {
        PassCreatesNoJob(lib, cl, p.copy, 0, Healthy, p.job);
        SameCreations(cl, Reconcile(lib, cl, p.copy, 0, Healthy).0, p.job);
      }
    }
  }

  /** A pass over the copy. */
  lemma CopyPassShown(lib: Library, p: Pair, cl: Cluster, v: View)
    requires PairOk(lib, p) && WellKeyed(cl) && Shows(lib, p, cl, v)
    ensures Shows(lib, p, Reconcile(lib, cl, p.copy, 0, Healthy).0, Next(v, PassCopy))
  {
    var st := cl.storages[p.copy];
    CopyIsPlain(lib, p, st);
    HealthyPass(lib, cl, p.copy, 0);
    HealthyPassReady(lib, cl, p.copy, 0);
    var (cl1, claim) := ReconcileClaim(lib, cl, st, Healthy);
    CopyPrepared(lib, p, cl1, claim.value, v);
    CopyCreations(lib, p, cl);
    CopyPassed(lib, p, cl, Reconcile(lib, cl, p.copy, 0, Healthy).0, v);
  }

  lemma MoveShown(lib: Library, p: Pair, cl: Cluster, v: View, m: Move)
    requires PairOk(lib, p) && WellKeyed(cl) && Shows(lib, p, cl, v)
    ensures Shows(lib, p, Apply(lib, cl, EventOf(p, m)), Next(v, m))
  {
    if m.PassSource? {
      SourcePassShown(lib, p, cl, v);
      ApplyPass(lib, cl, p.source);
    } else if m.PassCopy? {
      CopyPassShown(lib, p, cl, v);
      ApplyPass(lib, cl, p.copy);
    } else if m.CompleteJob? || m.RemoveJob? {
      JobChangeShown(lib, p, cl, v, m);
    } else {
      ClaimChangeShown(lib, p, cl, v, m);
    }
  }

  lemma ApplyPass(lib: Library, cl: Cluster, n: string)
    ensures Apply(lib, cl, Pass(n, 0, Healthy)) == Reconcile(lib, cl, n, 0, Healthy).0
  {
  }

  function EventsOf(p: Pair, moves: seq<Move>): (events: seq<Event>)
    ensures |events| == |moves|
    ensures forall k :: 0 <= k < |moves| ==> events[k] == EventOf(p, moves[k])
  {
    if moves == [] then [] else EventsOf(p, moves[..|moves| - 1]) + [EventOf(p, moves[|moves| - 1])]
  }

  function Played(v: View, moves: seq<Move>): View {
    if moves == [] then v else Next(Played(v, moves[..|moves| - 1]), moves[|moves| - 1])
  }

  /** What a run of such events does to a cluster is what the moves do to its view. */
  lemma {:induction false} MovesShown(lib: Library, p: Pair, cl: Cluster, v: View, moves: seq<Move>)
    requires TwelveDigits(lib) && PairOk(lib, p) && Truthful(cl) && Shows(lib, p, cl, v)
    ensures Shows(lib, p, Run(lib, cl, EventsOf(p, moves)), Played(v, moves))
  {
    if moves != [] {
      var before, m := moves[..|moves| - 1], moves[|moves| - 1];
      MovesShown(lib, p, cl, v, before);
      RunKeepsTruthful(lib, cl, EventsOf(p, before));
      MoveShown(lib, p, Run(lib, cl, EventsOf(p, before)), Played(v, before), m);
      LastMove(lib, p, cl, moves);
    }
  }

  lemma LastMove(lib: Library, p: Pair, cl: Cluster, moves: seq<Move>)
    requires moves != []
    ensures Run(lib, cl, EventsOf(p, moves))
            == Apply(lib, Run(lib, cl, EventsOf(p, moves[..|moves| - 1])), EventOf(p, moves[|moves| - 1]))
  {
    var events := EventsOf(p, moves);
    assert events[..|events| - 1] == EventsOf(p, moves[..|moves| - 1]);
  }

  /** None of these events touches the copy, its claim once bound, or what it asks for. */
  lemma MovesLeavePreparation(lib: Library, p: Pair, cl: Cluster, moves: seq<Move>)
    requires p.copy != p.source
    ensures AllLeavePreparation(lib, cl, EventsOf(p, moves), p.copy)
  {
    var events := EventsOf(p, moves);
    forall k | 0 <= k < |events| && events[k].Happens?
      ensures LeavesPreparation(Run(lib, cl, events[..k]), events[k].change, p.copy)
    {
      assert events[k] == EventOf(p, moves[k]);
    }
  }

  // ------------------------------------------------------------------ copied twice

  const BOTH_NEW := View(None, false, None, false, None, 0)
  const COPIED_ONCE := View(Some(true), true, Some(true), true, Some(true), 1)
  const COPYING_AGAIN := View(Some(true), true, Some(true), false, Some(false), 2)

  lemma PlayedMore(v: View, moves: seq<Move>, m: Move)
    ensures Played(v, moves + [m]) == Next(Played(v, moves), m)
  {
    assert (moves + [m])[..|moves|] == moves;
  }

  lemma PlayedThree(v: View, moves: seq<Move>, a: Move, b: Move, c: Move) returns (longer: seq<Move>)
    ensures Played(v, longer) == Next(Next(Next(Played(v, moves), a), b), c)
  {
    PlayedMore(v, moves, a);
    PlayedMore(v, moves + [a], b);
    PlayedMore(v, moves + [a] + [b], c);
    longer := moves + [a] + [b] + [c];
  }

  /** Source and copy are claimed, bound and prepared. */
  lemma CopyingOnce() returns (moves: seq<Move>)
    ensures Played(BOTH_NEW, moves) == COPIED_ONCE
  {
    var a := PlayedThree(BOTH_NEW, [], PassSource, BindSource, PassSource);
    var b := PlayedThree(BOTH_NEW, a, PassCopy, BindCopy, PassCopy);
    PlayedMore(BOTH_NEW, b, CompleteJob);
    PlayedMore(BOTH_NEW, b + [CompleteJob], PassCopy);
    moves := b + [CompleteJob] + [PassCopy];
  }

  /** The job expires, the source loses its claim for a while, and the copy is passed over
      before and after it is back. */
  lemma CopyingTwice() returns (moves: seq<Move>)
    ensures Played(COPIED_ONCE, moves) == COPYING_AGAIN
  {
    var a := PlayedThree(COPIED_ONCE, [], RemoveJob, LoseSource, PassSource);
    var b := PlayedThree(COPIED_ONCE, a, PassCopy, BindSource, PassSource);
    PlayedMore(COPIED_ONCE, b, PassCopy);
    moves := b + [PassCopy];
  }

  lemma BothCreated(lib: Library, p: Pair)
    requires PairOk(lib, p)
    ensures var start := [Happens(CreateStorage(p.source, SourceSpec(p)))] + [Happens(CreateStorage(p.copy, CopySpec(p)))];
            Shows(lib, p, Run(lib, EMPTY, start), BOTH_NEW)
  {
    var a, b := Happens(CreateStorage(p.source, SourceSpec(p))), Happens(CreateStorage(p.copy, CopySpec(p)));
    assert ([a] + [b])[..1] == [a] && [a][..0] == [];
    assert Run(lib, EMPTY, [a]) == Changed(EMPTY, a.change);
  }

  lemma {:induction false} RunConcat(lib: Library, cl: Cluster, events: seq<Event>, more: seq<Event>)
    ensures Run(lib, cl, events + more) == Run(lib, Run(lib, cl, events), more)
  {
    if more == [] {
      assert events + more == events;
    } else {
      RunConcat(lib, cl, events, more[..|more| - 1]);
      assert (events + more)[..|events + more| - 1] == events + more[..|more| - 1];
    }
  }

  lemma CopiedOnce(lib: Library, p: Pair) returns (events: seq<Event>)
    requires TwelveDigits(lib) && PairOk(lib, p)
    ensures Shows(lib, p, Run(lib, EMPTY, events), COPIED_ONCE)
  {
    var start := [Happens(CreateStorage(p.source, SourceSpec(p)))] + [Happens(CreateStorage(p.copy, CopySpec(p)))];
    var once := CopyingOnce();
    BothCreated(lib, p);
    RunKeepsTruthful(lib, EMPTY, start);
    MovesShown(lib, p, Run(lib, EMPTY, start), BOTH_NEW, once);
    RunConcat(lib, EMPTY, start, EventsOf(p, once));
    events := start + EventsOf(p, once);
  }

  lemma ShownPrepared(lib: Library, p: Pair, cl: Cluster)
    requires PairOk(lib, p) && Shows(lib, p, cl, COPIED_ONCE)
    ensures Prepared(lib, cl, p.copy) && p.job == JobName(p.copy, DigestOf(lib, cl.storages[p.copy]))
  {
    CopyIsPlain(lib, p, cl.storages[p.copy]);
  }

  /** A copy that is recorded as prepared and that nobody touches is prepared again, if its
      source loses its claim for a while after its job has expired: from the empty cluster, for
      any two names, a run of passes without faults after which the copy is prepared and its job
      has been created once, and a continuation that leaves its preparation alone and after
      which the job has been created twice. */
  lemma CopiedTwice(lib: Library, p: Pair) returns (events: seq<Event>, more: seq<Event>)
    requires TwelveDigits(lib) && PairOk(lib, p)
    ensures var cl := Run(lib, EMPTY, events);
            var cl' := Run(lib, cl, more);
            && Prepared(lib, cl, p.copy) && AllLeavePreparation(lib, cl, more, p.copy)
            && p.job == JobName(p.copy, DigestOf(lib, cl.storages[p.copy]))
            && Creations(cl.journal, p.job) == 1 && Creations(cl'.journal, p.job) == 2
  {
    events := CopiedOnce(lib, p);
    var twice := CopyingTwice();
    more := EventsOf(p, twice);
    RunKeepsTruthful(lib, EMPTY, events);
    MovesShown(lib, p, Run(lib, EMPTY, events), COPIED_ONCE, twice);
    MovesLeavePreparation(lib, p, Run(lib, EMPTY, events), twice);
    ShownPrepared(lib, p, Run(lib, EMPTY, events));
  }
}
