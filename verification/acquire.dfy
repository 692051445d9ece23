/** How the activator gets a worker for an invocation (pkg/activator/service.go): from the
    registry, by waiting for a pending one, or by creating one. */
module Acquire {
  import opened Text
  import opened Workers
  import opened Registry
  import opened Lifecycle
  import opened Activator
  import Queue
  import QueueSafety
  import Results
  import Subjects

  datatype Acquisition = Acquired(worker: Worker) | NoTemplate | Backpressure | ListFailed | CreateFailed | TimedOut

  /** What ProcessInvocation makes of it (isRetryableInvocationError). */
  function Classified(a: Acquisition): Queue.Acquired {
    match a
    case Acquired(w) => Queue.Worker(w.name)
    case NoTemplate => Queue.NoTemplate
    case Backpressure => Queue.Retryable("backpressure")
    case ListFailed => Queue.Retryable("list")
    case CreateFailed => Queue.Retryable("create")
    case TimedOut => Queue.Retryable("timeout")
  }

  predicate IsPending(u: Unit) {
    !u.phase.Ready?
  }

  predicate IsPendingManaged(u: Unit) {
    IsManaged(u) && !u.phase.Ready?
  }

  function PendingManaged(pool: seq<Unit>): nat {
    |Select(pool, IsPendingManaged)|
  }

  /** What GetGPUUnit answers, poll after poll: the unit of that name, or an error. */
  ghost predicate AnswersFor(polls: seq<Option<Unit>>, name: string) {
    forall i :: 0 <= i < |polls| && polls[i].Some? ==> polls[i].value.name == name
  }

  predicate ShowsReady(poll: Option<Unit>) {
    poll.Some? && IsReadyWorker(poll.value, poll.value.serverless.requestID)
  }

  ghost predicate NeverReady(polls: seq<Option<Unit>>) {
    forall i :: 0 <= i < |polls| ==> !ShowsReady(polls[i])
  }

  /** The first poll that showed the unit ready showed this one. */
  ghost predicate FirstReady(polls: seq<Option<Unit>>, u: Unit) {
    exists i :: 0 <= i < |polls| && ShowsReady(polls[i]) && polls[i].value == u && NeverReady(polls[..i])
  }

  ghost predicate ReadyInPool(pool: seq<Unit>, requestID: string, w: Worker) {
    exists u :: u in pool && IsReadyWorker(u, requestID) && WorkerOf(u) == w
  }

  ghost predicate NoneReady(pool: seq<Unit>, requestID: string) {
    forall u :: u in pool ==> !IsReadyWorker(u, requestID)
  }

  /** The first unit of the pool that is not in phase Ready. */
  ghost predicate IsFirstPending(pool: seq<Unit>, u: Unit) {
    exists i :: 0 <= i < |pool| && pool[i] == u && IsPending(u) && forall j :: 0 <= j < i ==> !IsPending(pool[j])
  }

  /** firstPendingWorker. */
  method FirstPending(pool: seq<Unit>) returns (found: Option<Unit>)
    ensures found.None? <==> forall u :: u in pool ==> !IsPending(u)
    ensures found.Some? ==> IsFirstPending(pool, found.value)
  {
    for i := 0 to |pool|
      invariant forall j :: 0 <= j < i ==> !IsPending(pool[j])
    {
      if !pool[i].phase.Ready? {
        assert pool[i] in pool && IsPending(pool[i]);
        return Some(pool[i]);
      }
    }
    return None;
  }

  /** pendingManagedWorkers. */
  method CountPending(pool: seq<Unit>) returns (pending: nat)
    ensures pending == PendingManaged(pool)
  {
    pending := 0;
    for i := 0 to |pool|
      invariant pending == PendingManaged(pool[..i])
    {
      assert pool[..i + 1][..i] == pool[..i];
      if !IsManaged(pool[i]) {
        continue;
      }
      if pool[i].phase.Ready? {
        continue;
      }
      pending := pending + 1;
    }
    assert pool[..|pool|] == pool;
  }

  /** waitForWorkerReady: poll until the unit is ready or time is up.  The worker is the unit
      of that name as the first ready answer showed it, and the registry then holds it alone
      for its request ID. */
  method WaitForReady(registry: WorkerRegistry, name: string, polls: seq<Option<Unit>>) returns (ready: Option<Unit>)
    requires AnswersFor(polls, name)
    modifies registry
    ensures ready.None? <==> NeverReady(polls)
    ensures ready.None? ==> registry.entries == old(registry.entries)
    ensures ready.Some? ==>
              && FirstReady(polls, ready.value) && ready.value.name == name
              && registry.entries == Synced(old(registry.entries), ready.value.serverless.requestID, [ready.value])
  {
    for i := 0 to |polls|
      invariant registry.entries == old(registry.entries)
      invariant NeverReady(polls[..i])
    {
      if ShowsReady(polls[i]) {
        registry.Sync(polls[i].value.serverless.requestID, [polls[i].value]);
        return Some(polls[i].value);
      }
      assert polls[..i + 1] == polls[..i] + [polls[i]];
    }
    assert polls[..|polls|] == polls;
    return None;
  }

  /** After a Sync, the request ID has no entry exactly if no unit of the snapshot is ready. */
  lemma NothingRegistered(entries: Entries, requestID: string, units: seq<Unit>)
    ensures KeysFor(Synced(entries, requestID, units), requestID) == {} <==>
            forall u :: u in units ==> !IsReadyWorker(u, requestID)
  {
    RegisteredContents(entries, requestID, units);
    var e := Synced(entries, requestID, units);
    forall u | u in units && IsReadyWorker(u, requestID) ensures KeyOf(u) in KeysFor(e, requestID) {
      assert Kept(requestID, units, KeyOf(u));
    }
  }

  lemma PickedFromPool(entries: Entries, requestID: string, units: seq<Unit>, w: Worker)
    requires Picks(Synced(entries, requestID, units), requestID, w)
    ensures ReadyInPool(units, requestID, w)
  {
    RegisteredContents(entries, requestID, units);
    var e := Synced(entries, requestID, units);
    var k :| k in KeysFor(e, requestID) && e[k] == w;
    assert Kept(requestID, units, k);
  }

  /** Waiting for the first pending unit, if there is one, was in vain. */
  ghost predicate WaitedInVain(pool: seq<Unit>, answers: string -> seq<Option<Unit>>) {
    forall u :: IsFirstPending(pool, u) ==> NeverReady(answers(u.name))
  }

  lemma OneFirstPending(pool: seq<Unit>, u: Unit, v: Unit)
    requires IsFirstPending(pool, u) && IsFirstPending(pool, v)
    ensures u == v
  {
    var i :| 0 <= i < |pool| && pool[i] == u && IsPending(u) && forall j :: 0 <= j < i ==> !IsPending(pool[j]);
    var k :| 0 <= k < |pool| && pool[k] == v && IsPending(v) && forall j :: 0 <= j < k ==> !IsPending(pool[j]);
    assert !(i < k) && !(k < i);
  }

  /** What a create comes to in the store: under a taken name, nothing. */
  function WithWorker(live: map<string, Unit>, worker: Unit): map<string, Unit> {
    if worker.name in live then live else live[worker.name := worker]
  }

  lemma RequestPerformed(live: map<string, Unit>, pool: seq<Unit>, requestID: string, source: string)
    requires requestID != "" && pool != [] && AllInPool(pool, requestID)
    ensures Performed(live, WithWorker(live, NewWorker(Template(pool), source)))
  {
    var worker := NewWorker(Template(pool), source);
    assert MadeFrom(Template(pool), worker);
    PoolWorkerGenerated(pool, requestID, worker);
    OnePerformed(live, CreateWorker(worker));
  }

  /** The wait for the first pending unit, if there is one. */
  method WaitForPending(registry: WorkerRegistry, pool: seq<Unit>, answers: string -> seq<Option<Unit>>) returns (w: Option<Worker>)
    requires forall n :: AnswersFor(answers(n), n)
    modifies registry
    ensures w.None? <==> WaitedInVain(pool, answers)
    ensures w.Some? ==> PendingBecame(pool, answers, w.value)
  {
    var candidate := FirstPending(pool);
    if candidate.None? {
      return None;
    }
    var ready := WaitForReady(registry, candidate.value.name, answers(candidate.value.name));
    forall u | IsFirstPending(pool, u) ensures u == candidate.value {
      OneFirstPending(pool, u, candidate.value);
    }
    return if ready.Some? then Some(WorkerOf(ready.value)) else None;
  }

  ghost predicate PendingBecame(pool: seq<Unit>, answers: string -> seq<Option<Unit>>, w: Worker) {
    exists u :: IsFirstPending(pool, u) && Became(u.name, answers, w)
  }

  /** The unit of that name was shown ready, and this is the worker it is. */
  ghost predicate Became(name: string, answers: string -> seq<Option<Unit>>, w: Worker) {
    exists seen :: FirstReady(answers(name), seen) && seen.name == name && WorkerOf(seen) == w
  }

  /** The rest of acquireWorker: ask for a worker of the template, within the limit. */
  method RequestWorker(manager: LifecycleManager, registry: WorkerRegistry, pool: seq<Unit>, requestID: string,
                       invocationID: string, limit: int, createWorks: bool, answers: string -> seq<Option<Unit>>)
    returns (r: Acquisition, requested: Option<Unit>)
    requires pool != [] && AllInPool(pool, requestID) && forall n :: AnswersFor(answers(n), n)
    modifies registry, manager`live
    ensures r.Acquired? || r.Backpressure? || r.CreateFailed? || r.TimedOut?
    ensures r.Backpressure? <==> PendingManaged(pool) >= limit
    ensures requested == if PendingManaged(pool) < limit then Some(NewWorker(Template(pool), invocationID)) else None
    ensures r.CreateFailed? <==> requested.Some? && !createWorks
    ensures r.TimedOut? <==> requested.Some? && createWorks && NeverReady(answers(requested.value.name))
    ensures r.Acquired? ==> requested.Some? && Became(requested.value.name, answers, r.worker)
    ensures manager.live == if requested.Some? && createWorks then WithWorker(old(manager.live), requested.value) else old(manager.live)
    ensures requestID != "" ==> Performed(old(manager.live), manager.live)
  {
    NothingPerformed(manager.live);
    var template := TemplateUnit(pool);
    var pending := CountPending(pool);
    if pending >= limit {
      return Backpressure, None;
    }
    var worker := NewWorker(template, invocationID);
    if !createWorks {
      return CreateFailed, Some(worker);
    }
    if requestID != "" {
      RequestPerformed(manager.live, pool, requestID, invocationID);
    }
    manager.live := WithWorker(manager.live, worker);
    var created := WaitForReady(registry, worker.name, answers(worker.name));
    return if created.Some? then Acquired(WorkerOf(created.value)) else TimedOut, Some(worker);
  }

  /** Where an acquired worker comes from: a ready unit of the pool, else the first pending
      one, else the one asked for. */
  ghost predicate ComesFrom(pool: seq<Unit>, requestID: string, pendingAnswers: string -> seq<Option<Unit>>,
                            createdAnswers: string -> seq<Option<Unit>>, requested: Option<Unit>, w: Worker)
  {
    if !NoneReady(pool, requestID) then requested.None? && ReadyInPool(pool, requestID, w)
    else if requested.None? then PendingBecame(pool, pendingAnswers, w)
    else Became(requested.value.name, createdAnswers, w)
  }

  /** Nothing is ready, and waiting for what is pending was in vain. */
  ghost predicate NothingToUse(pool: seq<Unit>, requestID: string, pendingAnswers: string -> seq<Option<Unit>>) {
    pool != [] && NoneReady(pool, requestID) && WaitedInVain(pool, pendingAnswers)
  }

  /** acquireWorker.  The listing and the answers are what the runtime says; the limit is
      MaxPendingWorkersPerRequestID.  Every outcome has its exact condition, and what happens
      to the units of the cluster is a run of the activator's machine. */
  method AcquireWorker(manager: LifecycleManager, registry: WorkerRegistry, listing: Option<seq<Unit>>,
                       requestID: string, invocationID: string, limit: int,
                       pendingAnswers: string -> seq<Option<Unit>>, createWorks: bool,
                       createdAnswers: string -> seq<Option<Unit>>)
    returns (r: Acquisition, requested: Option<Unit>, pool: seq<Unit>)
    requires forall n :: AnswersFor(pendingAnswers(n), n) && AnswersFor(createdAnswers(n), n)
    modifies registry, manager`live
    ensures pool == if listing.Some? then Pool(listing.value, requestID) else []
    ensures r.ListFailed? <==> listing.None?
    ensures r.NoTemplate? <==> listing.Some? && pool == []
    ensures r.Acquired? ==> ComesFrom(pool, requestID, pendingAnswers, createdAnswers, requested, r.worker)
    ensures requested.Some? <==> NothingToUse(pool, requestID, pendingAnswers) && PendingManaged(pool) < limit
    ensures requested.Some? ==> requested.value == NewWorker(Template(pool), invocationID)
    ensures r.Backpressure? <==> NothingToUse(pool, requestID, pendingAnswers) && PendingManaged(pool) >= limit
    ensures r.CreateFailed? <==> requested.Some? && !createWorks
    ensures r.TimedOut? <==> requested.Some? && createWorks && NeverReady(createdAnswers(requested.value.name))
    ensures manager.live == if requested.Some? && createWorks then WithWorker(old(manager.live), requested.value) else old(manager.live)
    ensures requestID != "" ==> Performed(old(manager.live), manager.live)
  {
    NothingPerformed(manager.live);
    pool := [];
    if listing.None? {
      return ListFailed, None, [];
    }
    pool := Pool(listing.value, requestID);
    registry.Sync(requestID, pool);
    NothingRegistered(old(registry.entries), requestID, pool);
    var picked := registry.Pick(requestID);
    if picked.Some? {
      PickedFromPool(old(registry.entries), requestID, pool, picked.value);
      return Acquired(picked.value), None, pool;
    }
    if |pool| == 0 {
      return NoTemplate, None, pool;
    }
    var waited := WaitForPending(registry, pool, pendingAnswers);
    if waited.Some? {
      return Acquired(waited.value), None, pool;
    }
    PoolSeen(listing.value, requestID, manager.live);
    r, requested := RequestWorker(manager, registry, pool, requestID, invocationID, limit, createWorks, createdAnswers);
  }

  // ------------------------------------------------- what becomes of the invocation

  /** The activator has fetched the invocation at position i. */
  ghost predicate InHand(cfg: Queue.Config, s: Queue.State, i: nat) {
    && Queue.ConfigOk(cfg) && QueueSafety.Core(cfg, s)
    && Queue.PcOf(s, Queue.Invocations) == Queue.Fetched(i)
    && i < |s.log| && s.log[i].body.Invocation?
  }

  /** The publish of a body in hand: the stream then holds its identity. */
  lemma Published(cfg: Queue.Config, s: Queue.State, b: Queue.Body)
    requires QueueSafety.Core(cfg, s) && QueueSafety.BodyOk(s.log, b)
    ensures QueueSafety.HasKey(Queue.Publish(s.log, Queue.EntryFor(cfg.prefix, b)), Queue.KeyOf(b))
  {
    QueueSafety.PublishKeepsLog(cfg.prefix, s.log, b);
  }

  lemma InvocationInHand(cfg: Queue.Config, s: Queue.State, i: nat)
    requires InHand(cfg, s, i)
    ensures Subjects.IsInvocationID(s.log[i].body.invocationID) && Subjects.IsToken(s.log[i].body.requestID)
  {
    assert QueueSafety.EntryOk(cfg.prefix, s.log, i);
  }

  /** A stored publish after no template was found leaves a result for the invocation. */
  lemma NoTemplateLeavesResult(cfg: Queue.Config, s: Queue.State, now: int, io: Queue.Io, i: nat)
    requires InHand(cfg, s, i) && now != Results.ZERO_TIME && !io.Refused?
    ensures var s' := Queue.HandleInvocationStep(cfg, s, Queue.NoTemplate, now, io);
            QueueSafety.HasOutcome(s'.log, s.log[i].body.invocationID)
  {
    InvocationInHand(cfg, s, i);
    var m := s.log[i].body;
    var b := Queue.Outcome(Results.NoTemplateResult(m.invocationID, m.requestID, now));
    Published(cfg, s, b);
    QueueSafety.KeyMeansOutcome(Queue.Publish(s.log, Queue.EntryFor(cfg.prefix, b)), m.invocationID);
  }

  lemma WorkerLeavesDispatch(cfg: Queue.Config, s: Queue.State, w: string, now: int, io: Queue.Io, i: nat)
    requires InHand(cfg, s, i) && now != Results.ZERO_TIME && !io.Refused? && Subjects.IsToken(w)
    ensures var s' := Queue.HandleInvocationStep(cfg, s, Queue.Worker(w), now, io);
            QueueSafety.HasDispatch(s'.log, s.log[i].body.invocationID)
  {
    InvocationInHand(cfg, s, i);
    var m := s.log[i].body;
    var b := Queue.Dispatch(m.invocationID, m.requestID, w, m.payload);
    Published(cfg, s, b);
    QueueSafety.KeyMeansDispatch(Queue.Publish(s.log, Queue.EntryFor(cfg.prefix, b)), m.invocationID, w);
  }

  /** A result that was not in the stream is the one this step published. */
  lemma NewResultIsTheirs(cfg: Queue.Config, s: Queue.State, a: Queue.Acquired, now: int, io: Queue.Io, i: nat)
    requires InHand(cfg, s, i) && !a.NoTemplate?
    ensures var s' := Queue.HandleInvocationStep(cfg, s, a, now, io);
            QueueSafety.HasOutcome(s'.log, s.log[i].body.invocationID) ==> QueueSafety.HasOutcome(s.log, s.log[i].body.invocationID)
  {
    var s' := Queue.HandleInvocationStep(cfg, s, a, now, io);
    var id := s.log[i].body.invocationID;
    if QueueSafety.HasOutcome(s'.log, id) {
      var k :| 0 <= k < |s'.log| && s'.log[k].body.Outcome? && s'.log[k].body.result.invocationID == id;
      assert k < |s.log| && s.log[k] == s'.log[k];
    }
  }

  /** What becomes of an invocation in hand, once a worker was looked for: a missing template
      ends it with a result, a worker with a dispatch, and every other failure leaves the
      stream alone, so that it is delivered again while deliveries are left and gets a dead
      letter after the last one.  A result appears in this step only for want of a template. */
  lemma AcquisitionDecides(cfg: Queue.Config, s: Queue.State, a: Acquisition, now: int, io: Queue.Io, i: nat, failedAt: nat)
    requires InHand(cfg, s, i) && now != Results.ZERO_TIME && !io.Refused?
    requires a.Acquired? ==> Subjects.IsToken(a.worker.name)
    ensures var s' := Queue.HandleInvocationStep(cfg, s, Classified(a), now, io);
            var id := s.log[i].body.invocationID;
            && (QueueSafety.HasOutcome(s'.log, id) <==> QueueSafety.HasOutcome(s.log, id) || a.NoTemplate?)
            && (a.Acquired? ==> QueueSafety.HasDispatch(s'.log, id))
            && (!a.Acquired? && !a.NoTemplate? ==> s'.log == s.log && Retried(cfg, s', i, failedAt))
  {
    match a {
      case Acquired(w) =>
        WorkerLeavesDispatch(cfg, s, w.name, now, io, i);
        NewResultIsTheirs(cfg, s, Classified(a), now, io, i);
        OldResultStays(cfg, s, Classified(a), now, io, s.log[i].body.invocationID);
      case NoTemplate => NoTemplateLeavesResult(cfg, s, now, io, i);
      case _ => FailureIsRetried(cfg, s, Classified(a), now, io, i, failedAt);
    }
  }

  lemma OldResultStays(cfg: Queue.Config, s: Queue.State, a: Queue.Acquired, now: int, io: Queue.Io, id: string)
    ensures QueueSafety.HasOutcome(s.log, id) ==> QueueSafety.HasOutcome(Queue.HandleInvocationStep(cfg, s, a, now, io).log, id)
  {
    if QueueSafety.HasOutcome(s.log, id) {
      QueueSafety.OutcomeMonotone(s.log, Queue.HandleInvocationStep(cfg, s, a, now, io).log, id);
    }
  }

  /** The handler has failed: a redelivery follows while any is left, else a dead letter. */
  ghost predicate Retried(cfg: Queue.Config, s: Queue.State, i: nat, failedAt: nat)
    requires i < |s.log|
  {
    && Queue.PcOf(s, Queue.Invocations) == Queue.Errored(i)
    && if Queue.DeliveryOf(s, Queue.Invocations, i).count < Queue.MaxDeliver(cfg, Queue.Invocations)
       then QueueSafety.Alive(cfg, Queue.NakStep(cfg, s, Queue.Invocations, Queue.Done), Queue.Invocations, i)
       else QueueSafety.HasDeadLetter(Queue.DeadLetterStep(cfg, s, Queue.Invocations, failedAt, Queue.Done).log,
                                      Subjects.InvocationSource, i)
  }

  lemma FailureIsRetried(cfg: Queue.Config, s: Queue.State, a: Queue.Acquired, now: int, io: Queue.Io, i: nat, failedAt: nat)
    requires InHand(cfg, s, i) && now != Results.ZERO_TIME && a.Retryable?
    ensures var s' := Queue.HandleInvocationStep(cfg, s, a, now, io);
            s'.log == s.log && Retried(cfg, s', i, failedAt)
  {
    var s' := Queue.HandleInvocationStep(cfg, s, a, now, io);
    assert s' == Queue.SetPc(s, Queue.Invocations, Queue.Errored(i));
    assert QueueSafety.MessageOk(cfg, s, Queue.Invocations, i);
    if Queue.DeliveryOf(s', Queue.Invocations, i).count >= Queue.MaxDeliver(cfg, Queue.Invocations) {
      QueueSafety.DeadLetterStored(cfg, s', Queue.Invocations, i, failedAt);
    }
  }
}
