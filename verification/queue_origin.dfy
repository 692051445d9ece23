/** Where the messages in the stream come from: every dispatch and every result can be
    traced to the invocation that was accepted (pkg/activator/service.go and
    pkg/workersidecar/service.go). */
module QueueOrigin {
  import opened Text
  import opened Subjects
  import opened Results
  import opened Queue

  /** An earlier entry is the invocation with this identifier, request ID and payload. */
  ghost predicate HasInvocation(log: seq<Entry>, before: nat, id: string, requestID: string, payload: string)
    requires before <= |log|
  {
    exists j :: 0 <= j < before && log[j].body == Invocation(id, requestID, payload)
  }

  ghost predicate Traced(log: seq<Entry>, k: nat)
    requires k < |log|
  {
    match log[k].body
    case Dispatch(id, r, _, p) => HasInvocation(log, k, id, r, p)
    case Outcome(result) => exists p :: HasInvocation(log, k, result.invocationID, result.requestID, p)
    case _ => true
  }

  ghost predicate AllTraced(log: seq<Entry>) {
    forall k :: 0 <= k < |log| ==> Traced(log, k)
  }

  lemma TracedLonger(log: seq<Entry>, longer: seq<Entry>, k: nat)
    requires k < |log| && log <= longer && Traced(log, k)
    ensures Traced(longer, k)
  {
    match log[k].body {
      case Dispatch(id, r, _, p) => InvocationLonger(log, longer, k, id, r, p);
      case Outcome(result) =>
        var p :| HasInvocation(log, k, result.invocationID, result.requestID, p);
        InvocationLonger(log, longer, k, result.invocationID, result.requestID, p);
      case _ =>
    }
  }

  lemma InvocationLonger(log: seq<Entry>, longer: seq<Entry>, before: nat, id: string, r: string, p: string)
    requires before <= |log| && log <= longer && HasInvocation(log, before, id, r, p)
    ensures HasInvocation(longer, before, id, r, p)
  {
    var j :| 0 <= j < before && log[j].body == Invocation(id, r, p);
    assert longer[j] == log[j];
  }

  /** Publishing a body that is traced keeps the log so. */
  lemma PublishTraced(log: seq<Entry>, e: Entry)
    requires AllTraced(log) && Traced(log + [e], |log|)
    ensures AllTraced(Publish(log, e))
  {
    forall k | 0 <= k < |log| ensures Traced(log + [e], k) {
      TracedLonger(log, log + [e], k);
    }
  }

  /** The activator publishes about the invocation in hand. */
  lemma InvocationTraced(cfg: Config, s: State, acquired: Acquired, now: int, io: Io)
    requires AllTraced(s.log)
    ensures AllTraced(HandleInvocationStep(cfg, s, acquired, now, io).log)
  {
    var pc := PcOf(s, Invocations);
    if pc.Fetched? && pc.sequence < |s.log| && s.log[pc.sequence].body.Invocation? && now != ZERO_TIME {
      var m := s.log[pc.sequence].body;
      match acquired {
        case Worker(w) =>
          PublishFor(cfg, s.log, pc.sequence, Dispatch(m.invocationID, m.requestID, w, m.payload));
        case NoTemplate =>
          PublishFor(cfg, s.log, pc.sequence, Outcome(NoTemplateResult(m.invocationID, m.requestID, now)));
        case Retryable(_) =>
      }
    }
  }

  /** A body about the invocation at position i. */
  lemma PublishFor(cfg: Config, log: seq<Entry>, i: nat, b: Body)
    requires AllTraced(log) && i < |log| && log[i].body.Invocation? && !b.Malformed?
    requires var m := log[i].body;
             || (b.Dispatch? && b.invocationID == m.invocationID && b.requestID == m.requestID && b.payload == m.payload)
             || (b.Outcome? && b.result.invocationID == m.invocationID && b.result.requestID == m.requestID)
    ensures AllTraced(Publish(log, EntryFor(cfg.prefix, b)))
  {
    var m := log[i].body;
    var e := EntryFor(cfg.prefix, b);
    assert (log + [e])[i] == log[i];
    assert HasInvocation(log + [e], |log|, m.invocationID, m.requestID, m.payload);
    PublishTraced(log, e);
  }

  /** The sidecar publishes about the dispatch in hand, hence about its invocation. */
  lemma DispatchTraced(cfg: Config, s: State, c: Consumer, outcome: FrameworkOutcome, startedAt: int, now: int, io: Io)
    requires AllTraced(s.log)
    ensures AllTraced(HandleDispatchStep(cfg, s, c, outcome, startedAt, now, io).log)
  {
    var pc := PcOf(s, c);
    if c.Dispatches? && pc.Fetched? && pc.sequence < |s.log| && s.log[pc.sequence].body.Dispatch? && now != ZERO_TIME {
      var m := s.log[pc.sequence].body;
      assert Traced(s.log, pc.sequence);
      var j :| 0 <= j < pc.sequence && s.log[j].body == Invocation(m.invocationID, m.requestID, m.payload);
      PublishFor(cfg, s.log, j, Outcome(WorkerResult(m.invocationID, m.requestID, m.workerName, outcome, startedAt, now)));
    }
  }

  lemma OtherTraced(cfg: Config, s: State, step: Step)
    requires AllTraced(s.log) && !step.HandleInvocation? && !step.HandleDispatch?
    ensures AllTraced(Apply(cfg, s, step).log)
  {
    match step {
      case Ingress(i, r, p) =>
        if IsInvocationID(i) && IsToken(r) {
          PublishTraced(s.log, EntryFor(cfg.prefix, Invocation(i, r, p)));
        }
      case PublishMetric(r, w, i, e, t) =>
        if IsToken(r) && IsToken(w) && (i == "" || IsInvocationID(i)) {
          PublishTraced(s.log, EntryFor(cfg.prefix, Metric(r, w, i, e, t)));
        }
      case ForeignPublish(subject, bytes) => PublishTraced(s.log, Entry(subject, "", Malformed(bytes)));
      case PublishDeadLetter(c, failedAt, io) =>
        var pc := PcOf(s, c);
        if !pc.Idle? && pc.sequence < |s.log| {
          PublishTraced(s.log, EntryFor(cfg.prefix, DeadLetterFor(s, c, pc.sequence, failedAt)));
        }
      case _ =>
    }
  }

  lemma {:induction false} RunTraced(cfg: Config, steps: seq<Step>)
    ensures AllTraced(Run(cfg, Init(), steps).log)
  {
    if steps != [] {
      var s, step := Run(cfg, Init(), steps[..|steps| - 1]), steps[|steps| - 1];
      RunTraced(cfg, steps[..|steps| - 1]);
      match step {
        case HandleInvocation(acquired, now, io) => InvocationTraced(cfg, s, acquired, now, io);
        case HandleDispatch(c, outcome, startedAt, now, io) => DispatchTraced(cfg, s, c, outcome, startedAt, now, io);
        case _ => OtherTraced(cfg, s, step);
      }
    }
  }

  /** In every run, every dispatch in the stream carries the payload of an invocation that
      was accepted earlier under the same identifier and request ID, and every result
      belongs to such an invocation: the system neither invents nor mixes up work. */
  lemma NothingInvented(cfg: Config, steps: seq<Step>, k: nat)
    requires k < |Run(cfg, Init(), steps).log|
    ensures var log := Run(cfg, Init(), steps).log;
            match log[k].body
            case Dispatch(id, r, _, p) => exists j :: 0 <= j < k && log[j].body == Invocation(id, r, p)
            case Outcome(result) =>
              exists j, p :: 0 <= j < k && log[j].body == Invocation(result.invocationID, result.requestID, p)
            case _ => true
  {
    RunTraced(cfg, steps);
    assert Traced(Run(cfg, Init(), steps).log, k);
  }
}
