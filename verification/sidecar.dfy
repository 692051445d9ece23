/** The worker sidecar (pkg/workersidecar/service.go): the in-flight counter, the order of
    its publishes, and what its metrics tell the lifecycle manager. */
module Sidecar {
  import opened Text
  import opened Subjects
  import opened Results
  import opened Workers
  import opened Lifecycle

  datatype Dispatch = Dispatch(invocationID: string, requestID: string, workerName: string, workerNamespace: string)

  /** What left the sidecar, in order. */
  datatype Sent = SentMetric(metric: Metric) | SentResult(result: ResultMessage)

  predicate IsExecutionEvent(e: MetricEvent) {
    e.InvocationStarted? || e.InvocationFinished? || e.InvocationFailed?
  }

  /** An execution metric is published while its invocation still counts as in flight. */
  predicate Honest(m: Metric) {
    IsExecutionEvent(m.event) ==> m.inflight >= 1
  }

  /** A metric with this in-flight count, if its publish works. */
  function MetricIf(works: bool, d: Dispatch, event: MetricEvent, inflight: int, at: nat): seq<Sent> {
    if works then [SentMetric(Metric(d.requestID, d.workerName, d.workerNamespace, event, inflight, at))] else []
  }

  class WorkerSidecar {
    var inflight: int
    var sent: seq<Sent>

    constructor ()
      ensures inflight == 0 && sent == []
    {
      inflight, sent := 0, [];
    }

    /** logMetricError: a failed metric publish is logged and otherwise ignored. */
    method PublishMetric(d: Dispatch, event: MetricEvent, at: nat, works: bool)
      modifies this`sent
      ensures sent == old(sent) + MetricIf(works, d, event, inflight, at)
    {
      if works {
        sent := sent + [SentMetric(Metric(d.requestID, d.workerName, d.workerNamespace, event, inflight, at))];
      }
    }

    /** HandleDispatch: the started metric, then the result, then the final metric, which is
        not sent without a stored result; a metric that fails is left out.  nil is returned
        exactly if the one result was stored, every metric counts the invocation as still in
        flight, and the counter is back where it was. */
    method HandleDispatch(d: Dispatch, outcome: FrameworkOutcome, startedAt: nat, completedAt: nat,
                          resultStored: bool, metricsWork: (bool, bool)) returns (ok: bool)
      requires inflight >= 0
      modifies this
      ensures inflight == old(inflight)
      ensures ok == resultStored
      ensures sent == old(sent)
                + MetricIf(metricsWork.0, d, InvocationStarted, inflight + 1, startedAt)
                + (if !resultStored then []
                   else [SentResult(WorkerResult(d.invocationID, d.requestID, d.workerName, outcome, startedAt, completedAt))]
                        + MetricIf(metricsWork.1, d, if outcome.Responded? then InvocationFinished else InvocationFailed,
                                   inflight + 1, completedAt))
      ensures forall x :: x in sent[|old(sent)|..] && x.SentMetric? ==> Honest(x.metric)
    {
      inflight := inflight + 1;
      PublishMetric(d, InvocationStarted, startedAt, metricsWork.0);
      if !resultStored {
        inflight := inflight - 1;
        return false;
      }
      sent := sent + [SentResult(WorkerResult(d.invocationID, d.requestID, d.workerName, outcome, startedAt, completedAt))];
      PublishMetric(d, if outcome.Responded? then InvocationFinished else InvocationFailed, completedAt, metricsWork.1);
      inflight := inflight - 1;
      return true;
    }

    /** One tick of heartbeatLoop. */
    method SendHeartbeat(d: Dispatch, at: nat, works: bool)
      modifies this`sent
      ensures sent == old(sent) + MetricIf(works, d, Heartbeat, inflight, at)
    {
      PublishMetric(d, Heartbeat, at, works);
    }
  }

  /** What follows for the lifecycle manager: a worker counts as idle only if the last metric
      about it was a registration or a heartbeat with nothing in flight.  In particular the
      metric that reports a finished invocation never makes its worker idle. */
  lemma IdleWorkerReportedBetweenInvocations(metrics: seq<(Metric, nat)>, u: Unit, now: nat, timeout: int)
    requires forall i :: 0 <= i < |metrics| ==> Honest(metrics[i].0)
    requires IsIdle(ObserveAll(metrics), u, now, timeout)
    ensures var last := LastAbout(metrics, StateKey(u.namespace, u.name));
            last.Some? && last.value.0.inflight == 0 && !IsExecutionEvent(last.value.0.event)
  {
    var key := StateKey(u.namespace, u.name);
    TableHoldsLastMetric(metrics, key);
    LastIsOneOf(metrics, key);
  }

  lemma {:induction false} LastIsOneOf(metrics: seq<(Metric, nat)>, key: string)
    ensures LastAbout(metrics, key).Some? ==> LastAbout(metrics, key).value in metrics
  {
    if metrics != [] {
      LastIsOneOf(metrics[..|metrics| - 1], key);
    }
  }
}
