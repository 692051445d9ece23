/** Invocation results and the records stored for them (pkg/resultstore/model.go, and the
    result construction of pkg/workersidecar/service.go and pkg/activator/service.go). */
module Results {
  import opened Text

  /** Times are nanosecond counts; zero is Go's zero time. */
  const ZERO_TIME: int := 0

  const STATE_SUCCEEDED := "succeeded"
  const STATE_FAILED := "failed"
  const STATE_EXPIRED := "expired"

  const FAILURE_NONE := ""
  const FAILURE_NO_TEMPLATE := "no_worker_template"
  const FAILURE_FRAMEWORK_ERROR := "framework_error"
  const FAILURE_FRAMEWORK_TIMEOUT := "framework_timeout"

  datatype ResultMessage = ResultMessage(
    invocationID: string,
    requestID: string,
    state: string,
    failureClass: string,
    workerName: string,
    statusCode: int,
    headers: map<string, string>,
    body: string,
    error: string,
    startedAt: int,
    completedAt: int)

  datatype Record = Record(
    invocationID: string,
    requestID: string,
    state: string,
    failureClass: string,
    workerName: string,
    statusCode: int,
    headers: map<string, string>,
    bodyInline: string,
    bodyBytes: int,
    bodyTruncated: bool,
    error: string,
    startedAt: int,
    completedAt: int,
    storedAt: int)

  /** normalizeResultState. */
  function ResultState(r: ResultMessage): string {
    if r.state != "" then r.state
    else if r.failureClass == FAILURE_FRAMEWORK_TIMEOUT then STATE_EXPIRED
    else if r.error != "" then STATE_FAILED
    else STATE_SUCCEEDED
  }

  /** RecordFromResult; `now` is the clock it reads. */
  function RecordFromResult(r: ResultMessage, maxInlineBodyBytes: int, now: int): Result<Record> {
    if r.invocationID == "" then Err("invocationID is required")
    else if r.requestID == "" then Err("serverlessRequestID is required")
    else if maxInlineBodyBytes < 0 then Err("maxInlineBodyBytes must be >= 0")
    else
      var completedAt := if r.completedAt == ZERO_TIME then now else r.completedAt;
      var startedAt := if r.startedAt == ZERO_TIME then completedAt else r.startedAt;
      var inline := |r.body| <= maxInlineBodyBytes;
      Ok(Record(r.invocationID, r.requestID, ResultState(r), r.failureClass, r.workerName, r.statusCode,
                r.headers, if inline then r.body else "", |r.body|, !inline, r.error,
                startedAt, completedAt, now))
  }

  /** A record without the time at which it was stored. */
  function Unstamped(r: Record): Record {
    r.(storedAt := ZERO_TIME)
  }

  /** Storing the same result at two different times gives the same record, apart from
      StoredAt, exactly when the result carries its completion time. */
  lemma RecordIgnoresClock(r: ResultMessage, limit: int, t: int, u: int)
    requires t != u && RecordFromResult(r, limit, t).Ok?
    ensures RecordFromResult(r, limit, u).Ok?
    ensures Unstamped(RecordFromResult(r, limit, t).value) == Unstamped(RecordFromResult(r, limit, u).value)
            <==> r.completedAt != ZERO_TIME
  {
    var a, b := RecordFromResult(r, limit, t).value, RecordFromResult(r, limit, u).value;
    if r.completedAt == ZERO_TIME {
      assert Unstamped(a).completedAt == t && Unstamped(b).completedAt == u;
    }
  }

  /** What the local framework answered to a dispatched invocation. */
  datatype FrameworkOutcome =
    | Responded(statusCode: int, headers: map<string, string>, body: string, error: string)
    | FrameworkFailed(deadlineExceeded: bool, message: string)

  /** The result HandleDispatch publishes for one framework outcome. */
  function WorkerResult(invocationID: string, requestID: string, workerName: string,
                        outcome: FrameworkOutcome, startedAt: int, completedAt: int): (r: ResultMessage)
    ensures r.invocationID == invocationID && r.requestID == requestID && r.completedAt == completedAt
    ensures r.workerName == workerName && r.startedAt == startedAt
    ensures r.state == STATE_SUCCEEDED <==> outcome.Responded?
    ensures r.failureClass == FAILURE_NONE <==> outcome.Responded?
    ensures r.state == STATE_EXPIRED <==> outcome.FrameworkFailed? && outcome.deadlineExceeded
    ensures r.state == STATE_EXPIRED <==> r.failureClass == FAILURE_FRAMEWORK_TIMEOUT
    ensures r.statusCode != 0
    ensures outcome.Responded? ==>
              && r.headers == outcome.headers && r.body == outcome.body && r.error == outcome.error
              && (outcome.statusCode != 0 ==> r.statusCode == outcome.statusCode)
    ensures outcome.FrameworkFailed? ==>
              r.error == outcome.message && r.body == "" && r.statusCode == if outcome.deadlineExceeded then 504 else 502
  {
    match outcome
    case Responded(code, headers, body, error) =>
      ResultMessage(invocationID, requestID, STATE_SUCCEEDED, FAILURE_NONE, workerName,
                    if code == 0 then 200 else code, headers, body, error, startedAt, completedAt)
    case FrameworkFailed(deadline, message) =>
      ResultMessage(invocationID, requestID,
                    if deadline then STATE_EXPIRED else STATE_FAILED,
                    if deadline then FAILURE_FRAMEWORK_TIMEOUT else FAILURE_FRAMEWORK_ERROR,
                    workerName, if deadline then 504 else 502, map[], "", message, startedAt, completedAt)
  }

  /** A record keeps the state of a worker's result.  A result that had lost its state would
      be given the same one back exactly if an answer carries no error text and a failure
      without a deadline does. */
  lemma WorkerStateIsKept(invocationID: string, requestID: string, workerName: string, outcome: FrameworkOutcome,
                          startedAt: int, completedAt: int, limit: int, now: int)
    ensures var r := WorkerResult(invocationID, requestID, workerName, outcome, startedAt, completedAt);
            var stored := RecordFromResult(r, limit, now);
            && (stored.Ok? ==> stored.value.state == r.state && stored.value.failureClass == r.failureClass)
            && (ResultState(r.(state := "")) == r.state <==>
                  if outcome.Responded? then outcome.error == "" else outcome.deadlineExceeded || outcome.message != "")
  {
    var r := WorkerResult(invocationID, requestID, workerName, outcome, startedAt, completedAt);
    assert r.state != "";
    assert STATE_SUCCEEDED[0] == 's' && STATE_FAILED[0] == 'f' && STATE_EXPIRED[0] == 'e';
  }

  /** The failure result ProcessInvocation publishes when no template unit exists. */
  function NoTemplateResult(invocationID: string, requestID: string, completedAt: int): (r: ResultMessage)
    ensures r.invocationID == invocationID && r.requestID == requestID && r.completedAt == completedAt
  {
    ResultMessage(invocationID, requestID, STATE_FAILED, FAILURE_NO_TEMPLATE, "", 503, map[], "",
                  "no registered GPUUnit template for serverlessRequestID", ZERO_TIME, completedAt)
  }
}
