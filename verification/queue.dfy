/** The serverless queue protocol (pkg/serverless/nats.go, with the handlers of
    pkg/activator/service.go, pkg/workersidecar/service.go and pkg/resultconsumer).

    One stream with duplicate detection, any number of durable consumers that run
    concurrently, and the result table.  A run is a sequence of steps; a step that is not
    enabled leaves the state alone, so a statement about every sequence of steps is a
    statement about every run. */
module Queue {
  import opened Text
  import opened Subjects
  import opened Retry
  import opened Results

  // -------------------------------------------------------------------- stream

  datatype Body =
    | Invocation(invocationID: string, requestID: string, payload: string)
    | Dispatch(invocationID: string, requestID: string, workerName: string, payload: string)
    | Outcome(result: ResultMessage)
    | Metric(requestID: string, workerName: string, invocationID: string, event: MetricEvent, reportedAt: nat)
    | DeadLetter(source: Source, sequence: nat, invocationID: string, requestID: string,
                 failedAt: nat, deliveries: nat, original: Body)
    | Malformed(bytes: string)

  datatype Entry = Entry(subject: string, messageID: string, body: Body)

  /** The identity under which a publisher stores a body. */
  function KeyOf(b: Body): MessageKey
    requires !b.Malformed?
  {
    match b
    case Invocation(i, _, _) => InvocationKey(i)
    case Dispatch(i, _, w, _) => DispatchKey(i, w)
    case Outcome(r) => ResultKey(r.invocationID)
    case Metric(_, w, i, e, t) => if i == "" then WorkerMetricKey(w, e, t) else InvocationMetricKey(i, e)
    case DeadLetter(s, n, i, _, t, _, _) =>
      if i == "" then AnonymousDeadLetterKey(s, n, t) else DeadLetterKey(s, i, n)
  }

  function AddressOf(b: Body): Address
    requires !b.Malformed?
  {
    match b
    case Invocation(_, r, _) => InvokeAddress(r)
    case Dispatch(_, r, w, _) => DispatchAddress(r, w)
    case Outcome(r) => ResultAddress(r.requestID)
    case Metric(r, _, _, _, _) => MetricsAddress(r)
    case DeadLetter(s, _, _, r, _, _, _) => DeadLetterAddress(s, r)
  }

  function EntryFor(prefix: string, b: Body): Entry
    requires !b.Malformed?
  {
    Entry(SubjectOf(prefix, AddressOf(b)), MessageID(KeyOf(b)), b)
  }

  predicate Seen(log: seq<Entry>, id: string) {
    exists k :: 0 <= k < |log| && log[k].messageID == id
  }

  /** No two entries share an identifier, unless they have none. */
  ghost predicate UniqueIDs(log: seq<Entry>) {
    forall j, k :: 0 <= j < k < |log| && log[j].messageID != "" ==> log[j].messageID != log[k].messageID
  }

  /** A stored publish: appended unless the duplicate window already holds its identifier.
      Afterwards the stream holds an entry with it, and identifiers stay unique. */
  function Publish(log: seq<Entry>, e: Entry): (r: seq<Entry>)
    ensures log <= r && |r| <= |log| + 1
    ensures Seen(r, e.messageID)
    ensures |r| == |log| <==> e.messageID != "" && Seen(log, e.messageID)
    ensures |r| > |log| ==> r[|log|] == e
    ensures UniqueIDs(log) ==> UniqueIDs(r)
  {
    assert (log + [e])[|log|].messageID == e.messageID;
    if e.messageID != "" && Seen(log, e.messageID) then log else log + [e]
  }

  // ----------------------------------------------------------------- consumers

  datatype Consumer =
    | Invocations
    | Dispatches(requestID: string, workerName: string)
    | Outcomes
    | Metrics

  function SourceOf(c: Consumer): Source {
    match c
    case Invocations => InvocationSource
    case Dispatches(_, _) => DispatchSource
    case Outcomes => ResultSource
    case Metrics => MetricSource
  }

  function Filter(prefix: string, c: Consumer): string {
    match c
    case Invocations => StreamSubjects(prefix)[0]
    case Dispatches(r, w) => DispatchSubject(prefix, r, w)
    case Outcomes => StreamSubjects(prefix)[2]
    case Metrics => StreamSubjects(prefix)[3]
  }

  predicate Receives(prefix: string, c: Consumer, e: Entry) {
    Matches(Filter(prefix, c), e.subject)
  }

  /** What the broker remembers of one message for one consumer. */
  datatype Delivery = Pending(count: nat) | Acked(count: nat) | Termed(count: nat)

  /** Where the consumer's loop is: between messages, or at some point of handling one. */
  datatype Pc =
    | Idle
    | Fetched(sequence: nat)
    | Handled(sequence: nat)
    | Errored(sequence: nat)
    | DeadLettered(sequence: nat)

  /** What the broker was told, in order. */
  datatype Act =
    | DeliverAct(consumer: Consumer, sequence: nat, count: nat)
    | AckAct(consumer: Consumer, sequence: nat)
    | NakAct(consumer: Consumer, sequence: nat, count: nat, delay: int)
    | TermAct(consumer: Consumer, sequence: nat, logLength: nat)

  datatype State = State(
    log: seq<Entry>,
    deliveries: map<(Consumer, nat), Delivery>,
    pcs: map<Consumer, Pc>,
    table: map<string, Record>,
    acts: seq<Act>,
    lost: set<(Consumer, nat)>)

  function Init(): State {
    State([], map[], map[], map[], [], {})
  }

  function DeliveryOf(s: State, c: Consumer, i: nat): Delivery {
    if (c, i) in s.deliveries then s.deliveries[(c, i)] else Pending(0)
  }

  function PcOf(s: State, c: Consumer): Pc {
    if c in s.pcs then s.pcs[c] else Idle
  }

  predicate At(pc: Pc, i: nat) {
    !pc.Idle? && pc.sequence == i
  }

  datatype Config = Config(
    prefix: string,
    parse: DurationParser,
    policy: Consumer -> RetryPolicy,
    maxInlineBodyBytes: int)

  /** consumeJSONMessages normalises the retry policy before it creates the consumer. */
  ghost predicate ConfigOk(cfg: Config) {
    forall c: Consumer :: IsNormal(cfg.parse, cfg.policy(c)) && cfg.policy(c).maxDeliver <= MAX_INT64
  }

  function MaxDeliver(cfg: Config, c: Consumer): int {
    cfg.policy(c).maxDeliver
  }

  // --------------------------------------------------------------------- steps

  /** How one call to the broker or the table ended: done, refused, or done although the
      caller saw an error. */
  datatype Io = Done | Refused | DoneButErrored

  /** acquireWorker's result, as ProcessInvocation classifies it. */
  datatype Acquired = Worker(name: string) | NoTemplate | Retryable(message: string)

  datatype Step =
    | Ingress(invocationID: string, requestID: string, payload: string)
    | PublishMetric(requestID: string, workerName: string, invocationID: string, event: MetricEvent, reportedAt: nat)
    | ForeignPublish(subject: string, bytes: string)
    | Fetch(consumer: Consumer, sequence: nat)
    | HandleInvocation(acquired: Acquired, now: int, io: Io)
    | HandleDispatch(consumer: Consumer, outcome: FrameworkOutcome, startedAt: int, now: int, io: Io)
    | HandleOutcome(now: int, io: Io)
    | HandleMetric
    | Ack(consumer: Consumer, io: Io)
    | Nak(consumer: Consumer, io: Io)
    | PublishDeadLetter(consumer: Consumer, failedAt: nat, io: Io)
    | Term(consumer: Consumer, io: Io)
    | Stop(consumer: Consumer)

  /** The stream at most grows; the broker's records of deliveries and the history of what it
      was told do not change. */
  predicate SameDeliveries(s: State, s': State) {
    s.log <= s'.log && s'.deliveries == s.deliveries && s'.acts == s.acts
  }

  function SetPc(s: State, c: Consumer, pc: Pc): State {
    s.(pcs := s.pcs[c := pc])
  }

  function Settle(s: State, c: Consumer, i: nat, d: Delivery): State {
    s.(deliveries := s.deliveries[(c, i) := d])
  }

  /** The consumer's process goes away.  A message whose permitted deliveries are used up
      and that had neither been handled nor dead-lettered is never delivered again. */
  function Abandon(cfg: Config, s: State, c: Consumer): (s': State)
    ensures SameDeliveries(s, s')
  {
    var pc := PcOf(s, c);
    var final := (pc.Fetched? || pc.Errored?) && DeliveryOf(s, c, pc.sequence).count >= MaxDeliver(cfg, c);
    SetPc(s.(lost := if final then s.lost + {(c, pc.sequence)} else s.lost), c, Idle)
  }

  function FetchStep(cfg: Config, s: State, c: Consumer, i: nat): State {
    if PcOf(s, c).Idle? && i < |s.log| && Receives(cfg.prefix, c, s.log[i])
       && DeliveryOf(s, c, i).Pending? && DeliveryOf(s, c, i).count < MaxDeliver(cfg, c)
    then
      var n := DeliveryOf(s, c, i).count + 1;
      SetPc(Settle(s, c, i, Pending(n)), c, Fetched(i)).(acts := s.acts + [DeliverAct(c, i, n)])
    else s
  }

  /** A handler whose only effect is one publish: nil is returned after a stored publish,
      an error otherwise. */
  function HandlerPublish(cfg: Config, s: State, c: Consumer, i: nat, b: Body, io: Io): (s': State)
    requires !b.Malformed?
    ensures SameDeliveries(s, s') && s'.lost == s.lost
    ensures PcOf(s', c) == Handled(i) || PcOf(s', c) == Errored(i)
    ensures PcOf(s', c) == Handled(i) ==> Seen(s'.log, MessageID(KeyOf(b)))
    ensures s'.log != s.log ==> !io.Refused? && s'.log == s.log + [EntryFor(cfg.prefix, b)]
  {
    var stored := s.(log := Publish(s.log, EntryFor(cfg.prefix, b)));
    match io
    case Done => SetPc(stored, c, Handled(i))
    case Refused => SetPc(s, c, Errored(i))
    case DoneButErrored => SetPc(stored, c, Errored(i))
  }

  /** ProcessInvocation: dispatch to the acquired worker; without a template publish a
      failure result; otherwise return the error for redelivery. */
  function HandleInvocationStep(cfg: Config, s: State, acquired: Acquired, now: int, io: Io): (s': State)
    ensures SameDeliveries(s, s') && s'.lost == s.lost
  {
    var pc := PcOf(s, Invocations);
    if !pc.Fetched? || pc.sequence >= |s.log| || !s.log[pc.sequence].body.Invocation? || now == ZERO_TIME then s
    else
      var m := s.log[pc.sequence].body;
      match acquired
      case Worker(w) =>
        if !IsToken(w) then s
        else HandlerPublish(cfg, s, Invocations, pc.sequence, Dispatch(m.invocationID, m.requestID, w, m.payload), io)
      case NoTemplate =>
        HandlerPublish(cfg, s, Invocations, pc.sequence,
                       Outcome(NoTemplateResult(m.invocationID, m.requestID, now)), io)
      case Retryable(_) => SetPc(s, Invocations, Errored(pc.sequence))
  }

  /** The worker sidecar's HandleDispatch. */
  function HandleDispatchStep(cfg: Config, s: State, c: Consumer, outcome: FrameworkOutcome,
                              startedAt: int, now: int, io: Io): (s': State)
    ensures SameDeliveries(s, s') && s'.lost == s.lost
  {
    var pc := PcOf(s, c);
    if !c.Dispatches? || !pc.Fetched? || pc.sequence >= |s.log| || !s.log[pc.sequence].body.Dispatch?
       || now == ZERO_TIME
    then s
    else
      var m := s.log[pc.sequence].body;
      HandlerPublish(cfg, s, c, pc.sequence,
                     Outcome(WorkerResult(m.invocationID, m.requestID, m.workerName, outcome, startedAt, now)), io)
  }

  /** The result consumer's HandleResult: an upsert of the record. */
  function HandleOutcomeStep(cfg: Config, s: State, now: int, io: Io): (s': State)
    ensures SameDeliveries(s, s') && s'.lost == s.lost
  {
    var pc := PcOf(s, Outcomes);
    if !pc.Fetched? || pc.sequence >= |s.log| || !s.log[pc.sequence].body.Outcome? then s
    else
      var r := s.log[pc.sequence].body.result;
      var record := RecordFromResult(r, cfg.maxInlineBodyBytes, now);
      if record.Err? || io.Refused? then SetPc(s, Outcomes, Errored(pc.sequence))
      else
        SetPc(s.(table := s.table[r.invocationID := record.value]), Outcomes,
              if io.Done? then Handled(pc.sequence) else Errored(pc.sequence))
  }

  function HandleMetricStep(cfg: Config, s: State): (s': State)
    ensures SameDeliveries(s, s') && s'.lost == s.lost
  {
    var pc := PcOf(s, Metrics);
    if pc.Fetched? && pc.sequence < |s.log| && s.log[pc.sequence].body.Metric?
    then SetPc(s, Metrics, Handled(pc.sequence))
    else s
  }

  function AckStep(cfg: Config, s: State, c: Consumer, io: Io): State {
    var pc := PcOf(s, c);
    if !pc.Handled? then s
    else if io.Refused? then Abandon(cfg, s, c)
    else
      var acked := Settle(s, c, pc.sequence, Acked(DeliveryOf(s, c, pc.sequence).count));
      SetPc(acked.(acts := s.acts + [AckAct(c, pc.sequence)]), c, Idle)
  }

  /** terminalDelivery. */
  predicate Terminal(cfg: Config, s: State, c: Consumer, i: nat) {
    DeliveryOf(s, c, i).count >= MaxDeliver(cfg, c)
  }

  /** NakWithDelay after a failed, non-terminal delivery. */
  function NakStep(cfg: Config, s: State, c: Consumer, io: Io): State {
    var pc := PcOf(s, c);
    if !pc.Errored? || Terminal(cfg, s, c, pc.sequence) then s
    else
      var n := DeliveryOf(s, c, pc.sequence).count;
      if io.Refused? || n >= TWO_64 then Abandon(cfg, s, c)
      else
        var delay := DelayForDelivery(cfg.parse, cfg.policy(c), n);
        if delay.None? then Abandon(cfg, s, c)
        else SetPc(s.(acts := s.acts + [NakAct(c, pc.sequence, n, delay.value)]), c, Idle)
  }

  /** The identifiers deadLetterInfo takes from a decoded message. */
  function InvocationIDOf(b: Body): string {
    match b
    case Invocation(i, _, _) => i
    case Dispatch(i, _, _, _) => i
    case Outcome(r) => r.invocationID
    case Metric(_, _, i, _, _) => i
    case _ => ""
  }

  function RequestIDOf(b: Body): string {
    match b
    case Invocation(_, r, _) => r
    case Dispatch(_, r, _, _) => r
    case Outcome(r) => r.requestID
    case Metric(r, _, _, _, _) => r
    case _ => "unknown"
  }

  function DeadLetterFor(s: State, c: Consumer, i: nat, failedAt: nat): Body
    requires i < |s.log|
  {
    var b := s.log[i].body;
    DeadLetter(SourceOf(c), i, InvocationIDOf(b), RequestIDOf(b), failedAt, DeliveryOf(s, c, i).count, b)
  }

  /** The first half of deadLetterAndTerm: for an undecodable payload at once, for a failed
      handler on the last permitted delivery. */
  function DeadLetterStep(cfg: Config, s: State, c: Consumer, failedAt: nat, io: Io): (s': State)
    ensures SameDeliveries(s, s')
  {
    var pc := PcOf(s, c);
    if (pc.Fetched? || pc.Errored?) && pc.sequence < |s.log|
       && (if pc.Fetched? then s.log[pc.sequence].body.Malformed? else Terminal(cfg, s, c, pc.sequence))
    then
      var b := DeadLetterFor(s, c, pc.sequence, failedAt);
      var stored := s.(log := Publish(s.log, EntryFor(cfg.prefix, b)));
      match io
      case Done => SetPc(stored, c, DeadLettered(pc.sequence))
      case Refused => Abandon(cfg, s, c)
      case DoneButErrored => SetPc(stored, c, Idle)
    else s
  }

  /** The second half of deadLetterAndTerm. */
  function TermStep(cfg: Config, s: State, c: Consumer, io: Io): State {
    var pc := PcOf(s, c);
    if !pc.DeadLettered? then s
    else if io.Refused? then SetPc(s, c, Idle)
    else
      var termed := Settle(s, c, pc.sequence, Termed(DeliveryOf(s, c, pc.sequence).count));
      SetPc(termed.(acts := s.acts + [TermAct(c, pc.sequence, |s.log|)]), c, Idle)
  }

  function PublishBody(cfg: Config, s: State, b: Body): (s': State)
    requires !b.Malformed?
    ensures SameDeliveries(s, s') && s'.lost == s.lost
  {
    s.(log := Publish(s.log, EntryFor(cfg.prefix, b)))
  }

  function Apply(cfg: Config, s: State, step: Step): State {
    match step
    case Ingress(i, r, p) =>
      if IsInvocationID(i) && IsToken(r) then PublishBody(cfg, s, Invocation(i, r, p)) else s
    case PublishMetric(r, w, i, e, t) =>
      if IsToken(r) && IsToken(w) && (i == "" || IsInvocationID(i)) then PublishBody(cfg, s, Metric(r, w, i, e, t)) else s
    case ForeignPublish(subject, bytes) => s.(log := s.log + [Entry(subject, "", Malformed(bytes))])
    case Fetch(c, i) => FetchStep(cfg, s, c, i)
    case HandleInvocation(acquired, now, io) => HandleInvocationStep(cfg, s, acquired, now, io)
    case HandleDispatch(c, outcome, startedAt, now, io) => HandleDispatchStep(cfg, s, c, outcome, startedAt, now, io)
    case HandleOutcome(now, io) => HandleOutcomeStep(cfg, s, now, io)
    case HandleMetric => HandleMetricStep(cfg, s)
    case Ack(c, io) => AckStep(cfg, s, c, io)
    case Nak(c, io) => NakStep(cfg, s, c, io)
    case PublishDeadLetter(c, failedAt, io) => DeadLetterStep(cfg, s, c, failedAt, io)
    case Term(c, io) => TermStep(cfg, s, c, io)
    case Stop(c) => Abandon(cfg, s, c)
  }

  function Run(cfg: Config, s: State, steps: seq<Step>): State {
    if steps == [] then s
    else Apply(cfg, Run(cfg, s, steps[..|steps| - 1]), steps[|steps| - 1])
  }
}
