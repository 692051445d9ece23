/** The main results about runs of the queue protocol (pkg/serverless/nats.go): every message
    is accounted for, results and records are unique, and what the broker is told obeys the
    delivery discipline. */
module QueueTheorems {
  import opened Text
  import opened Subjects
  import opened Retry
  import opened Results
  import opened Queue
  import opened QueueSafety
  import opened QueueLosses

  // ------------------------------------------------------ nothing is forgotten

  /** In every run, every message in the stream is, for each consumer: still to be
      delivered or being handled, dead-lettered with its original payload, handed on, or
      abandoned by a process that stopped during its last permitted delivery. */
  lemma EveryMessageAccounted(cfg: Config, steps: seq<Step>, c: Consumer, i: nat)
    requires ConfigOk(cfg) && i < |Run(cfg, Init(), steps).log|
    ensures var s := Run(cfg, Init(), steps);
            Alive(cfg, s, c, i) || HasDeadLetter(s.log, SourceOf(c), i) || Complete(s, i) || (c, i) in s.lost
  {
    RunKeeps(cfg, steps);
    assert MessageOk(cfg, Run(cfg, Init(), steps), c, i);
  }

  /** Conservation: without a final stop, every accepted invocation is pending,
      dead-lettered, or has a dispatch or a result in the stream; every dispatch is pending
      at its worker, dead-lettered, or has a result; every result is pending, dead-lettered
      or stored. */
  lemma Conservation(cfg: Config, steps: seq<Step>, i: nat)
    requires ConfigOk(cfg) && NoFinalStop(cfg, steps) && i < |Run(cfg, Init(), steps).log|
    ensures var s := Run(cfg, Init(), steps);
            match s.log[i].body
            case Invocation(id, _, _) =>
              || Alive(cfg, s, Invocations, i)
              || HasDeadLetter(s.log, InvocationSource, i)
              || HasDispatch(s.log, id)
              || HasOutcome(s.log, id)
            case Dispatch(id, r, w, _) =>
              || Alive(cfg, s, Dispatches(r, w), i)
              || HasDeadLetter(s.log, DispatchSource, i)
              || HasOutcome(s.log, id)
            case Outcome(r) =>
              || Alive(cfg, s, Outcomes, i)
              || HasDeadLetter(s.log, ResultSource, i)
              || r.invocationID in s.table
            case _ => true
  {
    NothingLost(cfg, steps);
    match Run(cfg, Init(), steps).log[i].body {
      case Invocation(_, _, _) => EveryMessageAccounted(cfg, steps, Invocations, i);
      case Dispatch(_, r, w, _) => EveryMessageAccounted(cfg, steps, Dispatches(r, w), i);
      case Outcome(_) => EveryMessageAccounted(cfg, steps, Outcomes, i);
      case _ =>
    }
  }

  /** And exactly what a final stop costs: a message is neither pending, nor dead-lettered,
      nor handed on, if and only if a final stop hit it and it had not been handed on. */
  lemma UnaccountedExactly(cfg: Config, steps: seq<Step>, i: nat)
    requires ConfigOk(cfg) && WorkersNamed(steps) && i < |Run(cfg, Init(), steps).log|
    requires var b := Run(cfg, Init(), steps).log[i].body; b.Invocation? || b.Dispatch? || b.Outcome? || b.Metric?
    ensures var s := Run(cfg, Init(), steps);
            var c := ReceiverOf(s.log[i].body);
            && (!Alive(cfg, s, c, i) && !HasDeadLetter(s.log, SourceOf(c), i) && !Complete(s, i)
                <==> (c, i) in s.lost && !Complete(s, i))
            && ((c, i) in s.lost <==> FinalStopSometime(cfg, steps, c, i))
  {
    var s := Run(cfg, Init(), steps);
    var c := ReceiverOf(s.log[i].body);
    EveryMessageAccounted(cfg, steps, c, i);
    LostExactly(cfg, steps, c, i);
    if (c, i) in s.lost {
      LostIsGone(cfg, steps, c, i);
      ReceiverIsOnly(cfg, steps, i);
      LostHasNoDeadLetter(cfg, steps, c, i);
    }
  }

  /** For an accepted invocation in the terms of the stream. */
  lemma InvocationUnaccountedExactly(cfg: Config, steps: seq<Step>, i: nat)
    requires ConfigOk(cfg) && WorkersNamed(steps) && i < |Run(cfg, Init(), steps).log|
    requires Run(cfg, Init(), steps).log[i].body.Invocation?
    ensures var s := Run(cfg, Init(), steps);
            var id := s.log[i].body.invocationID;
            (!Alive(cfg, s, Invocations, i) && !HasDeadLetter(s.log, InvocationSource, i)
             && !HasDispatch(s.log, id) && !HasOutcome(s.log, id))
            <==> (FinalStopSometime(cfg, steps, Invocations, i)
                  && !HasDispatch(s.log, id) && !HasOutcome(s.log, id))
  {
    UnaccountedExactly(cfg, steps, i);
  }

  // -------------------------------------------------------- one result, one record

  /** However often messages are redelivered and whichever workers run them, the stream
      holds at most one result per invocation. */
  lemma AtMostOneResult(cfg: Config, steps: seq<Step>, j: nat, k: nat)
    requires ConfigOk(cfg)
    requires var log := Run(cfg, Init(), steps).log;
             && j < |log| && k < |log| && log[j].body.Outcome? && log[k].body.Outcome?
             && log[j].body.result.invocationID == log[k].body.result.invocationID
    ensures j == k
  {
    RunKeeps(cfg, steps);
    var log := Run(cfg, Init(), steps).log;
    assert EntryOk(cfg.prefix, log, j) && EntryOk(cfg.prefix, log, k);
    KeyNonEmpty(KeyOf(log[j].body));
    assert log[j].messageID == log[k].messageID;
  }

  /** The same identifiers allow one metric of each kind per invocation: if a second worker
      runs it, its metric is dropped as a duplicate. */
  lemma AtMostOneMetric(cfg: Config, steps: seq<Step>, j: nat, k: nat)
    requires ConfigOk(cfg)
    requires var log := Run(cfg, Init(), steps).log;
             && j < |log| && k < |log| && log[j].body.Metric? && log[k].body.Metric?
             && log[j].body.event == log[k].body.event
             && log[j].body.invocationID == log[k].body.invocationID != ""
    ensures j == k
  {
    RunKeeps(cfg, steps);
    var log := Run(cfg, Init(), steps).log;
    assert EntryOk(cfg.prefix, log, j) && EntryOk(cfg.prefix, log, k);
    KeyNonEmpty(KeyOf(log[j].body));
    assert log[j].messageID == log[k].messageID;
  }

  /** Any order and number of result redeliveries leaves the same stored record: the one
      the single published result determines, apart from StoredAt. */
  lemma StoredRecordIsDetermined(cfg: Config, steps: seq<Step>, id: string, k: nat, t: int)
    requires ConfigOk(cfg)
    requires var s := Run(cfg, Init(), steps);
             && id in s.table && k < |s.log|
             && s.log[k].body.Outcome? && s.log[k].body.result.invocationID == id
    ensures var s := Run(cfg, Init(), steps);
            var again := RecordFromResult(s.log[k].body.result, cfg.maxInlineBodyBytes, t);
            again.Ok? && Unstamped(s.table[id]) == Unstamped(again.value)
  {
    RunKeeps(cfg, steps);
    var s := Run(cfg, Init(), steps);
    assert RecordOk(cfg, s, id);
    var j, u :| 0 <= j < |s.log| && s.log[j].body.Outcome? && s.log[j].body.result.invocationID == id
                && RecordFromResult(s.log[j].body.result, cfg.maxInlineBodyBytes, u) == Ok(s.table[id]);
    AtMostOneResult(cfg, steps, j, k);
    assert EntryOk(cfg.prefix, s.log, k);
    if t != u {
      RecordIgnoresClock(s.log[k].body.result, cfg.maxInlineBodyBytes, u, t);
    }
  }

  /** Every stored record belongs to a published result. */
  lemma StoredRecordHasResult(cfg: Config, steps: seq<Step>, id: string)
    requires ConfigOk(cfg) && id in Run(cfg, Init(), steps).table
    ensures HasOutcome(Run(cfg, Init(), steps).log, id)
  {
    RunKeeps(cfg, steps);
    assert RecordOk(cfg, Run(cfg, Init(), steps), id);
  }

  // ------------------------------------------------------- delivery discipline

  function CountDeliveries(acts: seq<Act>, c: Consumer, i: nat): nat {
    if acts == [] then 0
    else
      var last := acts[|acts| - 1];
      CountDeliveries(acts[..|acts| - 1], c, i)
      + if last.DeliverAct? && last.consumer == c && last.sequence == i then 1 else 0
  }

  ghost predicate GoodDelay(cfg: Config, c: Consumer, n: nat, delay: int) {
    && 1 <= n < MaxDeliver(cfg, c)
    && delay > 0
    && var backoff := cfg.policy(c).backoff;
       |backoff| > 0
       && cfg.parse(TrimSpace(backoff[if n - 1 < |backoff| - 1 then n - 1 else |backoff| - 1])) == Some(delay)
  }

  ghost predicate ActOk(cfg: Config, s: State, a: Act) {
    match a
    case DeliverAct(c, i, n) => 1 <= n <= MaxDeliver(cfg, c)
    case AckAct(c, i) => DeliveryOf(s, c, i).Acked?
    case NakAct(c, i, n, delay) => GoodDelay(cfg, c, n, delay)
    case TermAct(c, i, len) =>
      DeliveryOf(s, c, i).Termed? && i < len <= |s.log| && HasDeadLetter(s.log[..len], SourceOf(c), i)
  }

  ghost predicate HistoryOk(cfg: Config, s: State) {
    && (forall c: Consumer, i: nat :: CountDeliveries(s.acts, c, i) == DeliveryOf(s, c, i).count)
    && (forall k :: 0 <= k < |s.acts| ==> ActOk(cfg, s, s.acts[k]))
  }

  /** Steps that tell the broker nothing. */
  lemma QuietHistory(cfg: Config, s: State, s': State)
    requires HistoryOk(cfg, s) && s.log <= s'.log && s'.deliveries == s.deliveries && s'.acts == s.acts
    ensures HistoryOk(cfg, s')
  {
    forall c: Consumer, i: nat ensures CountDeliveries(s'.acts, c, i) == DeliveryOf(s', c, i).count {
      assert CountDeliveries(s.acts, c, i) == DeliveryOf(s, c, i).count;
    }
    forall k | 0 <= k < |s'.acts| ensures ActOk(cfg, s', s'.acts[k]) {
      ActKept(cfg, s, s', k);
    }
  }

  lemma ActKept(cfg: Config, s: State, s': State, k: nat)
    requires k < |s.acts| && ActOk(cfg, s, s.acts[k]) && s.log <= s'.log
    requires forall c: Consumer, i: nat :: !DeliveryOf(s, c, i).Pending? ==> DeliveryOf(s', c, i) == DeliveryOf(s, c, i)
    ensures ActOk(cfg, s', s.acts[k])
  {
    var a := s.acts[k];
    if a.TermAct? {
      assert s'.log[..a.logLength] == s.log[..a.logLength];
    }
  }

  /** Steps that tell the broker one thing about a message that was still pending. */
  lemma OneAct(cfg: Config, s: State, s': State, c: Consumer, i: nat, a: Act)
    requires HistoryOk(cfg, s) && s.log <= s'.log && s'.acts == s.acts + [a]
    requires DeliveryOf(s, c, i).Pending?
    requires forall c': Consumer, i': nat :: (c', i') != (c, i) ==> DeliveryOf(s', c', i') == DeliveryOf(s, c', i')
    requires ActOk(cfg, s', a)
    requires if a.DeliverAct? then a.consumer == c && a.sequence == i
                                   && DeliveryOf(s', c, i).count == DeliveryOf(s, c, i).count + 1
             else DeliveryOf(s', c, i).count == DeliveryOf(s, c, i).count
    ensures HistoryOk(cfg, s')
  {
    forall c': Consumer, i': nat ensures CountDeliveries(s'.acts, c', i') == DeliveryOf(s', c', i').count {
      CountAppend(s.acts, a, c', i');
      assert CountDeliveries(s.acts, c', i') == DeliveryOf(s, c', i').count;
    }
    ActsKept(cfg, s, s', a);
  }

  lemma CountAppend(acts: seq<Act>, a: Act, c: Consumer, i: nat)
    ensures CountDeliveries(acts + [a], c, i) ==
            CountDeliveries(acts, c, i) + if a.DeliverAct? && a.consumer == c && a.sequence == i then 1 else 0
  {
    assert (acts + [a])[..|acts|] == acts;
  }

  lemma ActsKept(cfg: Config, s: State, s': State, a: Act)
    requires s.log <= s'.log && s'.acts == s.acts + [a] && ActOk(cfg, s', a)
    requires forall k :: 0 <= k < |s.acts| ==> ActOk(cfg, s, s.acts[k])
    requires forall c: Consumer, i: nat :: !DeliveryOf(s, c, i).Pending? ==> DeliveryOf(s', c, i) == DeliveryOf(s, c, i)
    ensures forall k :: 0 <= k < |s'.acts| ==> ActOk(cfg, s', s'.acts[k])
  {
    forall k | 0 <= k < |s'.acts| ensures ActOk(cfg, s', s'.acts[k]) {
      if k < |s.acts| {
        ActKept(cfg, s, s', k);
        assert s'.acts[k] == s.acts[k];
      }
    }
  }

  lemma NakDelayIsGood(cfg: Config, s: State, c: Consumer, i: nat)
    requires ConfigOk(cfg) && DeliveryOf(s, c, i).count >= 1 && !Terminal(cfg, s, c, i)
    ensures var n := DeliveryOf(s, c, i).count;
            n < TWO_64
            && var d := DelayForDelivery(cfg.parse, cfg.policy(c), n);
               d.Some? && GoodDelay(cfg, c, n, d.value)
  {
    var n := DeliveryOf(s, c, i).count;
    assert n < cfg.policy(c).maxDeliver <= MAX_INT64;
    DelayExact(cfg.parse, cfg.policy(c), n);
    var backoff := cfg.policy(c).backoff;
    assert Positive(cfg.parse, backoff[if n - 1 < |backoff| - 1 then n - 1 else |backoff| - 1]);
  }

  lemma StepHistory(cfg: Config, s: State, step: Step)
    requires ConfigOk(cfg) && Core(cfg, s) && HistoryOk(cfg, s)
    ensures HistoryOk(cfg, Apply(cfg, s, step))
  {
    var s' := Apply(cfg, s, step);
    match step {
      case Fetch(c, i) => FetchHistory(cfg, s, c, i);
      case Ack(c, io) => AckHistory(cfg, s, c, io);
      case Nak(c, io) => NakHistory(cfg, s, c, io);
      case Term(c, io) => TermHistory(cfg, s, c, io);
      case _ =>
        QuietSteps(cfg, s, step);
        QuietHistory(cfg, s, s');
    }
  }

  lemma QuietSteps(cfg: Config, s: State, step: Step)
    requires !step.Fetch? && !step.Ack? && !step.Nak? && !step.Term?
    ensures var s' := Apply(cfg, s, step);
            s.log <= s'.log && s'.deliveries == s.deliveries && s'.acts == s.acts
  {
  }

  lemma FetchHistory(cfg: Config, s: State, c: Consumer, i: nat)
    requires ConfigOk(cfg) && HistoryOk(cfg, s)
    ensures HistoryOk(cfg, FetchStep(cfg, s, c, i))
  {
    var s' := FetchStep(cfg, s, c, i);
    if s'.acts != s.acts {
      OneAct(cfg, s, s', c, i, DeliverAct(c, i, DeliveryOf(s, c, i).count + 1));
    } else {
      assert s' == s by { assert |s.acts| + 1 == |s.acts + [DeliverAct(c, i, 0)]|; }
    }
  }

  lemma AckHistory(cfg: Config, s: State, c: Consumer, io: Io)
    requires ConfigOk(cfg) && Core(cfg, s) && HistoryOk(cfg, s)
    ensures HistoryOk(cfg, AckStep(cfg, s, c, io))
  {
    var s' := AckStep(cfg, s, c, io);
    var pc := PcOf(s, c);
    if pc.Handled? && !io.Refused? {
      assert MessageOk(cfg, s, c, pc.sequence);
      OneAct(cfg, s, s', c, pc.sequence, AckAct(c, pc.sequence));
    } else {
      QuietHistory(cfg, s, s');
    }
  }

  lemma NakHistory(cfg: Config, s: State, c: Consumer, io: Io)
    requires ConfigOk(cfg) && Core(cfg, s) && HistoryOk(cfg, s)
    ensures HistoryOk(cfg, NakStep(cfg, s, c, io))
  {
    var s' := NakStep(cfg, s, c, io);
    var pc := PcOf(s, c);
    if pc.Errored? && !Terminal(cfg, s, c, pc.sequence) && !io.Refused? {
      assert MessageOk(cfg, s, c, pc.sequence);
      NakDelayIsGood(cfg, s, c, pc.sequence);
      var n := DeliveryOf(s, c, pc.sequence).count;
      var delay := DelayForDelivery(cfg.parse, cfg.policy(c), n).value;
      OneAct(cfg, s, s', c, pc.sequence, NakAct(c, pc.sequence, n, delay));
    } else {
      QuietHistory(cfg, s, s');
    }
  }

  lemma TermHistory(cfg: Config, s: State, c: Consumer, io: Io)
    requires ConfigOk(cfg) && Core(cfg, s) && HistoryOk(cfg, s)
    ensures HistoryOk(cfg, TermStep(cfg, s, c, io))
  {
    var s' := TermStep(cfg, s, c, io);
    var pc := PcOf(s, c);
    if pc.DeadLettered? && !io.Refused? {
      assert MessageOk(cfg, s, c, pc.sequence);
      assert s'.log[..|s.log|] == s.log;
      OneAct(cfg, s, s', c, pc.sequence, TermAct(c, pc.sequence, |s.log|));
    } else {
      QuietHistory(cfg, s, s');
    }
  }

  lemma {:induction false} RunHistory(cfg: Config, steps: seq<Step>)
    requires ConfigOk(cfg)
    ensures HistoryOk(cfg, Run(cfg, Init(), steps))
  {
    if steps != [] {
      var before := steps[..|steps| - 1];
      RunHistory(cfg, before);
      RunKeeps(cfg, before);
      StepHistory(cfg, Run(cfg, Init(), before), steps[|steps| - 1]);
    }
  }

  /** Over every run: a message is delivered at most MaxDeliver times to a consumer; it is
      never both acknowledged and terminated; a termination follows a stored dead letter
      with the original payload; and every negative acknowledgement asks for the positive
      backoff delay of its delivery number. */
  lemma DeliveryDiscipline(cfg: Config, steps: seq<Step>, c: Consumer, i: nat)
    requires ConfigOk(cfg)
    ensures var s := Run(cfg, Init(), steps);
            && CountDeliveries(s.acts, c, i) <= MaxDeliver(cfg, c)
            && !(AckAct(c, i) in s.acts && exists len: nat :: TermAct(c, i, len) in s.acts)
            && (forall len: nat :: TermAct(c, i, len) in s.acts ==>
                  i < len <= |s.log| && HasDeadLetter(s.log[..len], SourceOf(c), i))
            && (forall n: nat, delay: int :: NakAct(c, i, n, delay) in s.acts ==> GoodDelay(cfg, c, n, delay))
  {
    RunKeeps(cfg, steps);
    RunHistory(cfg, steps);
    var s := Run(cfg, Init(), steps);
    assert MessageOk(cfg, s, c, i);
    forall a | a in s.acts ensures ActOk(cfg, s, a) {
      var k :| 0 <= k < |s.acts| && s.acts[k] == a;
    }
  }
}
