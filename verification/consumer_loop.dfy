/** consumeJSONMessages of pkg/serverless/nats.go as a program over the shared queue state.
    Its executions are runs of the queue protocol, and it never returns to fetching
    without having settled the message in hand. */
module ConsumerLoop {
  import opened Subjects
  import opened Retry
  import opened Results
  import opened Queue
  import opened QueueSafety

  /** What the environment does to one fetched message: which message arrives, what the
      handler does, and how each call to the broker ends. */
  datatype Fate = Fate(
    sequence: nat,
    handler: Step,
    failedAt: nat,
    deadLetter: Io,
    term: Io,
    nak: Io,
    ack: Io)

  /** The handler step belongs to this consumer. */
  predicate HandlerOf(c: Consumer, step: Step) {
    match c
    case Invocations => step.HandleInvocation?
    case Dispatches(_, _) => step.HandleDispatch? && step.consumer == c
    case Outcomes => step.HandleOutcome?
    case Metrics => step.HandleMetric?
  }

  lemma RunSnoc(cfg: Config, s: State, steps: seq<Step>, step: Step)
    ensures Run(cfg, s, steps + [step]) == Apply(cfg, Run(cfg, s, steps), step)
  {
    assert (steps + [step])[..|steps|] == steps;
  }

  lemma ApplyTerm(cfg: Config, s: State, c: Consumer, io: Io)
    ensures Apply(cfg, s, Term(c, io)) == TermStep(cfg, s, c, io)
  {
  }

  lemma DeadLetterSnoc(cfg: Config, before: State, steps: seq<Step>, c: Consumer, failedAt: nat, io: Io)
    ensures DeadLetterStep(cfg, Run(cfg, before, steps), c, failedAt, io)
            == Run(cfg, before, steps + [PublishDeadLetter(c, failedAt, io)])
  {
    var s := Run(cfg, before, steps);
    RunSnoc(cfg, before, steps, PublishDeadLetter(c, failedAt, io));
    ApplyDeadLetter(cfg, s, c, failedAt, io);
  }

  lemma TermSnoc(cfg: Config, before: State, steps: seq<Step>, c: Consumer, io: Io)
    ensures TermStep(cfg, Run(cfg, before, steps), c, io) == Run(cfg, before, steps + [Term(c, io)])
  {
    var s := Run(cfg, before, steps);
    RunSnoc(cfg, before, steps, Term(c, io));
    ApplyTerm(cfg, s, c, io);
  }

  lemma DeadLetterOutcome(cfg: Config, s: State, c: Consumer, failedAt: nat, io: Io)
    requires var pc := PcOf(s, c);
             (pc.Fetched? || pc.Errored?) && pc.sequence < |s.log|
             && if pc.Fetched? then s.log[pc.sequence].body.Malformed? else Terminal(cfg, s, c, pc.sequence)
    ensures var s' := DeadLetterStep(cfg, s, c, failedAt, io);
            if io.Done? then PcOf(s', c) == DeadLettered(PcOf(s, c).sequence) && s'.lost == s.lost
            else PcOf(s', c).Idle?
  {
  }

  lemma StoredDeadLetter(cfg: Config, s: State, c: Consumer, failedAt: nat, io: Io)
    requires var pc := PcOf(s, c);
             (pc.Fetched? || pc.Errored?) && pc.sequence < |s.log|
             && if pc.Fetched? then s.log[pc.sequence].body.Malformed? else Terminal(cfg, s, c, pc.sequence)
    ensures var s' := DeadLetterStep(cfg, s, c, failedAt, io);
            && s.log <= s'.log && s'.deliveries == s.deliveries
            && (io.Done? && LogOk(cfg.prefix, s.log) ==> HasDeadLetter(s'.log, SourceOf(c), PcOf(s, c).sequence))
  {
    if LogOk(cfg.prefix, s.log) {
      DeadLetterStored(cfg, s, c, PcOf(s, c).sequence, failedAt);
    }
  }

  lemma TermOutcome(cfg: Config, s: State, c: Consumer, io: Io)
    requires PcOf(s, c).DeadLettered?
    ensures var s' := TermStep(cfg, s, c, io);
            PcOf(s', c).Idle? && s'.lost == s.lost && s'.log == s.log
            && (io.Done? ==> DeliveryOf(s', c, PcOf(s, c).sequence).Termed?)
  {
  }

  lemma FetchOutcome(cfg: Config, s: State, c: Consumer, i: nat)
    requires PcOf(s, c).Idle?
    ensures var s' := FetchStep(cfg, s, c, i);
            s'.lost == s.lost && s'.log == s.log
            && (PcOf(s', c).Idle? || (PcOf(s', c) == Fetched(i) && i < |s.log| && DeliveryOf(s', c, i).Pending?))
  {
  }

  lemma HandlerOutcome(cfg: Config, s: State, c: Consumer, step: Step)
    requires HandlerOf(c, step) && PcOf(s, c).Fetched?
    ensures var s' := Apply(cfg, s, step);
            var pc, pc' := PcOf(s, c), PcOf(s', c);
            SameDeliveries(s, s') && s'.lost == s.lost
            && (pc' == pc || pc' == Handled(pc.sequence) || pc' == Errored(pc.sequence))
  {
    match c {
      case Invocations => InvocationOutcome(cfg, s, step);
      case Dispatches(_, _) => DispatchOutcome(cfg, s, c, step);
      case Outcomes =>
      case Metrics =>
    }
  }

  lemma InvocationOutcome(cfg: Config, s: State, step: Step)
    requires step.HandleInvocation? && PcOf(s, Invocations).Fetched?
    ensures var s' := HandleInvocationStep(cfg, s, step.acquired, step.now, step.io);
            var pc, pc' := PcOf(s, Invocations), PcOf(s', Invocations);
            pc' == pc || pc' == Handled(pc.sequence) || pc' == Errored(pc.sequence)
  {
  }

  lemma DispatchOutcome(cfg: Config, s: State, c: Consumer, step: Step)
    requires step.HandleDispatch? && step.consumer == c && PcOf(s, c).Fetched?
    ensures var s' := HandleDispatchStep(cfg, s, c, step.outcome, step.startedAt, step.now, step.io);
            var pc, pc' := PcOf(s, c), PcOf(s', c);
            pc' == pc || pc' == Handled(pc.sequence) || pc' == Errored(pc.sequence)
  {
  }

  lemma AckOutcome(cfg: Config, s: State, c: Consumer, io: Io)
    requires PcOf(s, c).Handled?
    ensures var s' := AckStep(cfg, s, c, io);
            PcOf(s', c).Idle? && s'.lost == s.lost
            && (io.Done? ==> DeliveryOf(s', c, PcOf(s, c).sequence).Acked?)
  {
  }

  lemma NakOutcome(cfg: Config, s: State, c: Consumer, io: Io)
    requires PcOf(s, c).Errored? && !Terminal(cfg, s, c, PcOf(s, c).sequence)
    ensures var s' := NakStep(cfg, s, c, io);
            PcOf(s', c).Idle? && s'.lost == s.lost && s'.deliveries == s.deliveries
  {
  }

  class ConsumerProcess {
    const cfg: Config
    const consumer: Consumer
    var queue: State

    constructor (cfg: Config, consumer: Consumer, queue: State)
      ensures this.cfg == cfg && this.consumer == consumer && this.queue == queue
    {
      this.cfg, this.consumer, this.queue := cfg, consumer, queue;
    }

    /** deadLetterAndTerm; false means that the loop returns an error. */
    method DeadLetterAndTerm(fate: Fate, ghost before: State, ghost sofar: seq<Step>)
      returns (ok: bool, ghost trace: seq<Step>)
      requires queue == Run(cfg, before, sofar)
      requires var pc := PcOf(queue, consumer);
               (pc.Fetched? || pc.Errored?) && pc.sequence < |queue.log|
               && if pc.Fetched? then queue.log[pc.sequence].body.Malformed?
                  else Terminal(cfg, queue, consumer, pc.sequence)
      modifies this`queue
      ensures queue == Run(cfg, before, trace) && PcOf(queue, consumer).Idle?
      ensures ok ==> queue.lost == old(queue.lost)
                     && DeliveryOf(queue, consumer, old(PcOf(queue, consumer).sequence)).Termed?
      ensures old(PcOf(queue, consumer).sequence) < |queue.log|
      ensures ok && LogOk(cfg.prefix, old(queue.log)) ==>
                HasDeadLetter(queue.log, SourceOf(consumer), old(PcOf(queue, consumer).sequence))
      ensures !fate.deadLetter.Done? ==> queue.deliveries == old(queue.deliveries)
    {
      DeadLetterSnoc(cfg, before, sofar, consumer, fate.failedAt, fate.deadLetter);
      trace := sofar + [PublishDeadLetter(consumer, fate.failedAt, fate.deadLetter)];
      SendDeadLetter(fate);
      if !fate.deadLetter.Done? {
        return false, trace;
      }
      TermSnoc(cfg, before, trace, consumer, fate.term);
      trace := trace + [Term(consumer, fate.term)];
      SendTerm(fate);
      return fate.term.Done?, trace;
    }

    /** publishDeadLetter. */
    method SendDeadLetter(fate: Fate)
      requires var pc := PcOf(queue, consumer);
               (pc.Fetched? || pc.Errored?) && pc.sequence < |queue.log|
               && if pc.Fetched? then queue.log[pc.sequence].body.Malformed?
                  else Terminal(cfg, queue, consumer, pc.sequence)
      modifies this`queue
      ensures queue == DeadLetterStep(cfg, old(queue), consumer, fate.failedAt, fate.deadLetter)
      ensures if fate.deadLetter.Done?
              then PcOf(queue, consumer) == DeadLettered(old(PcOf(queue, consumer).sequence))
                   && queue.lost == old(queue.lost)
              else PcOf(queue, consumer).Idle?
      ensures old(queue.log) <= queue.log && queue.deliveries == old(queue.deliveries)
      ensures fate.deadLetter.Done? && LogOk(cfg.prefix, old(queue.log)) ==>
                HasDeadLetter(queue.log, SourceOf(consumer), old(PcOf(queue, consumer).sequence))
    {
      StoredDeadLetter(cfg, queue, consumer, fate.failedAt, fate.deadLetter);
      DeadLetterOutcome(cfg, queue, consumer, fate.failedAt, fate.deadLetter);
      queue := DeadLetterStep(cfg, queue, consumer, fate.failedAt, fate.deadLetter);
    }

    /** TermWithReason. */
    method SendTerm(fate: Fate)
      requires PcOf(queue, consumer).DeadLettered?
      modifies this`queue
      ensures queue == TermStep(cfg, old(queue), consumer, fate.term)
      ensures PcOf(queue, consumer).Idle? && queue.lost == old(queue.lost) && queue.log == old(queue.log)
      ensures fate.term.Done? ==> DeliveryOf(queue, consumer, old(PcOf(queue, consumer).sequence)).Termed?
    {
      TermOutcome(cfg, queue, consumer, fate.term);
      queue := TermStep(cfg, queue, consumer, fate.term);
    }

    /** The message was handled, or refused by its handler: acknowledge, dead-letter or ask
        for redelivery. */
    method Settle(fate: Fate, ghost before: State, ghost sofar: seq<Step>)
      returns (ok: bool, ghost trace: seq<Step>)
      requires queue == Run(cfg, before, sofar)
      requires var pc := PcOf(queue, consumer);
               (pc.Handled? || pc.Errored?) && pc.sequence < |queue.log| && DeliveryOf(queue, consumer, pc.sequence).Pending?
      modifies this`queue
      ensures queue == Run(cfg, before, trace) && PcOf(queue, consumer).Idle?
      ensures ok ==> queue.lost == old(queue.lost)
                     && var i := old(PcOf(queue, consumer).sequence);
                        var d := DeliveryOf(queue, consumer, i);
                        (d.Acked? <==> old(PcOf(queue, consumer).Handled?))
                        && (d.Termed? || d.Acked? || d == old(DeliveryOf(queue, consumer, i)))
                        && (!d.Termed? && !d.Acked? ==> d.count < MaxDeliver(cfg, consumer))
    {
      trace := sofar;
      var pc := PcOf(queue, consumer);
      if pc.Errored? {
        if Terminal(cfg, queue, consumer, pc.sequence) {
          ok, trace := DeadLetterAndTerm(fate, before, trace);
          return;
        }
        NakOutcome(cfg, queue, consumer, fate.nak);
        RunSnoc(cfg, before, trace, Nak(consumer, fate.nak));
        queue := NakStep(cfg, queue, consumer, fate.nak);
        trace := trace + [Nak(consumer, fate.nak)];
        return fate.nak.Done?, trace;
      }
      AckOutcome(cfg, queue, consumer, fate.ack);
      RunSnoc(cfg, before, trace, Ack(consumer, fate.ack));
      queue := AckStep(cfg, queue, consumer, fate.ack);
      trace := trace + [Ack(consumer, fate.ack)];
      return fate.ack.Done?, trace;
    }

    /** One batch: fetch, decode, handle, settle.  A batch that delivers nothing is empty. */
    method ConsumeOne(fate: Fate, ghost before: State, ghost sofar: seq<Step>) returns (ok: bool, ghost trace: seq<Step>)
      requires queue == Run(cfg, before, sofar) && PcOf(queue, consumer).Idle? && HandlerOf(consumer, fate.handler)
      modifies this`queue
      ensures queue == Run(cfg, before, trace) && PcOf(queue, consumer).Idle?
      ensures ok ==> queue.lost == old(queue.lost)
    {
      FetchOutcome(cfg, queue, consumer, fate.sequence);
      RunSnoc(cfg, before, sofar, Fetch(consumer, fate.sequence));
      queue := FetchStep(cfg, queue, consumer, fate.sequence);
      trace := sofar + [Fetch(consumer, fate.sequence)];
      if PcOf(queue, consumer).Idle? {
        return true, trace;
      }
      if queue.log[fate.sequence].body.Malformed? {
        ok, trace := DeadLetterAndTerm(fate, before, trace);
        return;
      }
      ok, trace := HandleAndSettle(fate, before, trace);
    }

    /** Call the handler on the decoded message and settle it. */
    method HandleAndSettle(fate: Fate, ghost before: State, ghost sofar: seq<Step>) returns (ok: bool, ghost trace: seq<Step>)
      requires queue == Run(cfg, before, sofar) && HandlerOf(consumer, fate.handler)
      requires PcOf(queue, consumer) == Fetched(fate.sequence) && fate.sequence < |queue.log|
      requires DeliveryOf(queue, consumer, fate.sequence).Pending?
      modifies this`queue
      ensures queue == Run(cfg, before, trace) && PcOf(queue, consumer).Idle?
      ensures ok ==> queue.lost == old(queue.lost)
    {
      HandlerOutcome(cfg, queue, consumer, fate.handler);
      RunSnoc(cfg, before, sofar, fate.handler);
      queue := Apply(cfg, queue, fate.handler);
      trace := sofar + [fate.handler];
      if PcOf(queue, consumer).Fetched? {
        // The handler step did not apply to this message: the process is taken away.
        RunSnoc(cfg, before, trace, Stop(consumer));
        queue := Abandon(cfg, queue, consumer);
        trace := trace + [Stop(consumer)];
        return false, trace;
      }
      ok, trace := Settle(fate, before, trace);
    }

    /** The loop over the batches.  While it keeps going (ok), it abandons no message; it
        always ends between messages. */
    method ConsumeMessages(fates: seq<Fate>) returns (ok: bool, ghost trace: seq<Step>)
      requires PcOf(queue, consumer).Idle?
      requires forall k :: 0 <= k < |fates| ==> HandlerOf(consumer, fates[k].handler)
      modifies this`queue
      ensures queue == Run(cfg, old(queue), trace)
      ensures PcOf(queue, consumer).Idle?
      ensures ok ==> queue.lost == old(queue.lost)
    {
      ghost var start := queue;
      trace := [];
      var k := 0;
      while k < |fates|
        invariant 0 <= k <= |fates|
        invariant queue == Run(cfg, start, trace)
        invariant PcOf(queue, consumer).Idle?
        invariant queue.lost == start.lost
      {
        ok, trace := ConsumeOne(fates[k], start, trace);
        if !ok {
          return;
        }
        k := k + 1;
      }
      ok := true;
    }
  }
}
