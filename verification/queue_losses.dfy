/** Which messages a run of the queue protocol loses (pkg/serverless/nats.go): exactly those
    whose consumer goes away during their last permitted delivery, before they were handled
    or dead-lettered.  They are never delivered again and never get a dead letter. */
module QueueLosses {
  import opened Text
  import opened Subjects
  import opened Retry
  import opened Results
  import opened Queue
  import opened QueueSafety

  // ---------------------------------------------------------------- when a loss happens

  /** The step takes a consumer away during a message's last permitted delivery, before the
      message was handled or dead-lettered: the process stops, or its dead-letter publish is
      refused and the loop returns the error. */
  predicate FinalStop(cfg: Config, s: State, step: Step) {
    && (step.Stop? || step.PublishDeadLetter?)
    && var pc := PcOf(s, step.consumer);
       && (pc.Fetched? || pc.Errored?)
       && Terminal(cfg, s, step.consumer, pc.sequence)
       && (step.PublishDeadLetter? ==>
             && step.io.Refused? && pc.sequence < |s.log|
             && (pc.Fetched? ==> s.log[pc.sequence].body.Malformed?))
  }

  predicate FinalStopOn(cfg: Config, s: State, step: Step, c: Consumer, i: nat) {
    FinalStop(cfg, s, step) && step.consumer == c && PcOf(s, c).sequence == i
  }

  lemma AckLosesNothing(cfg: Config, s: State, c: Consumer, io: Io)
    ensures AckStep(cfg, s, c, io).lost == s.lost
  {
  }

  lemma NakLosesNothing(cfg: Config, s: State, c: Consumer, io: Io)
    ensures NakStep(cfg, s, c, io).lost == s.lost
  {
  }

  lemma AbandonLosesExactly(cfg: Config, s: State, c: Consumer)
    ensures var pc := PcOf(s, c);
            Abandon(cfg, s, c).lost ==
            s.lost + if (pc.Fetched? || pc.Errored?) && Terminal(cfg, s, c, pc.sequence) then {(c, pc.sequence)} else {}
  {
  }

  /** A step abandons a message exactly if it is a final stop on it. */
  lemma StepLosesExactly(cfg: Config, s: State, step: Step, c: Consumer, i: nat)
    ensures (c, i) in Apply(cfg, s, step).lost <==> (c, i) in s.lost || FinalStopOn(cfg, s, step, c, i)
  {
    match step {
      case Ack(d, io) => AckLosesNothing(cfg, s, d, io);
      case Nak(d, io) => NakLosesNothing(cfg, s, d, io);
      case Stop(d) => AbandonLosesExactly(cfg, s, d);
      case PublishDeadLetter(d, failedAt, io) => AbandonLosesExactly(cfg, s, d);
      case _ =>
    }
  }

  /** Some step of the run was a final stop on the message. */
  ghost predicate FinalStopSometime(cfg: Config, steps: seq<Step>, c: Consumer, i: nat) {
    steps != []
    && var before, last := steps[..|steps| - 1], steps[|steps| - 1];
       FinalStopSometime(cfg, before, c, i) || FinalStopOn(cfg, Run(cfg, Init(), before), last, c, i)
  }

  /** Over every run: a message is lost exactly if some step was a final stop on it. */
  lemma {:induction false} LostExactly(cfg: Config, steps: seq<Step>, c: Consumer, i: nat)
    ensures (c, i) in Run(cfg, Init(), steps).lost <==> FinalStopSometime(cfg, steps, c, i)
  {
    if steps != [] {
      var before, last := steps[..|steps| - 1], steps[|steps| - 1];
      LostExactly(cfg, before, c, i);
      StepLosesExactly(cfg, Run(cfg, Init(), before), last, c, i);
    }
  }

  ghost predicate NoFinalStop(cfg: Config, steps: seq<Step>) {
    forall k :: 0 <= k < |steps| ==> !FinalStop(cfg, Run(cfg, Init(), steps[..k]), steps[k])
  }

  lemma {:induction false} NoneSometime(cfg: Config, steps: seq<Step>, c: Consumer, i: nat)
    requires NoFinalStop(cfg, steps)
    ensures !FinalStopSometime(cfg, steps, c, i)
  {
    if steps != [] {
      var n := |steps| - 1;
      var before := steps[..n];
      forall k | 0 <= k < n ensures !FinalStop(cfg, Run(cfg, Init(), before[..k]), before[k]) {
        assert before[..k] == steps[..k];
        assert !FinalStop(cfg, Run(cfg, Init(), steps[..k]), steps[k]);
      }
      NoneSometime(cfg, before, c, i);
      assert !FinalStop(cfg, Run(cfg, Init(), before), steps[n]);
    }
  }

  /** Without such a step nothing is lost. */
  lemma NothingLost(cfg: Config, steps: seq<Step>)
    requires NoFinalStop(cfg, steps)
    ensures Run(cfg, Init(), steps).lost == {}
  {
    var lost := Run(cfg, Init(), steps).lost;
    forall p: (Consumer, nat) ensures p !in lost {
      NoneSometime(cfg, steps, p.0, p.1);
      LostExactly(cfg, steps, p.0, p.1);
    }
  }

  // ------------------------------------------------------------------ lost for good

  /** The permitted deliveries are used up, and nobody is at the message. */
  ghost predicate Gone(cfg: Config, s: State, c: Consumer, i: nat) {
    DeliveryOf(s, c, i).Pending? && DeliveryOf(s, c, i).count >= MaxDeliver(cfg, c) && !At(PcOf(s, c), i)
  }

  /** Where a step other than a fetch can take a program counter. */
  predicate Moves(pc: Pc, pc': Pc) {
    || pc' == pc
    || pc'.Idle?
    || ((pc.Fetched? || pc.Errored?) && pc'.sequence == pc.sequence
        && if pc.Fetched? then !pc'.Fetched? else pc'.DeadLettered?)
  }

  lemma InvocationMoves(cfg: Config, s: State, acquired: Acquired, now: int, io: Io, c: Consumer)
    ensures Moves(PcOf(s, c), PcOf(HandleInvocationStep(cfg, s, acquired, now, io), c))
  {
  }

  lemma DispatchMoves(cfg: Config, s: State, d: Consumer, outcome: FrameworkOutcome, startedAt: int, now: int, io: Io, c: Consumer)
    ensures Moves(PcOf(s, c), PcOf(HandleDispatchStep(cfg, s, d, outcome, startedAt, now, io), c))
  {
  }

  lemma OutcomeMoves(cfg: Config, s: State, now: int, io: Io, c: Consumer)
    ensures Moves(PcOf(s, c), PcOf(HandleOutcomeStep(cfg, s, now, io), c))
  {
  }

  lemma AckMoves(cfg: Config, s: State, d: Consumer, io: Io, c: Consumer, i: nat)
    ensures Moves(PcOf(s, c), PcOf(AckStep(cfg, s, d, io), c))
    ensures DeliveryOf(AckStep(cfg, s, d, io), c, i).count == DeliveryOf(s, c, i).count
    ensures !At(PcOf(s, c), i) ==> DeliveryOf(AckStep(cfg, s, d, io), c, i) == DeliveryOf(s, c, i)
  {
  }

  lemma NakMoves(cfg: Config, s: State, d: Consumer, io: Io, c: Consumer, i: nat)
    ensures Moves(PcOf(s, c), PcOf(NakStep(cfg, s, d, io), c))
    ensures DeliveryOf(NakStep(cfg, s, d, io), c, i) == DeliveryOf(s, c, i)
  {
  }

  lemma DeadLetterMoves(cfg: Config, s: State, d: Consumer, failedAt: nat, io: Io, c: Consumer)
    ensures Moves(PcOf(s, c), PcOf(DeadLetterStep(cfg, s, d, failedAt, io), c))
  {
  }

  lemma TermMoves(cfg: Config, s: State, d: Consumer, io: Io, c: Consumer, i: nat)
    ensures Moves(PcOf(s, c), PcOf(TermStep(cfg, s, d, io), c))
    ensures DeliveryOf(TermStep(cfg, s, d, io), c, i).count == DeliveryOf(s, c, i).count
    ensures !At(PcOf(s, c), i) ==> DeliveryOf(TermStep(cfg, s, d, io), c, i) == DeliveryOf(s, c, i)
  {
  }

  /** Only a fetch counts a delivery or begins with a message, and only the consumer that is
      at a message settles it. */
  ghost predicate MovesOne(s: State, s': State, c: Consumer, i: nat) {
    && Moves(PcOf(s, c), PcOf(s', c))
    && DeliveryOf(s', c, i).count == DeliveryOf(s, c, i).count
    && (!At(PcOf(s, c), i) ==> DeliveryOf(s', c, i) == DeliveryOf(s, c, i))
  }

  lemma HandlerMoves(cfg: Config, s: State, step: Step, c: Consumer, i: nat)
    requires step.HandleInvocation? || step.HandleDispatch? || step.HandleOutcome? || step.HandleMetric?
    ensures MovesOne(s, Apply(cfg, s, step), c, i)
  {
    match step {
      case HandleInvocation(acquired, now, io) => InvocationMoves(cfg, s, acquired, now, io, c);
      case HandleDispatch(d, outcome, startedAt, now, io) => DispatchMoves(cfg, s, d, outcome, startedAt, now, io, c);
      case HandleOutcome(now, io) => OutcomeMoves(cfg, s, now, io, c);
      case HandleMetric =>
    }
  }

  lemma SettlingMoves(cfg: Config, s: State, step: Step, c: Consumer, i: nat)
    requires step.Ack? || step.Nak? || step.PublishDeadLetter? || step.Term?
    ensures MovesOne(s, Apply(cfg, s, step), c, i)
  {
    match step {
      case Ack(d, io) => AckMoves(cfg, s, d, io, c, i);
      case Nak(d, io) => NakMoves(cfg, s, d, io, c, i);
      case PublishDeadLetter(d, failedAt, io) => DeadLetterMoves(cfg, s, d, failedAt, io, c);
      case Term(d, io) => TermMoves(cfg, s, d, io, c, i);
    }
  }

  lemma StepMoves(cfg: Config, s: State, step: Step, c: Consumer, i: nat)
    requires !step.Fetch?
    ensures MovesOne(s, Apply(cfg, s, step), c, i)
  {
    if step.HandleInvocation? || step.HandleDispatch? || step.HandleOutcome? || step.HandleMetric? {
      HandlerMoves(cfg, s, step, c, i);
    } else if step.Ack? || step.Nak? || step.PublishDeadLetter? || step.Term? {
      SettlingMoves(cfg, s, step, c, i);
    }
  }

  lemma StepKeepsGone(cfg: Config, s: State, step: Step, c: Consumer, i: nat)
    requires Gone(cfg, s, c, i)
    ensures Gone(cfg, Apply(cfg, s, step), c, i)
  {
    if !step.Fetch? {
      StepMoves(cfg, s, step, c, i);
    }
  }

  lemma FinalStopGone(cfg: Config, s: State, step: Step, c: Consumer, i: nat)
    requires Core(cfg, s) && FinalStopOn(cfg, s, step, c, i)
    ensures Gone(cfg, Apply(cfg, s, step), c, i)
  {
    assert MessageOk(cfg, s, c, i);
  }

  lemma {:induction false} LostIsGone(cfg: Config, steps: seq<Step>, c: Consumer, i: nat)
    requires ConfigOk(cfg) && (c, i) in Run(cfg, Init(), steps).lost
    ensures Gone(cfg, Run(cfg, Init(), steps), c, i)
  {
    if steps != [] {
      var before, step := steps[..|steps| - 1], steps[|steps| - 1];
      var s := Run(cfg, Init(), before);
      StepLosesExactly(cfg, s, step, c, i);
      if (c, i) in s.lost {
        LostIsGone(cfg, before, c, i);
        StepKeepsGone(cfg, s, step, c, i);
      } else {
        RunKeeps(cfg, before);
        FinalStopGone(cfg, s, step, c, i);
      }
    }
  }

  lemma {:induction false} LostStays(cfg: Config, s: State, more: seq<Step>, c: Consumer, i: nat)
    requires (c, i) in s.lost
    ensures (c, i) in Run(cfg, s, more).lost
  {
    if more != [] {
      LostStays(cfg, s, more[..|more| - 1], c, i);
      StepLosesExactly(cfg, Run(cfg, s, more[..|more| - 1]), more[|more| - 1], c, i);
    }
  }

  lemma {:induction false} RunConcat(cfg: Config, s: State, steps: seq<Step>, more: seq<Step>)
    ensures Run(cfg, s, steps + more) == Run(cfg, Run(cfg, s, steps), more)
  {
    if more == [] {
      assert steps + more == steps;
    } else {
      RunConcat(cfg, s, steps, more[..|more| - 1]);
      assert (steps + more)[..|steps + more| - 1] == steps + more[..|more| - 1];
    }
  }

  /** A lost message is lost and dead after every continuation of the run. */
  lemma LostForGood(cfg: Config, steps: seq<Step>, more: seq<Step>, c: Consumer, i: nat)
    requires ConfigOk(cfg) && (c, i) in Run(cfg, Init(), steps).lost
    ensures var s := Run(cfg, Init(), steps + more); (c, i) in s.lost && !Alive(cfg, s, c, i)
  {
    RunConcat(cfg, Init(), steps, more);
    LostStays(cfg, Run(cfg, Init(), steps), more, c, i);
    LostIsGone(cfg, steps + more, c, i);
  }

  // ------------------------------------------------------------- and no dead letter

  /** The consumer is through with the message, and did not lose it. */
  ghost predicate Through(cfg: Config, s: State, c: Consumer, i: nat) {
    && DeliveryOf(s, c, i).count >= MaxDeliver(cfg, c)
    && (c, i) !in s.lost
    && PcOf(s, c) != Fetched(i) && PcOf(s, c) != Errored(i)
  }

  lemma StepKeepsThrough(cfg: Config, s: State, step: Step, c: Consumer, i: nat)
    requires Through(cfg, s, c, i)
    ensures Through(cfg, Apply(cfg, s, step), c, i)
  {
    StepLosesExactly(cfg, s, step, c, i);
    assert !FinalStopOn(cfg, s, step, c, i);
    if !step.Fetch? {
      StepMoves(cfg, s, step, c, i);
    }
  }

  /** Only a dead-letter step puts a dead letter into the stream. */
  lemma NoNewDeadLetter(cfg: Config, s: State, step: Step)
    requires !step.PublishDeadLetter?
    ensures var log := Apply(cfg, s, step).log;
            log == s.log || (|log| == |s.log| + 1 && log[..|s.log|] == s.log && !log[|s.log|].body.DeadLetter?)
  {
    match step {
      case HandleInvocation(acquired, now, io) => InvocationAppends(cfg, s, acquired, now, io);
      case HandleDispatch(c, outcome, startedAt, now, io) => DispatchAppends(cfg, s, c, outcome, startedAt, now, io);
      case _ =>
    }
  }

  lemma InvocationAppends(cfg: Config, s: State, acquired: Acquired, now: int, io: Io)
    ensures var log := HandleInvocationStep(cfg, s, acquired, now, io).log;
            log == s.log || (|log| == |s.log| + 1 && log[..|s.log|] == s.log && !log[|s.log|].body.DeadLetter?)
  {
  }

  lemma DispatchAppends(cfg: Config, s: State, c: Consumer, outcome: FrameworkOutcome, startedAt: int, now: int, io: Io)
    ensures var log := HandleDispatchStep(cfg, s, c, outcome, startedAt, now, io).log;
            log == s.log || (|log| == |s.log| + 1 && log[..|s.log|] == s.log && !log[|s.log|].body.DeadLetter?)
  {
  }

  /** Some consumer of that source is through with the message. */
  ghost predicate SomeoneThrough(cfg: Config, s: State, source: Source, i: nat) {
    exists c: Consumer :: SourceOf(c) == source && Through(cfg, s, c, i)
  }

  /** A dead letter of a message that can be decoded shows that. */
  ghost predicate DeadLetterOk(cfg: Config, s: State, source: Source, i: nat) {
    i < |s.log| && !s.log[i].body.Malformed? && HasDeadLetter(s.log, source, i) ==> SomeoneThrough(cfg, s, source, i)
  }

  lemma SomeoneStaysThrough(cfg: Config, s: State, step: Step, source: Source, i: nat)
    requires SomeoneThrough(cfg, s, source, i)
    ensures SomeoneThrough(cfg, Apply(cfg, s, step), source, i)
  {
    var c: Consumer :| SourceOf(c) == source && Through(cfg, s, c, i);
    StepKeepsThrough(cfg, s, step, c, i);
  }

  /** No dead letter precedes its message. */
  lemma NoDeadLetterYet(prefix: string, log: seq<Entry>, source: Source, i: nat)
    requires LogOk(prefix, log) && i < |log| && forall k :: 0 <= k < |log| && log[k].body.DeadLetter? ==> k < i
    ensures !HasDeadLetter(log, source, i)
  {
    forall k | 0 <= k < |log| ensures !IsDeadLetterOf(log[k], source, i, log[i].body) {
      assert EntryOk(prefix, log, k);
    }
  }

  lemma OldDeadLetter(log: seq<Entry>, log': seq<Entry>, source: Source, i: nat)
    requires log <= log' && i < |log| && HasDeadLetter(log', source, i)
    requires |log'| <= |log| + 1 && (|log'| > |log| ==> !IsDeadLetterOf(log'[|log|], source, i, log[i].body))
    ensures HasDeadLetter(log, source, i)
  {
    var k :| 0 <= k < |log'| && IsDeadLetterOf(log'[k], source, i, log'[i].body);
    assert k < |log| && log'[k] == log[k] && log'[i] == log[i];
  }

  lemma QuietDeadLetterOk(cfg: Config, s: State, step: Step, source: Source, i: nat)
    requires ConfigOk(cfg) && Core(cfg, s) && DeadLetterOk(cfg, s, source, i) && !step.PublishDeadLetter?
    ensures DeadLetterOk(cfg, Apply(cfg, s, step), source, i)
  {
    if i < |s.log| {
      OldDeadLetterOk(cfg, s, step, source, i);
    } else {
      StepKeeps(cfg, s, step);
      NewDeadLetterless(cfg, s, step, source, i);
    }
  }

  lemma NewDeadLetterless(cfg: Config, s: State, step: Step, source: Source, i: nat)
    requires LogOk(cfg.prefix, Apply(cfg, s, step).log) && !step.PublishDeadLetter? && i >= |s.log|
    requires LogOk(cfg.prefix, s.log)
    ensures i < |Apply(cfg, s, step).log| ==> !HasDeadLetter(Apply(cfg, s, step).log, source, i)
  {
    var log := Apply(cfg, s, step).log;
    NoNewDeadLetter(cfg, s, step);
    if i < |log| {
      NoDeadLetterYet(cfg.prefix, log, source, i);
    }
  }

  lemma OldDeadLetterOk(cfg: Config, s: State, step: Step, source: Source, i: nat)
    requires DeadLetterOk(cfg, s, source, i) && !step.PublishDeadLetter? && i < |s.log|
    ensures DeadLetterOk(cfg, Apply(cfg, s, step), source, i)
  {
    var log := Apply(cfg, s, step).log;
    NoNewDeadLetter(cfg, s, step);
    if !log[i].body.Malformed? && HasDeadLetter(log, source, i) {
      OldDeadLetter(s.log, log, source, i);
      SomeoneStaysThrough(cfg, s, step, source, i);
    }
  }

  /** The dead letter of a message in hand: its consumer is through with it. */
  lemma NewDeadLetterOk(cfg: Config, s: State, c: Consumer, failedAt: nat, io: Io, source: Source, i: nat)
    requires ConfigOk(cfg) && Core(cfg, s) && DeadLetterOk(cfg, s, source, i)
    requires forall d: Consumer, j: nat :: (d, j) in s.lost ==> Gone(cfg, s, d, j)
    ensures DeadLetterOk(cfg, Apply(cfg, s, PublishDeadLetter(c, failedAt, io)), source, i)
  {
    var step := PublishDeadLetter(c, failedAt, io);
    var s' := Apply(cfg, s, step);
    StepKeeps(cfg, s, step);
    if i < |s'.log| && !s'.log[i].body.Malformed? && HasDeadLetter(s'.log, source, i) {
      if i >= |s.log| {
        AppendedIsNoTarget(cfg, s, c, failedAt, io, source, i);
      } else if |s'.log| > |s.log| && IsDeadLetterOf(s'.log[|s.log|], source, i, s.log[i].body) {
        NowThrough(cfg, s, c, failedAt, io, i);
      } else {
        assert s'.log[i] == s.log[i];
        OldDeadLetter(s.log, s'.log, source, i);
        SomeoneStaysThrough(cfg, s, step, source, i);
      }
    }
  }

  lemma AppendedIsNoTarget(cfg: Config, s: State, c: Consumer, failedAt: nat, io: Io, source: Source, i: nat)
    requires LogOk(cfg.prefix, s.log) && LogOk(cfg.prefix, DeadLetterStep(cfg, s, c, failedAt, io).log)
    requires |s.log| <= i < |DeadLetterStep(cfg, s, c, failedAt, io).log|
    ensures !HasDeadLetter(DeadLetterStep(cfg, s, c, failedAt, io).log, source, i)
  {
    var log := DeadLetterStep(cfg, s, c, failedAt, io).log;
    forall k | 0 <= k < |log| ensures !IsDeadLetterOf(log[k], source, i, log[i].body) {
      assert EntryOk(cfg.prefix, log, k);
    }
  }

  lemma NowThrough(cfg: Config, s: State, c: Consumer, failedAt: nat, io: Io, i: nat)
    requires i < |s.log| && !s.log[i].body.Malformed?
    requires forall d: Consumer, j: nat :: (d, j) in s.lost ==> Gone(cfg, s, d, j)
    requires var log := DeadLetterStep(cfg, s, c, failedAt, io).log;
             |log| > |s.log| && log[|s.log|].body.DeadLetter? && log[|s.log|].body.sequence == i
    ensures var s' := DeadLetterStep(cfg, s, c, failedAt, io);
            Through(cfg, s', c, i) && s'.log[|s.log|].body.source == SourceOf(c)
  {
    assert PcOf(s, c) == Errored(i) && !io.Refused?;
    assert (c, i) in s.lost ==> Gone(cfg, s, c, i);
  }

  lemma {:induction false} RunDeadLetterOk(cfg: Config, steps: seq<Step>, source: Source, i: nat)
    requires ConfigOk(cfg)
    ensures DeadLetterOk(cfg, Run(cfg, Init(), steps), source, i)
  {
    if steps != [] {
      var before, step := steps[..|steps| - 1], steps[|steps| - 1];
      var s := Run(cfg, Init(), before);
      RunDeadLetterOk(cfg, before, source, i);
      RunKeeps(cfg, before);
      if step.PublishDeadLetter? {
        forall d: Consumer, j: nat | (d, j) in s.lost ensures Gone(cfg, s, d, j) {
          LostIsGone(cfg, before, d, j);
        }
        NewDeadLetterOk(cfg, s, step.consumer, step.failedAt, step.io, source, i);
      } else {
        QuietDeadLetterOk(cfg, s, step, source, i);
      }
    }
  }

  /** No other consumer of the same source has ever been given the message. */
  ghost predicate OnlyReceiver(s: State, c: Consumer, i: nat) {
    forall d: Consumer :: d != c && SourceOf(d) == SourceOf(c) ==> DeliveryOf(s, d, i).count == 0
  }

  /** A lost message that could be decoded never gets a dead letter. */
  lemma LostHasNoDeadLetter(cfg: Config, steps: seq<Step>, c: Consumer, i: nat)
    requires ConfigOk(cfg)
    requires var s := Run(cfg, Init(), steps);
             (c, i) in s.lost && i < |s.log| && !s.log[i].body.Malformed? && OnlyReceiver(s, c, i)
    ensures !HasDeadLetter(Run(cfg, Init(), steps).log, SourceOf(c), i)
  {
    var s := Run(cfg, Init(), steps);
    RunDeadLetterOk(cfg, steps, SourceOf(c), i);
    forall d: Consumer | SourceOf(d) == SourceOf(c) ensures !Through(cfg, s, d, i) {
      assert cfg.policy(d).maxDeliver > 0;
    }
  }

  // -------------------------------------------------- which messages get a dead letter

  /** The step stores a dead letter of message i of that source. */
  predicate StoresDeadLetter(cfg: Config, s: State, step: Step, source: Source, i: nat) {
    && step.PublishDeadLetter? && !step.io.Refused? && SourceOf(step.consumer) == source
    && var pc := PcOf(s, step.consumer);
       && (pc.Fetched? || pc.Errored?) && pc.sequence == i < |s.log|
       && if pc.Fetched? then s.log[i].body.Malformed? else Terminal(cfg, s, step.consumer, i)
  }

  /** Some step of the run did. */
  ghost predicate StoredSometime(cfg: Config, steps: seq<Step>, source: Source, i: nat) {
    steps != []
    && var before, last := steps[..|steps| - 1], steps[|steps| - 1];
       StoredSometime(cfg, before, source, i) || StoresDeadLetter(cfg, Run(cfg, Init(), before), last, source, i)
  }

  lemma StoringAdds(cfg: Config, s: State, step: Step, source: Source, i: nat)
    requires Core(cfg, s) && StoresDeadLetter(cfg, s, step, source, i)
    ensures i < |Apply(cfg, s, step).log| && HasDeadLetter(Apply(cfg, s, step).log, source, i)
  {
    DeadLetterStored(cfg, s, step.consumer, i, step.failedAt);
  }

  lemma OnlyStoringAdds(cfg: Config, s: State, c: Consumer, failedAt: nat, io: Io, source: Source, i: nat)
    requires i < |s.log| && !StoresDeadLetter(cfg, s, PublishDeadLetter(c, failedAt, io), source, i)
    requires HasDeadLetter(DeadLetterStep(cfg, s, c, failedAt, io).log, source, i)
    ensures HasDeadLetter(s.log, source, i)
  {
    OldDeadLetter(s.log, DeadLetterStep(cfg, s, c, failedAt, io).log, source, i);
  }

  lemma StepDeadLetters(cfg: Config, s: State, step: Step, source: Source, i: nat)
    requires ConfigOk(cfg) && Core(cfg, s)
    ensures var s' := Apply(cfg, s, step);
            DeadLettered(s', source, i) <==> DeadLettered(s, source, i) || StoresDeadLetter(cfg, s, step, source, i)
  {
    var s' := Apply(cfg, s, step);
    LogGrows(cfg, s, step);
    StepKeeps(cfg, s, step);
    if StoresDeadLetter(cfg, s, step, source, i) {
      StoringAdds(cfg, s, step, source, i);
    } else if i < |s.log| {
      if HasDeadLetter(s.log, source, i) {
        DeadLetterMonotone(s.log, s'.log, source, i);
      } else if step.PublishDeadLetter? {
        if HasDeadLetter(s'.log, source, i) {
          OnlyStoringAdds(cfg, s, step.consumer, step.failedAt, step.io, source, i);
        }
      } else {
        NoNewDeadLetter(cfg, s, step);
        if HasDeadLetter(s'.log, source, i) {
          OldDeadLetter(s.log, s'.log, source, i);
        }
      }
    } else if i < |s'.log| {
      NewMessageHasNone(cfg, s, step, source, i);
    }
  }

  lemma NewMessageHasNone(cfg: Config, s: State, step: Step, source: Source, i: nat)
    requires LogOk(cfg.prefix, s.log) && LogOk(cfg.prefix, Apply(cfg, s, step).log)
    requires |s.log| <= i < |Apply(cfg, s, step).log|
    ensures !HasDeadLetter(Apply(cfg, s, step).log, source, i)
  {
    if step.PublishDeadLetter? {
      AppendedIsNoTarget(cfg, s, step.consumer, step.failedAt, step.io, source, i);
    } else {
      NewDeadLetterless(cfg, s, step, source, i);
    }
  }

  ghost predicate DeadLettered(s: State, source: Source, i: nat) {
    i < |s.log| && HasDeadLetter(s.log, source, i)
  }

  /** Over every run: the stream holds a dead letter of a message exactly if some step stored
      one, for a message that could not be decoded or on its last permitted delivery. */
  lemma {:induction false} DeadLetteredExactly(cfg: Config, steps: seq<Step>, source: Source, i: nat)
    requires ConfigOk(cfg)
    ensures DeadLettered(Run(cfg, Init(), steps), source, i) <==> StoredSometime(cfg, steps, source, i)
  {
    if steps != [] {
      var before, last := steps[..|steps| - 1], steps[|steps| - 1];
      DeadLetteredExactly(cfg, before, source, i);
      RunKeeps(cfg, before);
      StepDeadLetters(cfg, Run(cfg, Init(), before), last, source, i);
    }
  }

  /** So a lost message has a dead letter exactly if it could not be decoded and one was stored
      in some delivery; and the message was never terminated. */
  lemma LostAndDeadLettered(cfg: Config, steps: seq<Step>, c: Consumer, i: nat)
    requires ConfigOk(cfg)
    requires var s := Run(cfg, Init(), steps); (c, i) in s.lost && i < |s.log| && OnlyReceiver(s, c, i)
    ensures var s := Run(cfg, Init(), steps);
            HasDeadLetter(s.log, SourceOf(c), i) <==>
            s.log[i].body.Malformed? && StoredSometime(cfg, steps, SourceOf(c), i)
    ensures !DeliveryOf(Run(cfg, Init(), steps), c, i).Termed?
  {
    LostIsGone(cfg, steps, c, i);
    DeadLetteredExactly(cfg, steps, SourceOf(c), i);
    if !Run(cfg, Init(), steps).log[i].body.Malformed? {
      LostHasNoDeadLetter(cfg, steps, c, i);
    }
  }

  lemma FetchFirst(cfg: Config, s: State, requestID: string)
    requires IsToken(requestID) && |s.log| > 0 && s.log[0].subject == SubjectOf(cfg.prefix, InvokeAddress(requestID))
    requires PcOf(s, Invocations).Idle? && DeliveryOf(s, Invocations, 0).Pending?
    requires DeliveryOf(s, Invocations, 0).count < MaxDeliver(cfg, Invocations)
    ensures var s' := FetchStep(cfg, s, Invocations, 0);
            && PcOf(s', Invocations) == Fetched(0) && s'.log == s.log
            && DeliveryOf(s', Invocations, 0) == Pending(DeliveryOf(s, Invocations, 0).count + 1)
  {
    TokenIsCanonical(requestID);
    SubjectMatchesExactlyOneBinding(cfg.prefix, InvokeAddress(requestID), 0);
  }

  lemma StoredButErrored(cfg: Config, s: State, failedAt: nat)
    requires LogOk(cfg.prefix, s.log) && |s.log| > 0 && s.log[0].body.Malformed? && PcOf(s, Invocations) == Fetched(0)
    ensures var s' := DeadLetterStep(cfg, s, Invocations, failedAt, DoneButErrored);
            && |s'.log| > 0 && s'.log[0] == s.log[0] && PcOf(s', Invocations).Idle?
            && DeadLettered(s', InvocationSource, 0)
            && DeliveryOf(s', Invocations, 0) == DeliveryOf(s, Invocations, 0)
  {
    DeadLetterStored(cfg, s, Invocations, 0, failedAt);
  }

  lemma RunOneMore(cfg: Config, steps: seq<Step>, a: Step)
    ensures Run(cfg, Init(), steps + [a]) == Apply(cfg, Run(cfg, Init(), steps), a)
  {
    assert (steps + [a])[..|steps|] == steps;
  }

  lemma AfterForeign(cfg: Config, subject: string, bytes: string)
    ensures var s := Run(cfg, Init(), [ForeignPublish(subject, bytes)]);
            s.log == [Entry(subject, "", Malformed(bytes))] && PcOf(s, Invocations).Idle? && DeliveryOf(s, Invocations, 0) == Pending(0)
  {
    assert [ForeignPublish(subject, bytes)][..0] == [];
  }

  /** Delivered twice: first the dead letter is stored but the consumer sees an error, then the
      process stops. */
  lemma LostAfterDeadLetter(cfg: Config, start: seq<Step>, requestID: string) returns (steps: seq<Step>)
    requires ConfigOk(cfg) && MaxDeliver(cfg, Invocations) == 2 && IsToken(requestID)
    requires var s := Run(cfg, Init(), start);
             && |s.log| > 0 && s.log[0].subject == SubjectOf(cfg.prefix, InvokeAddress(requestID)) && s.log[0].body.Malformed?
             && PcOf(s, Invocations).Idle? && DeliveryOf(s, Invocations, 0) == Pending(0)
    ensures var s := Run(cfg, Init(), steps); (Invocations, 0) in s.lost && DeadLettered(s, InvocationSource, 0)
  {
    RunOneMore(cfg, start, Fetch(Invocations, 0));
    FetchFirst(cfg, Run(cfg, Init(), start), requestID);
    var stored := DeadLetterInHand(cfg, start + [Fetch(Invocations, 0)]);
    steps := LostOnLastDelivery(cfg, stored, requestID);
  }

  lemma LogIsOk(cfg: Config, steps: seq<Step>)
    requires ConfigOk(cfg)
    ensures LogOk(cfg.prefix, Run(cfg, Init(), steps).log)
  {
    RunKeeps(cfg, steps);
  }

  lemma DeadLetterInHand(cfg: Config, start: seq<Step>) returns (steps: seq<Step>)
    requires ConfigOk(cfg)
    requires var s := Run(cfg, Init(), start); |s.log| > 0 && s.log[0].body.Malformed? && PcOf(s, Invocations) == Fetched(0)
    ensures var s, s' := Run(cfg, Init(), start), Run(cfg, Init(), steps);
            && |s'.log| > 0 && s'.log[0] == s.log[0] && PcOf(s', Invocations).Idle?
            && DeliveryOf(s', Invocations, 0) == DeliveryOf(s, Invocations, 0)
            && DeadLettered(s', InvocationSource, 0)
  {
    LogIsOk(cfg, start);
    RunOneMore(cfg, start, PublishDeadLetter(Invocations, 1, DoneButErrored));
    AppliedButErrored(cfg, Run(cfg, Init(), start));
    steps := start + [PublishDeadLetter(Invocations, 1, DoneButErrored)];
  }

  lemma AppliedButErrored(cfg: Config, s: State)
    requires LogOk(cfg.prefix, s.log) && |s.log| > 0 && s.log[0].body.Malformed? && PcOf(s, Invocations) == Fetched(0)
    ensures var s' := Apply(cfg, s, PublishDeadLetter(Invocations, 1, DoneButErrored));
            && |s'.log| > 0 && s'.log[0] == s.log[0] && PcOf(s', Invocations).Idle?
            && DeliveryOf(s', Invocations, 0) == DeliveryOf(s, Invocations, 0)
            && DeadLettered(s', InvocationSource, 0)
  {
    ApplyDeadLetter(cfg, s, Invocations, 1, DoneButErrored);
    StoredButErrored(cfg, s, 1);
  }

  lemma LostOnLastDelivery(cfg: Config, start: seq<Step>, requestID: string) returns (steps: seq<Step>)
    requires MaxDeliver(cfg, Invocations) == 2 && IsToken(requestID)
    requires var s := Run(cfg, Init(), start);
             && |s.log| > 0 && s.log[0].subject == SubjectOf(cfg.prefix, InvokeAddress(requestID))
             && PcOf(s, Invocations).Idle? && DeliveryOf(s, Invocations, 0) == Pending(1)
             && DeadLettered(s, InvocationSource, 0)
    ensures var s := Run(cfg, Init(), steps); (Invocations, 0) in s.lost && DeadLettered(s, InvocationSource, 0)
  {
    RunTwoMore(cfg, start, Fetch(Invocations, 0), Stop(Invocations));
    LostNow(cfg, Run(cfg, Init(), start), requestID);
    steps := start + [Fetch(Invocations, 0)] + [Stop(Invocations)];
  }

  lemma LostNow(cfg: Config, s: State, requestID: string)
    requires MaxDeliver(cfg, Invocations) == 2 && IsToken(requestID)
    requires |s.log| > 0 && s.log[0].subject == SubjectOf(cfg.prefix, InvokeAddress(requestID))
    requires PcOf(s, Invocations).Idle? && DeliveryOf(s, Invocations, 0) == Pending(1)
    ensures var s' := Apply(cfg, Apply(cfg, s, Fetch(Invocations, 0)), Stop(Invocations));
            (Invocations, 0) in s'.lost && s'.log == s.log
  {
    FetchFirst(cfg, s, requestID);
    AbandonLosesExactly(cfg, FetchStep(cfg, s, Invocations, 0), Invocations);
  }

  /** That does happen: with two permitted deliveries, a message nobody can decode can end up
      both dead-lettered and lost. */
  lemma UndecodableMayBeBoth(cfg: Config, requestID: string, bytes: string) returns (steps: seq<Step>)
    requires ConfigOk(cfg) && MaxDeliver(cfg, Invocations) == 2 && IsToken(requestID)
    ensures var s := Run(cfg, Init(), steps); (Invocations, 0) in s.lost && DeadLettered(s, InvocationSource, 0)
  {
    var subject := SubjectOf(cfg.prefix, InvokeAddress(requestID));
    AfterForeign(cfg, subject, bytes);
    steps := LostAfterDeadLetter(cfg, [ForeignPublish(subject, bytes)], requestID);
  }

  // ------------------------------------------------------- who is given a message

  lemma LogGrows(cfg: Config, s: State, step: Step)
    ensures s.log <= Apply(cfg, s, step).log
  {
    match step {
      case Ack(_, _) =>
      case Nak(_, _) =>
      case Term(_, _) =>
      case _ =>
    }
  }

  /** A message that was given to a consumer matches its filter, and was fetched by it. */
  lemma {:induction false} GivenWasReceived(cfg: Config, steps: seq<Step>, c: Consumer, i: nat)
    requires DeliveryOf(Run(cfg, Init(), steps), c, i).count > 0
    ensures var s := Run(cfg, Init(), steps);
            i < |s.log| && Receives(cfg.prefix, c, s.log[i]) && Fetch(c, i) in steps
  {
    if steps != [] {
      var before, step := steps[..|steps| - 1], steps[|steps| - 1];
      var s := Run(cfg, Init(), before);
      LogGrows(cfg, s, step);
      if DeliveryOf(s, c, i).count > 0 {
        GivenWasReceived(cfg, before, c, i);
      } else if !step.Fetch? {
        StepMoves(cfg, s, step, c, i);
      }
    }
  }

  /** The consumers of dispatches are named as the sidecar names them. */
  ghost predicate WorkersNamed(steps: seq<Step>) {
    forall k :: 0 <= k < |steps| && steps[k].Fetch? && steps[k].consumer.Dispatches? ==>
      IsToken(steps[k].consumer.requestID) && IsToken(steps[k].consumer.workerName)
  }

  /** The consumer that a message is for. */
  function ReceiverOf(b: Body): Consumer
    requires b.Invocation? || b.Dispatch? || b.Outcome? || b.Metric?
  {
    match b
    case Invocation(_, _, _) => Invocations
    case Dispatch(_, r, w, _) => Dispatches(r, w)
    case Outcome(_) => Outcomes
    case Metric(_, _, _, _, _) => Metrics
  }

  /** No other consumer of the same source is ever given the message. */
  lemma ReceiverIsOnly(cfg: Config, steps: seq<Step>, i: nat)
    requires ConfigOk(cfg) && WorkersNamed(steps) && i < |Run(cfg, Init(), steps).log|
    requires var b := Run(cfg, Init(), steps).log[i].body; b.Invocation? || b.Dispatch? || b.Outcome? || b.Metric?
    ensures var s := Run(cfg, Init(), steps); OnlyReceiver(s, ReceiverOf(s.log[i].body), i)
  {
    var s := Run(cfg, Init(), steps);
    var c := ReceiverOf(s.log[i].body);
    RunKeeps(cfg, steps);
    forall d: Consumer | d != c && SourceOf(d) == SourceOf(c) ensures DeliveryOf(s, d, i).count == 0 {
      if DeliveryOf(s, d, i).count > 0 {
        GivenWasReceived(cfg, steps, d, i);
        ReceivesExactlyItsFamily(cfg.prefix, s.log, d, i);
      }
    }
  }

  // ------------------------------------------------------------ a run that loses

  function Rounds(n: nat): seq<Step> {
    if n == 0 then [] else Rounds(n - 1) + [Fetch(Invocations, 0)] + [Stop(Invocations)]
  }

  lemma OneRound(cfg: Config, s: State, id: string, requestID: string, payload: string)
    requires IsToken(requestID) && s.log == [EntryFor(cfg.prefix, Invocation(id, requestID, payload))]
    requires PcOf(s, Invocations).Idle? && DeliveryOf(s, Invocations, 0).Pending?
    requires DeliveryOf(s, Invocations, 0).count < MaxDeliver(cfg, Invocations)
    ensures var s' := Apply(cfg, Apply(cfg, s, Fetch(Invocations, 0)), Stop(Invocations));
            && s'.log == s.log && PcOf(s', Invocations).Idle?
            && DeliveryOf(s', Invocations, 0) == Pending(DeliveryOf(s, Invocations, 0).count + 1)
            && (DeliveryOf(s, Invocations, 0).count + 1 == MaxDeliver(cfg, Invocations) ==> (Invocations, 0) in s'.lost)
  {
    FetchFirst(cfg, s, requestID);
    AbandonLosesExactly(cfg, FetchStep(cfg, s, Invocations, 0), Invocations);
  }

  lemma {:induction false} AfterRounds(cfg: Config, id: string, requestID: string, payload: string, n: nat)
    requires IsInvocationID(id) && IsToken(requestID) && n <= MaxDeliver(cfg, Invocations)
    ensures var s := Run(cfg, Init(), [Ingress(id, requestID, payload)] + Rounds(n));
            && s.log == [EntryFor(cfg.prefix, Invocation(id, requestID, payload))]
            && PcOf(s, Invocations).Idle? && DeliveryOf(s, Invocations, 0) == Pending(n)
            && (0 < n == MaxDeliver(cfg, Invocations) ==> (Invocations, 0) in s.lost)
  {
    var first := [Ingress(id, requestID, payload)];
    if n == 0 {
      AfterIngress(cfg, id, requestID, payload);
      assert first + Rounds(0) == first;
    } else {
      AfterRounds(cfg, id, requestID, payload, n - 1);
      OneRound(cfg, Run(cfg, Init(), first + Rounds(n - 1)), id, requestID, payload);
      OneRoundMore(cfg, first, n - 1);
    }
  }

  lemma AfterIngress(cfg: Config, id: string, requestID: string, payload: string)
    requires IsInvocationID(id) && IsToken(requestID)
    ensures var s := Run(cfg, Init(), [Ingress(id, requestID, payload)]);
            && s.log == [EntryFor(cfg.prefix, Invocation(id, requestID, payload))]
            && PcOf(s, Invocations).Idle? && DeliveryOf(s, Invocations, 0) == Pending(0)
  {
    assert [Ingress(id, requestID, payload)][..0] == [];
  }

  lemma OneRoundMore(cfg: Config, first: seq<Step>, n: nat)
    ensures Run(cfg, Init(), first + Rounds(n + 1))
            == Apply(cfg, Apply(cfg, Run(cfg, Init(), first + Rounds(n)), Fetch(Invocations, 0)), Stop(Invocations))
  {
    RunTwoMore(cfg, first + Rounds(n), Fetch(Invocations, 0), Stop(Invocations));
    assert first + Rounds(n + 1) == first + Rounds(n) + [Fetch(Invocations, 0)] + [Stop(Invocations)];
  }

  lemma RunTwoMore(cfg: Config, steps: seq<Step>, a: Step, b: Step)
    ensures Run(cfg, Init(), steps + [a] + [b]) == Apply(cfg, Apply(cfg, Run(cfg, Init(), steps), a), b)
  {
    assert (steps + [a] + [b])[..|steps| + 1] == steps + [a];
    assert (steps + [a])[..|steps|] == steps;
  }

  /** Losses do happen, whatever the number of permitted deliveries: a process that stops
      after each fetch of an invocation loses it. */
  lemma StoppingEveryTimeLoses(cfg: Config, id: string, requestID: string, payload: string)
    requires ConfigOk(cfg) && IsInvocationID(id) && IsToken(requestID)
    ensures var s := Run(cfg, Init(), [Ingress(id, requestID, payload)] + Rounds(MaxDeliver(cfg, Invocations)));
            && |s.log| == 1 && s.log[0].body == Invocation(id, requestID, payload)
            && (Invocations, 0) in s.lost
            && !Alive(cfg, s, Invocations, 0) && !HasDeadLetter(s.log, InvocationSource, 0)
            && !HasDispatch(s.log, id) && !HasOutcome(s.log, id)
  {
    AfterRounds(cfg, id, requestID, payload, MaxDeliver(cfg, Invocations));
  }
}
