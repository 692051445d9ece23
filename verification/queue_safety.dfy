/** What every run of the serverless queue protocol keeps. */
module QueueSafety {
  import opened Text
  import opened Subjects
  import opened Retry
  import opened Results
  import opened Queue

  // ---------------------------------------------------------------- the stream

  ghost predicate BodyOk(log: seq<Entry>, b: Body) {
    && !b.Malformed?
    && IsKey(KeyOf(b))
    && IsToken(AddressOf(b).requestID)
    && (b.Dispatch? ==> IsToken(b.workerName))
    && (b.Outcome? ==> b.result.completedAt != ZERO_TIME)
    && (b.DeadLetter? ==> b.sequence < |log| && b.original == log[b.sequence].body)
  }

  ghost predicate EntryOk(prefix: string, log: seq<Entry>, k: nat)
    requires k < |log|
  {
    var e := log[k];
    if e.body.Malformed? then e.messageID == ""
    else e == EntryFor(prefix, e.body) && BodyOk(log[..k], e.body)
  }

  ghost predicate LogOk(prefix: string, log: seq<Entry>) {
    && (forall k :: 0 <= k < |log| ==> EntryOk(prefix, log, k))
    && UniqueIDs(log)
  }

  ghost predicate HasKey(log: seq<Entry>, key: MessageKey) {
    exists k :: 0 <= k < |log| && !log[k].body.Malformed? && KeyOf(log[k].body) == key
  }

  lemma KeyNonEmpty(key: MessageKey)
    requires IsKey(key)
    ensures MessageID(key) != ""
  {
    FamilyChars(key);
  }

  /** Publishing keeps the log well formed, and afterwards the log holds an entry with the
      published identity: the new one, or the one that made it a duplicate. */
  lemma PublishKeepsLog(prefix: string, log: seq<Entry>, b: Body)
    requires LogOk(prefix, log) && BodyOk(log, b)
    ensures LogOk(prefix, Publish(log, EntryFor(prefix, b)))
    ensures HasKey(Publish(log, EntryFor(prefix, b)), KeyOf(b))
  {
    var e := EntryFor(prefix, b);
    var log' := Publish(log, e);
    KeyNonEmpty(KeyOf(b));
    if Seen(log, e.messageID) {
      var k :| 0 <= k < |log| && log[k].messageID == e.messageID;
      assert EntryOk(prefix, log, k);
      MessageIDInjective(KeyOf(log[k].body), KeyOf(b));
    } else {
      assert log'[..|log|] == log;
      assert log'[|log|] == e;
      AppendKeepsLog(prefix, log, e);
    }
  }

  lemma AppendKeepsLog(prefix: string, log: seq<Entry>, e: Entry)
    requires LogOk(prefix, log)
    requires if e.body.Malformed? then e.messageID == ""
             else e == EntryFor(prefix, e.body) && BodyOk(log, e.body) && !Seen(log, e.messageID)
    ensures LogOk(prefix, log + [e])
  {
    var log' := log + [e];
    forall k | 0 <= k < |log'| ensures EntryOk(prefix, log', k) {
      if k < |log| {
        assert EntryOk(prefix, log, k);
        assert log'[..k] == log[..k];
      } else {
        assert log'[..k] == log;
      }
    }
    forall j, k | 0 <= j < k < |log'| && log'[j].messageID != ""
      ensures log'[j].messageID != log'[k].messageID
    {
      if k == |log| {
        assert log[j].messageID == log'[j].messageID;
      }
    }
  }

  // ------------------------------------------------------------- who gets what

  predicate BelongsTo(c: Consumer, b: Body) {
    match c
    case Invocations => b.Invocation?
    case Dispatches(r, w) => b.Dispatch? && b.requestID == r && b.workerName == w
    case Outcomes => b.Outcome?
    case Metrics => b.Metric?
  }

  /** A consumer's subject filter selects exactly the messages of its own family; a worker's
      filter selects exactly the dispatches for that worker of that request. */
  lemma ReceivesExactlyItsFamily(prefix: string, log: seq<Entry>, c: Consumer, k: nat)
    requires LogOk(prefix, log) && k < |log| && !log[k].body.Malformed?
    requires c.Dispatches? ==> IsToken(c.requestID) && IsToken(c.workerName)
    ensures Receives(prefix, c, log[k]) <==> BelongsTo(c, log[k].body)
  {
    assert EntryOk(prefix, log, k);
    var b := log[k].body;
    var a := AddressOf(b);
    TokenIsCanonical(a.requestID);
    match c {
      case Invocations => SubjectMatchesExactlyOneBinding(prefix, a, 0);
      case Outcomes => SubjectMatchesExactlyOneBinding(prefix, a, 2);
      case Metrics => SubjectMatchesExactlyOneBinding(prefix, a, 3);
      case Dispatches(r, w) =>
        var mine := DispatchAddress(r, w);
        TokenIsCanonical(r);
        SubjectTokens(prefix, mine);
        SubjectTokens(prefix, a);
        CommonBase(Split(NormalizeSubjectPrefix(prefix), '.'), Tail(mine), Tail(a));
        DispatchTailMatches(r, w, a);
    }
  }

  lemma DispatchTailMatches(r: string, w: string, a: Address)
    requires IsToken(r) && IsToken(w) && IsToken(a.requestID)
    requires a.DispatchAddress? ==> IsToken(a.workerName)
    ensures TokensMatch(Tail(DispatchAddress(r, w)), Tail(a)) <==> a == DispatchAddress(r, w)
  {
    assert r[0] in r && w[0] in w;
    FamilyNamesDistinct(1, 0);
    TripleMatches(FamilyName(1), r, w, Tail(a));
    if FamilyIndex(a) != 1 {
      FamilyNamesDistinct(1, FamilyIndex(a));
      assert Tail(a)[0] == FamilyName(FamilyIndex(a));
    } else {
      TripleEqual(FamilyName(1), r, w, a.requestID, a.workerName);
    }
  }

  lemma TripleMatches(x: string, y: string, z: string, t: seq<string>)
    requires x != "*" && y != "*" && z != "*"
    ensures TokensMatch([x, y, z], t) <==> t == [x, y, z]
  {
    var f := [x, y, z];
    if TokensMatch(f, t) {
      assert f[0] == t[0] && f[1] == t[1] && f[2] == t[2];
    }
  }

  lemma TripleEqual(x: string, y: string, z: string, y': string, z': string)
    ensures [x, y, z] == [x, y', z'] <==> y == y' && z == z'
  {
    assert [x, y, z][1] == y && [x, y, z][2] == z && [x, y', z'][1] == y' && [x, y', z'][2] == z';
  }

  // ------------------------------------------------------------- the invariant

  ghost predicate HasDispatch(log: seq<Entry>, id: string) {
    exists k :: 0 <= k < |log| && log[k].body.Dispatch? && log[k].body.invocationID == id
  }

  ghost predicate HasOutcome(log: seq<Entry>, id: string) {
    exists k :: 0 <= k < |log| && log[k].body.Outcome? && log[k].body.result.invocationID == id
  }

  predicate IsDeadLetterOf(e: Entry, source: Source, i: nat, original: Body) {
    e.body.DeadLetter? && e.body.source == source && e.body.sequence == i && e.body.original == original
  }

  /** The stream holds a dead letter for message i with the original payload. */
  ghost predicate HasDeadLetter(log: seq<Entry>, source: Source, i: nat)
    requires i < |log|
  {
    exists k :: 0 <= k < |log| && IsDeadLetterOf(log[k], source, i, log[i].body)
  }

  /** The work message i asks for has been handed on. */
  ghost predicate Complete(s: State, i: nat)
    requires i < |s.log|
  {
    match s.log[i].body
    case Invocation(id, _, _) => HasDispatch(s.log, id) || HasOutcome(s.log, id)
    case Dispatch(id, _, _, _) => HasOutcome(s.log, id)
    case Outcome(r) => r.invocationID in s.table
    case Metric(_, _, _, _, _) => true
    case _ => false
  }

  /** Message i will still be delivered to c, or is being handled. */
  predicate Alive(cfg: Config, s: State, c: Consumer, i: nat) {
    DeliveryOf(s, c, i).Pending? && (DeliveryOf(s, c, i).count < MaxDeliver(cfg, c) || At(PcOf(s, c), i))
  }

  ghost predicate Settled(s: State, c: Consumer, i: nat)
    requires i < |s.log|
  {
    Complete(s, i) || HasDeadLetter(s.log, SourceOf(c), i)
  }

  ghost predicate MessageOk(cfg: Config, s: State, c: Consumer, i: nat) {
    var d, pc := DeliveryOf(s, c, i), PcOf(s, c);
    if i >= |s.log| then d == Pending(0) && !At(pc, i)
    else
      && d.count <= MaxDeliver(cfg, c)
      && (d.Acked? ==> Complete(s, i))
      && (d.Termed? ==> HasDeadLetter(s.log, SourceOf(c), i))
      && (At(pc, i) ==> d.Pending? && d.count >= 1)
      && (pc == Handled(i) ==> Complete(s, i))
      && (pc == DeadLettered(i) ==> HasDeadLetter(s.log, SourceOf(c), i))
      && (d.Pending? && d.count >= MaxDeliver(cfg, c) && !At(pc, i) ==> (c, i) in s.lost || Settled(s, c, i))
  }

  ghost predicate MessagesOk(cfg: Config, s: State) {
    forall c: Consumer, i: nat :: MessageOk(cfg, s, c, i)
  }

  /** Every stored record is the record of a result in the stream. */
  ghost predicate RecordOk(cfg: Config, s: State, id: string)
    requires id in s.table
  {
    exists k, t :: 0 <= k < |s.log| && s.log[k].body.Outcome? && s.log[k].body.result.invocationID == id
                   && RecordFromResult(s.log[k].body.result, cfg.maxInlineBodyBytes, t) == Ok(s.table[id])
  }

  ghost predicate TableOk(cfg: Config, s: State) {
    forall id :: id in s.table ==> RecordOk(cfg, s, id)
  }

  ghost predicate Core(cfg: Config, s: State) {
    LogOk(cfg.prefix, s.log) && MessagesOk(cfg, s) && TableOk(cfg, s)
  }

  // ----------------------------------------------------------------- monotony

  /** s' extends s: nothing handed on in s is missing in s'. */
  ghost predicate Extends(s: State, s': State) {
    s.log <= s'.log && s.table.Keys <= s'.table.Keys && s.lost <= s'.lost
  }

  lemma CompleteMonotone(s: State, s': State, i: nat)
    requires Extends(s, s') && i < |s.log| && Complete(s, i)
    ensures Complete(s', i)
  {
    assert s.log[i] == s'.log[i];
    match s.log[i].body {
      case Invocation(id, _, _) =>
        if HasDispatch(s.log, id) {
          DispatchMonotone(s.log, s'.log, id);
        } else {
          OutcomeMonotone(s.log, s'.log, id);
        }
      case Dispatch(id, _, _, _) => OutcomeMonotone(s.log, s'.log, id);
      case _ =>
    }
  }

  lemma DispatchMonotone(log: seq<Entry>, log': seq<Entry>, id: string)
    requires log <= log' && HasDispatch(log, id)
    ensures HasDispatch(log', id)
  {
    var k :| 0 <= k < |log| && log[k].body.Dispatch? && log[k].body.invocationID == id;
    assert log'[k] == log[k];
  }

  lemma OutcomeMonotone(log: seq<Entry>, log': seq<Entry>, id: string)
    requires log <= log' && HasOutcome(log, id)
    ensures HasOutcome(log', id)
  {
    var k :| 0 <= k < |log| && log[k].body.Outcome? && log[k].body.result.invocationID == id;
    assert log'[k] == log[k];
  }

  lemma DeadLetterMonotone(log: seq<Entry>, log': seq<Entry>, source: Source, i: nat)
    requires log <= log' && i < |log| && HasDeadLetter(log, source, i)
    ensures HasDeadLetter(log', source, i)
  {
    var k :| 0 <= k < |log| && IsDeadLetterOf(log[k], source, i, log[i].body);
    assert log'[k] == log[k] && log'[i] == log[i];
  }

  /** A step that leaves (c, i) untouched keeps what is known about it. */
  lemma UntouchedMessage(cfg: Config, s: State, s': State, c: Consumer, i: nat)
    requires Extends(s, s') && MessageOk(cfg, s, c, i)
    requires cfg.policy(c).maxDeliver > 0
    requires DeliveryOf(s', c, i) == DeliveryOf(s, c, i)
    requires PcOf(s', c) == PcOf(s, c) || (!At(PcOf(s, c), i) && !At(PcOf(s', c), i))
    requires i >= |s.log| ==> !At(PcOf(s', c), i)
    ensures MessageOk(cfg, s', c, i)
  {
    if i < |s.log| {
      assert s.log[i] == s'.log[i];
      if Complete(s, i) {
        CompleteMonotone(s, s', i);
      }
      if HasDeadLetter(s.log, SourceOf(c), i) {
        DeadLetterMonotone(s.log, s'.log, SourceOf(c), i);
      }
    }
  }

  /** Only consumer c's program counter, and its record of message i, changed. */
  ghost predicate Touches(s: State, s': State, c: Consumer, i: nat) {
    && Extends(s, s')
    && (forall c': Consumer :: c' != c ==> PcOf(s', c') == PcOf(s, c'))
    && (forall c': Consumer, i': nat :: (c', i') != (c, i) ==> DeliveryOf(s', c', i') == DeliveryOf(s, c', i'))
    && (PcOf(s, c).Idle? || At(PcOf(s, c), i))
    && (PcOf(s', c).Idle? || At(PcOf(s', c), i))
  }

  lemma TouchOne(cfg: Config, s: State, s': State, c: Consumer, i: nat)
    requires ConfigOk(cfg) && MessagesOk(cfg, s) && Touches(s, s', c, i) && MessageOk(cfg, s', c, i)
    ensures MessagesOk(cfg, s')
  {
    forall c': Consumer, i': nat ensures MessageOk(cfg, s', c', i') {
      assert MessageOk(cfg, s, c', i');
      if (c', i') != (c, i) {
        UntouchedMessage(cfg, s, s', c', i');
      }
    }
  }

  /** A step that only publishes. */
  lemma OnlyPublished(cfg: Config, s: State, s': State)
    requires ConfigOk(cfg) && Core(cfg, s) && LogOk(cfg.prefix, s'.log)
    requires s.log <= s'.log && s' == s.(log := s'.log)
    ensures Core(cfg, s')
  {
    forall c: Consumer, i: nat ensures MessageOk(cfg, s', c, i) {
      assert MessageOk(cfg, s, c, i);
      UntouchedMessage(cfg, s, s', c, i);
    }
    TableKept(cfg, s, s');
  }

  lemma TableKept(cfg: Config, s: State, s': State)
    requires TableOk(cfg, s) && s.log <= s'.log && s'.table == s.table
    ensures TableOk(cfg, s')
  {
    forall id | id in s'.table ensures RecordOk(cfg, s', id) {
      assert RecordOk(cfg, s, id);
      var k, t :| 0 <= k < |s.log| && s.log[k].body.Outcome? && s.log[k].body.result.invocationID == id
                  && RecordFromResult(s.log[k].body.result, cfg.maxInlineBodyBytes, t) == Ok(s.table[id]);
      assert s'.log[k] == s.log[k];
    }
  }

  // -------------------------------------------------------------- step by step

  lemma FetchKeeps(cfg: Config, s: State, c: Consumer, i: nat)
    requires ConfigOk(cfg) && Core(cfg, s)
    ensures Core(cfg, FetchStep(cfg, s, c, i))
  {
    var s' := FetchStep(cfg, s, c, i);
    if s' != s {
      assert MessageOk(cfg, s, c, i);
      assert MessageOk(cfg, s', c, i) by {
        if Complete(s, i) { CompleteMonotone(s, s', i); }
        assert s'.log == s.log;
      }
      TouchOne(cfg, s, s', c, i);
      TableKept(cfg, s, s');
    }
  }

  lemma AbandonMessage(cfg: Config, s: State, c: Consumer, i: nat)
    requires MessageOk(cfg, s, c, i) && (PcOf(s, c).Idle? || At(PcOf(s, c), i))
    ensures MessageOk(cfg, Abandon(cfg, s, c), c, i)
  {
    var s' := Abandon(cfg, s, c);
    if i < |s.log| {
      if Complete(s, i) { CompleteMonotone(s, s', i); }
      if HasDeadLetter(s.log, SourceOf(c), i) { DeadLetterMonotone(s.log, s'.log, SourceOf(c), i); }
    }
  }

  lemma AbandonKeeps(cfg: Config, s: State, c: Consumer)
    requires ConfigOk(cfg) && Core(cfg, s)
    ensures Core(cfg, Abandon(cfg, s, c))
  {
    var s' := Abandon(cfg, s, c);
    var pc := PcOf(s, c);
    var i := if pc.Idle? then 0 else pc.sequence;
    assert MessageOk(cfg, s, c, i);
    AbandonMessage(cfg, s, c, i);
    TouchOne(cfg, s, s', c, i);
    TableKept(cfg, s, s');
  }

  /** A handler's single publish: if it returns nil, the message is complete. */
  lemma HandlerPublishKeeps(cfg: Config, s: State, c: Consumer, i: nat, b: Body, io: Io)
    requires ConfigOk(cfg) && Core(cfg, s) && PcOf(s, c) == Fetched(i) && i < |s.log|
    requires BodyOk(s.log, b)
    requires Complete(s.(log := Publish(s.log, EntryFor(cfg.prefix, b))), i)
    ensures Core(cfg, HandlerPublish(cfg, s, c, i, b, io))
  {
    var s' := HandlerPublish(cfg, s, c, i, b, io);
    if io.Refused? {
      HandlerErrorKeeps(cfg, s, c, i);
    } else {
      PublishKeepsLog(cfg.prefix, s.log, b);
      var published := s.(log := Publish(s.log, EntryFor(cfg.prefix, b)));
      OnlyPublished(cfg, s, published);
      if io.Done? {
        HandlerDoneKeeps(cfg, published, c, i);
      } else {
        HandlerErrorKeeps(cfg, published, c, i);
      }
    }
  }

  lemma HandlerDoneKeeps(cfg: Config, s: State, c: Consumer, i: nat)
    requires ConfigOk(cfg) && Core(cfg, s) && PcOf(s, c) == Fetched(i) && i < |s.log| && Complete(s, i)
    ensures Core(cfg, SetPc(s, c, Handled(i)))
  {
    var s' := SetPc(s, c, Handled(i));
    assert MessageOk(cfg, s, c, i);
    CompleteIgnoresPcs(s, s', i);
    assert MessageOk(cfg, s', c, i);
    TouchOne(cfg, s, s', c, i);
    TableKept(cfg, s, s');
  }

  lemma CompleteIgnoresPcs(s: State, s': State, i: nat)
    requires s'.log == s.log && s'.table == s.table && i < |s.log|
    ensures Complete(s, i) <==> Complete(s', i)
  {
  }

  lemma KeyMeansDispatch(log: seq<Entry>, id: string, w: string)
    requires HasKey(log, DispatchKey(id, w))
    ensures HasDispatch(log, id)
  {
    var k :| 0 <= k < |log| && !log[k].body.Malformed? && KeyOf(log[k].body) == DispatchKey(id, w);
  }

  lemma KeyMeansOutcome(log: seq<Entry>, id: string)
    requires HasKey(log, ResultKey(id))
    ensures HasOutcome(log, id)
  {
    var k :| 0 <= k < |log| && !log[k].body.Malformed? && KeyOf(log[k].body) == ResultKey(id);
  }

  lemma HandleInvocationKeeps(cfg: Config, s: State, acquired: Acquired, now: int, io: Io)
    requires ConfigOk(cfg) && Core(cfg, s)
    ensures Core(cfg, HandleInvocationStep(cfg, s, acquired, now, io))
  {
    var s' := HandleInvocationStep(cfg, s, acquired, now, io);
    if s' != s {
      var i := PcOf(s, Invocations).sequence;
      var m := s.log[i].body;
      assert EntryOk(cfg.prefix, s.log, i);
      match acquired {
        case Worker(w) =>
          var b := Dispatch(m.invocationID, m.requestID, w, m.payload);
          PublishKeepsLog(cfg.prefix, s.log, b);
          var log := Publish(s.log, EntryFor(cfg.prefix, b));
          KeyMeansDispatch(log, m.invocationID, w);
          assert log[i] == s.log[i];
          HandlerPublishKeeps(cfg, s, Invocations, i, b, io);
        case NoTemplate =>
          var b := Outcome(NoTemplateResult(m.invocationID, m.requestID, now));
          PublishKeepsLog(cfg.prefix, s.log, b);
          var log := Publish(s.log, EntryFor(cfg.prefix, b));
          KeyMeansOutcome(log, m.invocationID);
          assert log[i] == s.log[i];
          HandlerPublishKeeps(cfg, s, Invocations, i, b, io);
        case Retryable(_) => HandlerErrorKeeps(cfg, s, Invocations, i);
      }
    }
  }

  lemma HandlerErrorKeeps(cfg: Config, s: State, c: Consumer, i: nat)
    requires ConfigOk(cfg) && Core(cfg, s) && PcOf(s, c) == Fetched(i) && i < |s.log|
    ensures Core(cfg, SetPc(s, c, Errored(i)))
  {
    var s' := SetPc(s, c, Errored(i));
    assert MessageOk(cfg, s, c, i);
    if Complete(s, i) { CompleteIgnoresPcs(s, s', i); }
    assert MessageOk(cfg, s', c, i);
    TouchOne(cfg, s, s', c, i);
    TableKept(cfg, s, s');
  }

  lemma HandleDispatchKeeps(cfg: Config, s: State, c: Consumer, outcome: FrameworkOutcome,
                            startedAt: int, now: int, io: Io)
    requires ConfigOk(cfg) && Core(cfg, s)
    ensures Core(cfg, HandleDispatchStep(cfg, s, c, outcome, startedAt, now, io))
  {
    var s' := HandleDispatchStep(cfg, s, c, outcome, startedAt, now, io);
    if s' != s {
      var i := PcOf(s, c).sequence;
      var m := s.log[i].body;
      assert EntryOk(cfg.prefix, s.log, i);
      var b := Outcome(WorkerResult(m.invocationID, m.requestID, m.workerName, outcome, startedAt, now));
      PublishKeepsLog(cfg.prefix, s.log, b);
      var log := Publish(s.log, EntryFor(cfg.prefix, b));
      KeyMeansOutcome(log, m.invocationID);
      assert log[i] == s.log[i];
      HandlerPublishKeeps(cfg, s, c, i, b, io);
    }
  }

  lemma HandleOutcomeKeeps(cfg: Config, s: State, now: int, io: Io)
    requires ConfigOk(cfg) && Core(cfg, s)
    ensures Core(cfg, HandleOutcomeStep(cfg, s, now, io))
  {
    var s' := HandleOutcomeStep(cfg, s, now, io);
    if s' != s {
      var i := PcOf(s, Outcomes).sequence;
      var r := s.log[i].body.result;
      assert MessageOk(cfg, s, Outcomes, i);
      if HasDeadLetter(s.log, ResultSource, i) { DeadLetterMonotone(s.log, s'.log, ResultSource, i); }
      if s'.table == s.table {
        CompleteIgnoresPcs(s, s', i);
      }
      assert MessageOk(cfg, s', Outcomes, i);
      TouchOne(cfg, s, s', Outcomes, i);
      HandleOutcomeRecords(cfg, s, now, io);
    }
  }

  lemma HandleOutcomeRecords(cfg: Config, s: State, now: int, io: Io)
    requires forall id :: id in s.table ==> RecordOk(cfg, s, id)
    ensures var s' := HandleOutcomeStep(cfg, s, now, io); forall id :: id in s'.table ==> RecordOk(cfg, s', id)
  {
    var s' := HandleOutcomeStep(cfg, s, now, io);
    forall id | id in s'.table ensures RecordOk(cfg, s', id) {
      if id in s.table && s'.table[id] == s.table[id] {
        assert RecordOk(cfg, s, id);
      } else {
        var i := PcOf(s, Outcomes).sequence;
        assert RecordFromResult(s'.log[i].body.result, cfg.maxInlineBodyBytes, now) == Ok(s'.table[id]);
      }
    }
  }

  lemma HandleMetricKeeps(cfg: Config, s: State)
    requires ConfigOk(cfg) && Core(cfg, s)
    ensures Core(cfg, HandleMetricStep(cfg, s))
  {
    var s' := HandleMetricStep(cfg, s);
    if s' != s {
      var i := PcOf(s, Metrics).sequence;
      assert MessageOk(cfg, s, Metrics, i);
      assert MessageOk(cfg, s', Metrics, i);
      TouchOne(cfg, s, s', Metrics, i);
      TableKept(cfg, s, s');
    }
  }

  lemma AckKeeps(cfg: Config, s: State, c: Consumer, io: Io)
    requires ConfigOk(cfg) && Core(cfg, s)
    ensures Core(cfg, AckStep(cfg, s, c, io))
  {
    var s' := AckStep(cfg, s, c, io);
    var pc := PcOf(s, c);
    if pc.Handled? {
      assert MessageOk(cfg, s, c, pc.sequence);
      if io.Refused? {
        AbandonKeeps(cfg, s, c);
      } else {
        CompleteIgnoresPcs(s, s', pc.sequence);
        assert MessageOk(cfg, s', c, pc.sequence);
        TouchOne(cfg, s, s', c, pc.sequence);
        TableKept(cfg, s, s');
      }
    }
  }

  lemma NakKeeps(cfg: Config, s: State, c: Consumer, io: Io)
    requires ConfigOk(cfg) && Core(cfg, s)
    ensures Core(cfg, NakStep(cfg, s, c, io))
  {
    var s' := NakStep(cfg, s, c, io);
    var pc := PcOf(s, c);
    if s' == Abandon(cfg, s, c) {
      AbandonKeeps(cfg, s, c);
    } else if s' != s {
      assert MessageOk(cfg, s, c, pc.sequence);
      if pc.sequence < |s.log| {
        CompleteIgnoresPcs(s, s', pc.sequence);
      }
      assert MessageOk(cfg, s', c, pc.sequence);
      TouchOne(cfg, s, s', c, pc.sequence);
      TableKept(cfg, s, s');
    }
  }

  lemma DeadLetterBodyOk(prefix: string, s: State, c: Consumer, i: nat, failedAt: nat)
    requires LogOk(prefix, s.log) && i < |s.log|
    ensures BodyOk(s.log, DeadLetterFor(s, c, i, failedAt))
  {
    assert EntryOk(prefix, s.log, i);
    InfoOk(s.log[..i], s.log[i].body);
  }

  lemma InfoOk(log: seq<Entry>, b: Body)
    requires b.Malformed? || BodyOk(log, b)
    ensures IsToken(RequestIDOf(b))
    ensures InvocationIDOf(b) == "" || IsInvocationID(InvocationIDOf(b))
  {
    UnknownIsToken();
  }

  lemma UnknownIsToken()
    ensures IsToken("unknown")
  {
  }

  /** After a stored dead-letter publish the stream holds a dead letter for the message
      with its original payload, even if the publish was a duplicate. */
  lemma DeadLetterStored(cfg: Config, s: State, c: Consumer, i: nat, failedAt: nat)
    requires LogOk(cfg.prefix, s.log) && i < |s.log|
    ensures var log := Publish(s.log, EntryFor(cfg.prefix, DeadLetterFor(s, c, i, failedAt)));
            LogOk(cfg.prefix, log) && s.log <= log && HasDeadLetter(log, SourceOf(c), i)
  {
    var b := DeadLetterFor(s, c, i, failedAt);
    DeadLetterBodyOk(cfg.prefix, s, c, i, failedAt);
    PublishKeepsLog(cfg.prefix, s.log, b);
    KeyMeansDeadLetter(cfg.prefix, Publish(s.log, EntryFor(cfg.prefix, b)), b, i);
  }

  lemma KeyMeansDeadLetter(prefix: string, log: seq<Entry>, b: Body, i: nat)
    requires LogOk(prefix, log) && i < |log| && b.DeadLetter? && b.sequence == i && HasKey(log, KeyOf(b))
    ensures HasDeadLetter(log, b.source, i)
  {
    var k :| 0 <= k < |log| && !log[k].body.Malformed? && KeyOf(log[k].body) == KeyOf(b);
    assert EntryOk(prefix, log, k);
    var d := log[k].body;
    assert d.DeadLetter? && d.source == b.source && d.sequence == i;
    assert d.original == log[..k][i].body == log[i].body;
    assert IsDeadLetterOf(log[k], b.source, i, log[i].body);
  }

  lemma DeadLetterKeeps(cfg: Config, s: State, c: Consumer, failedAt: nat, io: Io)
    requires ConfigOk(cfg) && Core(cfg, s)
    ensures Core(cfg, DeadLetterStep(cfg, s, c, failedAt, io))
  {
    var s' := DeadLetterStep(cfg, s, c, failedAt, io);
    var pc := PcOf(s, c);
    if s' != s {
      var i := pc.sequence;
      assert MessageOk(cfg, s, c, i);
      if io.Refused? {
        AbandonKeeps(cfg, s, c);
      } else {
        DeadLetterStored(cfg, s, c, i, failedAt);
        if Complete(s, i) { CompleteMonotone(s, s', i); }
        assert MessageOk(cfg, s', c, i);
        TouchOne(cfg, s, s', c, i);
        TableKept(cfg, s, s');
      }
    }
  }

  lemma TermKeeps(cfg: Config, s: State, c: Consumer, io: Io)
    requires ConfigOk(cfg) && Core(cfg, s)
    ensures Core(cfg, TermStep(cfg, s, c, io))
  {
    var s' := TermStep(cfg, s, c, io);
    var pc := PcOf(s, c);
    if pc.DeadLettered? {
      assert MessageOk(cfg, s, c, pc.sequence);
      assert s'.log == s.log;
      CompleteIgnoresPcs(s, s', pc.sequence);
      assert MessageOk(cfg, s', c, pc.sequence);
      TouchOne(cfg, s, s', c, pc.sequence);
      TableKept(cfg, s, s');
    }
  }

  lemma ApplyDeadLetter(cfg: Config, s: State, c: Consumer, failedAt: nat, io: Io)
    ensures Apply(cfg, s, PublishDeadLetter(c, failedAt, io)) == DeadLetterStep(cfg, s, c, failedAt, io)
  {
    DeadLetterCase(cfg, s, PublishDeadLetter(c, failedAt, io));
  }

  lemma DeadLetterCase(cfg: Config, s: State, step: Step)
    requires step.PublishDeadLetter?
    ensures Apply(cfg, s, step) == DeadLetterStep(cfg, s, step.consumer, step.failedAt, step.io)
  {
  }

  lemma PublishBodyKeeps(cfg: Config, s: State, b: Body)
    requires ConfigOk(cfg) && Core(cfg, s) && BodyOk(s.log, b)
    ensures Core(cfg, PublishBody(cfg, s, b))
  {
    PublishKeepsLog(cfg.prefix, s.log, b);
    OnlyPublished(cfg, s, PublishBody(cfg, s, b));
  }

  lemma StepKeeps(cfg: Config, s: State, step: Step)
    requires ConfigOk(cfg) && Core(cfg, s)
    ensures Core(cfg, Apply(cfg, s, step))
  {
    match step {
      case Ingress(i, r, p) => if IsInvocationID(i) && IsToken(r) { PublishBodyKeeps(cfg, s, Invocation(i, r, p)); }
      case PublishMetric(r, w, i, e, t) =>
        if IsToken(r) && IsToken(w) && (i == "" || IsInvocationID(i)) { PublishBodyKeeps(cfg, s, Metric(r, w, i, e, t)); }
      case ForeignPublish(subject, bytes) =>
        var e := Entry(subject, "", Malformed(bytes));
        AppendKeepsLog(cfg.prefix, s.log, e);
        OnlyPublished(cfg, s, s.(log := s.log + [e]));
      case Fetch(c, i) => FetchKeeps(cfg, s, c, i);
      case HandleInvocation(acquired, now, io) => HandleInvocationKeeps(cfg, s, acquired, now, io);
      case HandleDispatch(c, outcome, startedAt, now, io) =>
        HandleDispatchKeeps(cfg, s, c, outcome, startedAt, now, io);
      case HandleOutcome(now, io) => HandleOutcomeKeeps(cfg, s, now, io);
      case HandleMetric => HandleMetricKeeps(cfg, s);
      case Ack(c, io) => AckKeeps(cfg, s, c, io);
      case Nak(c, io) => NakKeeps(cfg, s, c, io);
      case PublishDeadLetter(c, failedAt, io) => DeadLetterKeeps(cfg, s, c, failedAt, io);
      case Term(c, io) => TermKeeps(cfg, s, c, io);
      case Stop(c) => AbandonKeeps(cfg, s, c);
    }
  }

  lemma {:induction false} RunKeeps(cfg: Config, steps: seq<Step>)
    requires ConfigOk(cfg)
    ensures Core(cfg, Run(cfg, Init(), steps))
  {
    if steps == [] {
      assert forall c: Consumer :: cfg.policy(c).maxDeliver > 0;
    } else {
      RunKeeps(cfg, steps[..|steps| - 1]);
      StepKeeps(cfg, Run(cfg, Init(), steps[..|steps| - 1]), steps[|steps| - 1]);
    }
  }
}
