/** Queue subjects and message identifiers (pkg/serverless/subjects.go and the
    publishers of pkg/serverless/nats.go). */
module Subjects {
  import opened Text

  const DEFAULT_SUBJECT_PREFIX := "runtime.serverless"

  datatype Source = InvocationSource | DispatchSource | ResultSource | MetricSource

  function SourceName(s: Source): string {
    match s
    case InvocationSource => "invocation"
    case DispatchSource => "dispatch"
    case ResultSource => "result"
    case MetricSource => "metric"
  }

  // ------------------------------------------------------------------- tokens

  predicate IsTokenChar(c: char) {
    'a' <= c <= 'z' || '0' <= c <= '9' || c == '_' || c == '-'
  }

  /** The pattern ^[a-z0-9_-]+$. */
  predicate IsToken(s: string) {
    s != "" && forall c :: c in s ==> IsTokenChar(c)
  }

  function TrimDots(s: string): string
    decreases |s|
  {
    if s != "" && s[0] == '.' then TrimDots(s[1..])
    else if s != "" && s[|s| - 1] == '.' then TrimDots(s[..|s| - 1])
    else s
  }

  function NormalizeSubjectPrefix(value: string): string {
    var trimmed := TrimDots(TrimSpace(value));
    if trimmed == "" then DEFAULT_SUBJECT_PREFIX else trimmed
  }

  function DotsToDashes(s: string): (r: string)
    ensures |r| == |s|
    ensures forall i :: 0 <= i < |s| ==> r[i] == if s[i] == '.' then '-' else s[i]
  {
    seq(|s|, i requires 0 <= i < |s| => if s[i] == '.' then '-' else s[i])
  }

  /** Replaces every maximal run of characters outside [a-z0-9_-] by one dash. */
  function CollapseInvalid(s: string, inRun: bool): (r: string)
    ensures forall c :: c in r ==> IsTokenChar(c)
    ensures s != "" && !inRun ==> r != ""
  {
    if s == "" then ""
    else if IsTokenChar(s[0]) then [s[0]] + CollapseInvalid(s[1..], false)
    else if inRun then CollapseInvalid(s[1..], true)
    else ['-'] + CollapseInvalid(s[1..], true)
  }

  /** normalizeDispatchToken: whatever it is given, the result is one subject token, and
      a token is left as it is. */
  function DispatchToken(value: string): (r: string)
    ensures IsToken(r)
    ensures IsToken(value) ==> r == value
  {
    var normalized := DotsToDashes(Canonical(value));
    assert IsToken(value) ==> normalized == value by {
      if IsToken(value) {
        TokenIsCanonical(value);
      }
    }
    if normalized == "" then "unknown"
    else if IsToken(normalized) then normalized
    else CollapseInvalid(normalized, false)
  }

  lemma TokenIsCanonical(value: string)
    requires IsToken(value)
    ensures Canonical(value) == value && DotsToDashes(value) == value && '.' !in value
  {
    assert value[0] in value && value[|value| - 1] in value;
    CanonicalIsFixed(value);
    forall i | 0 <= i < |value| ensures DotsToDashes(value)[i] == value[i] {
      assert value[i] in value;
    }
  }

  // ----------------------------------------------------------------- subjects

  /** The prefix and further tokens, joined by dots. */
  function Dotted(prefix: string, tail: seq<string>): string {
    Join([NormalizeSubjectPrefix(prefix)] + tail, '.')
  }

  function InvocationSubject(prefix: string, requestID: string): string {
    Dotted(prefix, ["invoke", requestID])
  }

  function ResultSubject(prefix: string, requestID: string): string {
    Dotted(prefix, ["result", requestID])
  }

  function MetricsSubject(prefix: string, requestID: string): string {
    Dotted(prefix, ["metrics", requestID])
  }

  function DispatchSubject(prefix: string, requestID: string, workerName: string): string {
    Dotted(prefix, ["dispatch", DispatchToken(requestID), DispatchToken(workerName)])
  }

  function DeadLetterSubject(prefix: string, source: Source, requestID: string): string {
    Dotted(prefix, ["dlq", DispatchToken(SourceName(source)), DispatchToken(requestID)])
  }

  function StreamSubjects(prefix: string): (r: seq<string>)
    ensures |r| == 5
  {
    [ Dotted(prefix, ["invoke", "*"]),
      Dotted(prefix, ["dispatch", "*", "*"]),
      Dotted(prefix, ["result", "*"]),
      Dotted(prefix, ["metrics", "*"]),
      Dotted(prefix, ["dlq", "*", "*"]) ]
  }

  /** Wildcard matching of a subject against a filter, token by token. */
  predicate Matches(filter: string, subject: string) {
    TokensMatch(Split(filter, '.'), Split(subject, '.'))
  }

  /** The subject of one message family: which binding it belongs to, and its tokens after
      the family token. */
  datatype Address =
    | InvokeAddress(requestID: string)
    | DispatchAddress(requestID: string, workerName: string)
    | ResultAddress(requestID: string)
    | MetricsAddress(requestID: string)
    | DeadLetterAddress(source: Source, requestID: string)

  function SubjectOf(prefix: string, a: Address): string {
    match a
    case InvokeAddress(r) => InvocationSubject(prefix, r)
    case DispatchAddress(r, w) => DispatchSubject(prefix, r, w)
    case ResultAddress(r) => ResultSubject(prefix, r)
    case MetricsAddress(r) => MetricsSubject(prefix, r)
    case DeadLetterAddress(s, r) => DeadLetterSubject(prefix, s, r)
  }

  function FamilyIndex(a: Address): (k: nat)
    ensures k < 5
  {
    match a
    case InvokeAddress(_) => 0
    case DispatchAddress(_, _) => 1
    case ResultAddress(_) => 2
    case MetricsAddress(_) => 3
    case DeadLetterAddress(_, _) => 4
  }

  function FamilyName(k: nat): string
    requires k < 5
  {
    ["invoke", "dispatch", "result", "metrics", "dlq"][k]
  }

  /** The tokens that follow the prefix in a subject. */
  function Tail(a: Address): seq<string> {
    match a
    case InvokeAddress(r) => ["invoke", r]
    case DispatchAddress(r, w) => ["dispatch", DispatchToken(r), DispatchToken(w)]
    case ResultAddress(r) => ["result", r]
    case MetricsAddress(r) => ["metrics", r]
    case DeadLetterAddress(s, r) => ["dlq", DispatchToken(SourceName(s)), DispatchToken(r)]
  }

  function FilterTail(k: nat): seq<string>
    requires k < 5
  {
    if k == 1 || k == 4 then [FamilyName(k), "*", "*"] else [FamilyName(k), "*"]
  }

  predicate DotFree(tail: seq<string>) {
    forall i :: 0 <= i < |tail| ==> '.' !in tail[i]
  }

  lemma DottedTokens(prefix: string, tail: seq<string>)
    requires |tail| >= 1 && DotFree(tail)
    ensures Split(Dotted(prefix, tail), '.') == Split(NormalizeSubjectPrefix(prefix), '.') + tail
  {
    var base := NormalizeSubjectPrefix(prefix);
    assert ([base] + tail)[1..] == tail;
    SplitJoin(tail, '.');
    SplitConcat(base, Join(tail, '.'), '.');
  }

  lemma FilterTokens(prefix: string, k: nat)
    requires k < 5
    ensures Split(StreamSubjects(prefix)[k], '.') == Split(NormalizeSubjectPrefix(prefix), '.') + FilterTail(k)
  {
    DottedTokens(prefix, FilterTail(k));
  }

  lemma TailDotFree(a: Address)
    requires '.' !in a.requestID
    ensures DotFree(Tail(a))
  {
    match a {
      case InvokeAddress(r) => DotFreePair("invoke", r);
      case DispatchAddress(r, w) => DotFreeTriple("dispatch", DispatchToken(r), DispatchToken(w));
      case ResultAddress(r) => DotFreePair("result", r);
      case MetricsAddress(r) => DotFreePair("metrics", r);
      case DeadLetterAddress(s, r) => DotFreeTriple("dlq", DispatchToken(SourceName(s)), DispatchToken(r));
    }
  }

  lemma DotFreePair(family: string, a: string)
    requires '.' !in family && '.' !in a
    ensures DotFree([family, a])
  {
  }

  lemma DotFreeTriple(family: string, a: string, b: string)
    requires '.' !in family && '.' !in a && '.' !in b
    ensures DotFree([family, a, b])
  {
  }

  lemma SubjectTokens(prefix: string, a: Address)
    requires '.' !in a.requestID
    ensures Split(SubjectOf(prefix, a), '.') == Split(NormalizeSubjectPrefix(prefix), '.') + Tail(a)
  {
    TailDotFree(a);
    DottedTokens(prefix, Tail(a));
  }

  predicate TokensMatch(f: seq<string>, s: seq<string>) {
    |f| == |s| && forall i :: 0 <= i < |f| ==> f[i] == "*" || f[i] == s[i]
  }

  lemma CommonBase(base: seq<string>, f: seq<string>, s: seq<string>)
    ensures TokensMatch(base + f, base + s) <==> TokensMatch(f, s)
  {
    var n := |base|;
    var ff, ss := base + f, base + s;
    if TokensMatch(ff, ss) {
      forall i | 0 <= i < |f| ensures f[i] == "*" || f[i] == s[i] {
        assert ff[n + i] == f[i] && ss[n + i] == s[i];
      }
    }
  }

  /** Every subject the publishers build matches exactly one of the stream's bindings,
      the one of its own family, whatever the configured prefix is. */
  lemma SubjectMatchesExactlyOneBinding(prefix: string, a: Address, k: nat)
    requires '.' !in a.requestID && k < 5
    ensures Matches(StreamSubjects(prefix)[k], SubjectOf(prefix, a)) <==> k == FamilyIndex(a)
  {
    FilterTokens(prefix, k);
    SubjectTokens(prefix, a);
    CommonBase(Split(NormalizeSubjectPrefix(prefix), '.'), FilterTail(k), Tail(a));
    if k != FamilyIndex(a) {
      FamilyNamesDistinct(k, FamilyIndex(a));
      assert FilterTail(k)[0] == FamilyName(k) && Tail(a)[0] == FamilyName(FamilyIndex(a));
    }
  }

  lemma FamilyNamesDistinct(j: nat, k: nat)
    requires j < 5 && k < 5 && j != k
    ensures FamilyName(j) != FamilyName(k) && FamilyName(j) != "*"
  {
    var names := ["invoke", "dispatch", "result", "metrics", "dlq"];
    assert names[0][0] == 'i' && names[1][0] == 'd' && names[2][0] == 'r' && names[3][0] == 'm' && names[4][0] == 'd';
    assert names[1][1] == 'i' && names[4][1] == 'l';
  }

  /** Subjects determine their address: a worker's dispatch filter selects exactly the
      dispatches addressed to that worker of that request. */
  lemma SubjectInjective(prefix: string, a: Address, b: Address)
    requires IsToken(a.requestID) && IsToken(b.requestID)
    requires a.DispatchAddress? ==> IsToken(a.workerName)
    requires b.DispatchAddress? ==> IsToken(b.workerName)
    requires SubjectOf(prefix, a) == SubjectOf(prefix, b)
    ensures a == b
  {
    TokenIsCanonical(a.requestID);
    TokenIsCanonical(b.requestID);
    SubjectTokens(prefix, a);
    SubjectTokens(prefix, b);
    var base := Split(NormalizeSubjectPrefix(prefix), '.');
    assert (base + Tail(a))[|base|..] == Tail(a);
    assert (base + Tail(b))[|base|..] == Tail(b);
    assert Tail(a)[0] == FamilyName(FamilyIndex(a)) && Tail(b)[0] == FamilyName(FamilyIndex(b));
    if FamilyIndex(a) != FamilyIndex(b) {
      FamilyNamesDistinct(FamilyIndex(a), FamilyIndex(b));
      assert false;
    }
    assert Tail(a)[1] == Tail(b)[1];
    if a.DispatchAddress? {
      assert Tail(a)[2] == Tail(b)[2];
    }
    if a.DeadLetterAddress? {
      assert Tail(a)[2] == Tail(b)[2];
      SourceTokens(a.source);
      SourceTokens(b.source);
      SourceNamesDistinct(a.source, b.source);
    }
  }

  lemma SourceTokens(s: Source)
    ensures IsToken(SourceName(s)) && DispatchToken(SourceName(s)) == SourceName(s)
  {
  }

  lemma SourceNamesDistinct(a: Source, b: Source)
    ensures SourceName(a)[0] == SourceName(b)[0] ==> a == b
  {
  }

  // ------------------------------------------------------- message identifiers

  predicate IsHex(c: char) {
    '0' <= c <= '9' || 'a' <= c <= 'f'
  }

  /** An identifier made by NewInvocationID: "inv-" and 32 hexadecimal digits. */
  predicate IsInvocationID(s: string) {
    |s| == 36 && s[..4] == "inv-" && forall i :: 4 <= i < 36 ==> IsHex(s[i])
  }

  lemma InvocationIDIsToken(s: string)
    requires IsInvocationID(s)
    ensures IsToken(s) && s[0] == 'i'
  {
    assert s[0] == s[..4][0] && s[1] == s[..4][1] && s[2] == s[..4][2] && s[3] == s[..4][3];
    forall c | c in s ensures IsTokenChar(c) {
      var i :| 0 <= i < |s| && s[i] == c;
      if i >= 4 { assert IsHex(s[i]); }
    }
  }

  /** What a worker reports about itself. */
  datatype MetricEvent = WorkerRegistered | Heartbeat | InvocationStarted | InvocationFinished | InvocationFailed

  function EventName(e: MetricEvent): string {
    match e
    case WorkerRegistered => "registered"
    case Heartbeat => "heartbeat"
    case InvocationStarted => "invocation_" + "started"
    case InvocationFinished => "invocation_" + "finished"
    case InvocationFailed => "invocation_" + "failed"
  }

  /** What a published message is identified by. */
  datatype MessageKey =
    | InvocationKey(invocationID: string)
    | DispatchKey(invocationID: string, workerName: string)
    | ResultKey(invocationID: string)
    | InvocationMetricKey(invocationID: string, event: MetricEvent)
    | WorkerMetricKey(workerName: string, event: MetricEvent, reportedAt: nat)
    | DeadLetterKey(source: Source, invocationID: string, sequence: nat)
    | AnonymousDeadLetterKey(source: Source, sequence: nat, failedAt: nat)

  /** The part of a dead-letter identifier after its source. */
  function DeadLetterRest(k: MessageKey): string
    requires k.DeadLetterKey? || k.AnonymousDeadLetterKey?
  {
    match k
    case DeadLetterKey(_, i, n) => DispatchToken(i) + ("-" + FormatNat(n))
    case AnonymousDeadLetterKey(_, n, t) => FormatNat(n) + "-" + FormatNat(t)
  }

  /** The part of a metric identifier after its family. */
  function MetricRest(k: MessageKey): string
    requires k.InvocationMetricKey? || k.WorkerMetricKey?
  {
    match k
    case InvocationMetricKey(i, e) => i + ("-" + EventName(e))
    case WorkerMetricKey(w, e, t) => DispatchToken(w) + ("-" + EventName(e)) + ("-" + FormatNat(t))
  }

  /** The Nats-Msg-Id each publisher attaches. */
  function MessageID(k: MessageKey): string {
    match k
    case InvocationKey(i) => i
    case DispatchKey(i, w) => "dispatch-" + (i + ("-" + DispatchToken(w)))
    case ResultKey(i) => "result-" + i
    case InvocationMetricKey(_, _) => "metric-" + MetricRest(k)
    case WorkerMetricKey(_, _, _) => "metric-" + MetricRest(k)
    case DeadLetterKey(s, _, _) => "dlq-" + (SourceName(s) + ("-" + DeadLetterRest(k)))
    case AnonymousDeadLetterKey(s, _, _) => "dlq-" + (SourceName(s) + ("-" + DeadLetterRest(k)))
  }

  predicate IsKey(k: MessageKey) {
    match k
    case InvocationKey(i) => IsInvocationID(i)
    case DispatchKey(i, w) => IsInvocationID(i) && IsToken(w)
    case ResultKey(i) => IsInvocationID(i)
    case InvocationMetricKey(i, _) => IsInvocationID(i)
    case WorkerMetricKey(w, _, _) => IsToken(w)
    case DeadLetterKey(_, i, _) => IsInvocationID(i)
    case AnonymousDeadLetterKey(_, _, _) => true
  }

  function KeyFamily(k: MessageKey): (nat)
  {
    match k
    case InvocationKey(_) => 0
    case DispatchKey(_, _) => 1
    case ResultKey(_) => 2
    case InvocationMetricKey(_, _) => 3
    case WorkerMetricKey(_, _, _) => 3
    case DeadLetterKey(_, _, _) => 4
    case AnonymousDeadLetterKey(_, _, _) => 4
  }

  lemma FamilyChars(k: MessageKey)
    requires IsKey(k)
    ensures |MessageID(k)| >= 2
    ensures var id := MessageID(k);
            match KeyFamily(k)
            case 0 => id[0] == 'i'
            case 1 => id[0] == 'd' && id[1] == 'i'
            case 2 => id[0] == 'r'
            case 3 => id[0] == 'm'
            case _ => id[0] == 'd' && id[1] == 'l'
  {
    match k {
      case InvocationKey(i) => InvocationIDIsToken(i);
      case DispatchKey(i, w) => DispatchHead(i + ("-" + DispatchToken(w)));
      case ResultKey(i) => ResultHead(i);
      case InvocationMetricKey(_, _) => MetricHead(MetricRest(k));
      case WorkerMetricKey(_, _, _) => MetricHead(MetricRest(k));
      case DeadLetterKey(s, _, _) => DeadLetterHead(SourceName(s) + ("-" + DeadLetterRest(k)));
      case AnonymousDeadLetterKey(s, _, _) => DeadLetterHead(SourceName(s) + ("-" + DeadLetterRest(k)));
    }
  }

  lemma DispatchHead(tail: string)
    ensures |"dispatch-" + tail| >= 2 && ("dispatch-" + tail)[0] == 'd' && ("dispatch-" + tail)[1] == 'i'
  {
    LiteralHead("dispatch-", tail);
  }

  lemma ResultHead(tail: string)
    ensures |"result-" + tail| >= 2 && ("result-" + tail)[0] == 'r'
  {
    LiteralHead("result-", tail);
  }

  lemma MetricHead(tail: string)
    ensures |"metric-" + tail| >= 2 && ("metric-" + tail)[0] == 'm'
  {
    LiteralHead("metric-", tail);
  }

  lemma DeadLetterHead(tail: string)
    ensures |"dlq-" + tail| >= 2 && ("dlq-" + tail)[0] == 'd' && ("dlq-" + tail)[1] == 'l'
  {
    LiteralHead("dlq-", tail);
  }

  lemma LiteralHead(head: string, tail: string)
    requires |head| >= 2
    ensures (head + tail)[0] == head[0] && (head + tail)[1] == head[1]
  {
  }

  lemma Cancel(p: string, a: string, b: string)
    requires p + a == p + b
    ensures a == b
  {
    assert (p + a)[|p|..] == a && (p + b)[|p|..] == b;
  }

  /** Two identifiers followed by the same separator and a suffix. */
  lemma CancelFixed(a: string, x: string, b: string, y: string)
    requires |a| == |b| && a + x == b + y
    ensures a == b && x == y
  {
    assert (a + x)[..|a|] == a && (b + y)[..|b|] == b;
    assert (a + x)[|a|..] == x && (b + y)[|b|..] == y;
  }

  /** Message identifiers of generated invocations are injective, within each family and
      across the families, so the duplicate window never confuses two messages. */
  lemma MessageIDInjective(a: MessageKey, b: MessageKey)
    requires IsKey(a) && IsKey(b) && MessageID(a) == MessageID(b)
    ensures a == b
  {
    FamilyChars(a);
    FamilyChars(b);
    assert KeyFamily(a) == KeyFamily(b);
    match a {
      case InvocationKey(_) =>
      case DispatchKey(_, _) => DispatchIDInjective(a, b);
      case ResultKey(i) => Cancel("result-", i, b.invocationID);
      case InvocationMetricKey(_, _) => MetricIDInjective(a, b);
      case WorkerMetricKey(_, _, _) => MetricIDInjective(a, b);
      case DeadLetterKey(_, _, _) => DeadLetterIDInjective(a, b);
      case AnonymousDeadLetterKey(_, _, _) => DeadLetterIDInjective(a, b);
    }
  }

  lemma DispatchIDInjective(a: MessageKey, b: MessageKey)
    requires IsKey(a) && IsKey(b) && MessageID(a) == MessageID(b)
    requires a.DispatchKey? && b.DispatchKey?
    ensures a == b
  {
    var wa, wb := "-" + DispatchToken(a.workerName), "-" + DispatchToken(b.workerName);
    Cancel("dispatch-", a.invocationID + wa, b.invocationID + wb);
    CancelFixed(a.invocationID, wa, b.invocationID, wb);
    Cancel("-", DispatchToken(a.workerName), DispatchToken(b.workerName));
  }

  lemma LastDash(a: string, x: string, i: nat)
    requires '-' !in x
    ensures var s := a + ("-" + x); s[|a|] == '-' && (|a| < i < |s| ==> s[i] != '-')
  {
    var s := a + ("-" + x);
    if |a| < i < |s| {
      assert s[i] == x[i - |a| - 1];
    }
  }

  /** The part after the last dash, and what precedes it. */
  lemma CancelLast(a: string, x: string, b: string, y: string)
    requires a + ("-" + x) == b + ("-" + y) && '-' !in x && '-' !in y
    ensures a == b && x == y
  {
    LastDash(a, x, |b|);
    LastDash(b, y, |a|);
    CancelFixed(a, "-" + x, b, "-" + y);
    Cancel("-", x, y);
  }

  lemma EventNameFacts(e: MetricEvent)
    ensures EventName(e) != "" && '-' !in EventName(e) && !IsDigit(EventName(e)[|EventName(e)| - 1])
  {
  }

  lemma EventNameInjective(a: MetricEvent, b: MetricEvent)
    requires EventName(a) == EventName(b)
    ensures a == b
  {
    assert |EventName(WorkerRegistered)| == 10 && |EventName(Heartbeat)| == 9;
    assert |EventName(InvocationStarted)| == 18 && |EventName(InvocationFinished)| == 19 && |EventName(InvocationFailed)| == 17;
  }

  lemma FormatNatDashFree(n: nat)
    ensures '-' !in FormatNat(n)
  {
    assert forall c :: c in FormatNat(n) ==> IsDigit(c);
  }

  /** An invocation's metric ends in a letter, a worker's in a digit. */
  lemma MetricRestEnd(k: MessageKey)
    requires IsKey(k) && KeyFamily(k) == 3
    ensures var r := MetricRest(k); r != "" && (IsDigit(r[|r| - 1]) <==> k.WorkerMetricKey?)
  {
    EventNameFacts(k.event);
    if k.WorkerMetricKey? {
      var digits := FormatNat(k.reportedAt);
      assert digits[|digits| - 1] in digits;
    }
  }

  lemma MetricIDInjective(a: MessageKey, b: MessageKey)
    requires IsKey(a) && IsKey(b) && MessageID(a) == MessageID(b)
    requires KeyFamily(a) == 3 && KeyFamily(b) == 3
    ensures a == b
  {
    Cancel("metric-", MetricRest(a), MetricRest(b));
    MetricRestEnd(a);
    MetricRestEnd(b);
    MetricRestInjective(a, b);
  }

  lemma MetricRestInjective(a: MessageKey, b: MessageKey)
    requires IsKey(a) && IsKey(b) && KeyFamily(a) == 3 && KeyFamily(b) == 3
    requires a.WorkerMetricKey? <==> b.WorkerMetricKey?
    requires MetricRest(a) == MetricRest(b)
    ensures a == b
  {
    EventNameFacts(a.event);
    EventNameFacts(b.event);
    if a.WorkerMetricKey? {
      FormatNatDashFree(a.reportedAt);
      FormatNatDashFree(b.reportedAt);
      var wa, wb := DispatchToken(a.workerName), DispatchToken(b.workerName);
      CancelLast(wa + ("-" + EventName(a.event)), FormatNat(a.reportedAt), wb + ("-" + EventName(b.event)), FormatNat(b.reportedAt));
      CancelLast(wa, EventName(a.event), wb, EventName(b.event));
      FormatNatInjective(a.reportedAt, b.reportedAt);
    } else {
      CancelLast(a.invocationID, EventName(a.event), b.invocationID, EventName(b.event));
    }
    EventNameInjective(a.event, b.event);
  }

  lemma DeadLetterIDInjective(a: MessageKey, b: MessageKey)
    requires IsKey(a) && IsKey(b) && MessageID(a) == MessageID(b)
    requires KeyFamily(a) == 4 && KeyFamily(b) == 4
    ensures a == b
  {
    var ra, rb := DeadLetterRest(a), DeadLetterRest(b);
    Cancel("dlq-", SourceName(a.source) + ("-" + ra), SourceName(b.source) + ("-" + rb));
    CancelSource(a.source, ra, b.source, rb);
    DeadLetterRestInjective(a, b);
  }

  lemma CancelSource(x: Source, ra: string, y: Source, rb: string)
    requires SourceName(x) + ("-" + ra) == SourceName(y) + ("-" + rb)
    ensures x == y && ra == rb
  {
    SourceHead(x, "-" + ra);
    SourceHead(y, "-" + rb);
    SourceNamesDistinct(x, y);
    Cancel(SourceName(x), "-" + ra, "-" + rb);
    Cancel("-", ra, rb);
  }

  lemma SourceHead(x: Source, rest: string)
    ensures SourceName(x) != "" && (SourceName(x) + rest)[0] == SourceName(x)[0]
  {
  }

  lemma DeadLetterRestHead(k: MessageKey)
    requires IsKey(k) && KeyFamily(k) == 4
    ensures var r := DeadLetterRest(k); r != "" && (r[0] == 'i' <==> k.DeadLetterKey?)
  {
    if k.DeadLetterKey? {
      InvocationIDIsToken(k.invocationID);
    } else {
      DigitsHead(k.sequence);
    }
  }

  lemma DeadLetterRestInjective(a: MessageKey, b: MessageKey)
    requires IsKey(a) && IsKey(b) && KeyFamily(a) == 4 && KeyFamily(b) == 4
    requires a.source == b.source && DeadLetterRest(a) == DeadLetterRest(b)
    ensures a == b
  {
    DeadLetterRestHead(a);
    DeadLetterRestHead(b);
    if a.DeadLetterKey? {
      InvocationIDIsToken(a.invocationID);
      InvocationIDIsToken(b.invocationID);
      var na, nb := "-" + FormatNat(a.sequence), "-" + FormatNat(b.sequence);
      CancelFixed(a.invocationID, na, b.invocationID, nb);
      Cancel("-", FormatNat(a.sequence), FormatNat(b.sequence));
      FormatNatInjective(a.sequence, b.sequence);
    } else {
      SplitNumbers(a.sequence, a.failedAt);
      SplitNumbers(b.sequence, b.failedAt);
      PairEqual(FormatNat(a.sequence), FormatNat(a.failedAt), FormatNat(b.sequence), FormatNat(b.failedAt));
      FormatNatInjective(a.sequence, b.sequence);
      FormatNatInjective(a.failedAt, b.failedAt);
    }
  }

  lemma PairEqual(a: string, b: string, c: string, d: string)
    requires [a, b] == [c, d]
    ensures a == c && b == d
  {
    assert [a, b][0] == [c, d][0] && [a, b][1] == [c, d][1];
  }

  lemma DigitsHead(n: nat)
    ensures IsDigit(FormatNat(n)[0])
  {
    assert FormatNat(n)[0] in FormatNat(n);
  }

  lemma SplitNumbers(n: nat, t: nat)
    ensures Split(FormatNat(n) + "-" + FormatNat(t), '-') == [FormatNat(n), FormatNat(t)]
  {
    SplitOfPart(FormatNat(n), '-');
    SplitOfPart(FormatNat(t), '-');
    SplitConcat(FormatNat(n), FormatNat(t), '-');
  }
}
