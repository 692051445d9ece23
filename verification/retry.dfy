/** Retry policies (pkg/serverless/reliability.go) and their trip through the worker
    sidecar's environment (internal/controller/runtime_unit_helpers.go). */
module Retry {
  import opened Text

  const DEFAULT_MAX_DELIVER := 5
  const DEFAULT_BACKOFF: seq<string> := ["2s", "10s", "30s"]
  const TWO_63: int := 0x8000_0000_0000_0000
  const TWO_64: int := 0x1_0000_0000_0000_0000

  /** time.ParseDuration: any function from text to a number of nanoseconds. */
  type DurationParser = string -> Option<int>

  /** What the proofs use of time.ParseDuration: it rejects the empty string and any
      text that contains a comma. */
  ghost predicate RejectsCommas(parse: DurationParser) {
    && parse("") == None
    && forall s: string :: ',' in s ==> parse(s) == None
  }

  datatype RetryPolicy = RetryPolicy(maxDeliver: int, backoff: seq<string>)

  // ------------------------------------------------------------ normalisation

  function Defaulted(p: RetryPolicy): RetryPolicy {
    RetryPolicy(
      if p.maxDeliver <= 0 then DEFAULT_MAX_DELIVER else p.maxDeliver,
      if p.backoff == [] then DEFAULT_BACKOFF else p.backoff)
  }

  predicate Positive(parse: DurationParser, value: string) {
    var d := parse(TrimSpace(value));
    d.Some? && d.value > 0
  }

  /** A policy that Normalized has accepted. */
  predicate IsNormal(parse: DurationParser, p: RetryPolicy) {
    && 0 < p.maxDeliver
    && 0 < |p.backoff| <= p.maxDeliver
    && forall i :: 0 <= i < |p.backoff| ==> Positive(parse, p.backoff[i])
  }

  /** RetryPolicy.Normalized: accepts exactly the policies whose defaulted form is
      normal, and returns that form. */
  method Normalized(parse: DurationParser, p: RetryPolicy) returns (r: Result<RetryPolicy>)
    ensures r.Ok? <==> IsNormal(parse, Defaulted(p))
    ensures r.Ok? ==> r.value == Defaulted(p)
  {
    var policy := p;
    if policy.maxDeliver <= 0 {
      policy := policy.(maxDeliver := DEFAULT_MAX_DELIVER);
    }
    if |policy.backoff| == 0 {
      policy := policy.(backoff := DEFAULT_BACKOFF);
    }
    if |policy.backoff| > policy.maxDeliver {
      return Err("retry backoff entries must be <= maxDeliver");
    }
    for i := 0 to |policy.backoff|
      invariant forall j :: 0 <= j < i ==> Positive(parse, policy.backoff[j])
    {
      var duration := parse(TrimSpace(policy.backoff[i]));
      if duration.None? {
        return Err("parse retry backoff");
      }
      if duration.value <= 0 {
        return Err("retry backoff must be > 0");
      }
    }
    return Ok(policy);
  }

  // ------------------------------------------------------------------- delays

  function Durations(parse: DurationParser, values: seq<string>): (out: seq<int>)
    ensures |out| <= |values|
    ensures forall i :: 0 <= i < |out| ==> out[i] > 0
  {
    if values == [] then []
    else
      var rest := Durations(parse, values[..|values| - 1]);
      var last := values[|values| - 1];
      if Positive(parse, last) then rest + [parse(TrimSpace(last)).value] else rest
  }

  /** RetryPolicy.BackoffDurations. */
  method BackoffDurations(parse: DurationParser, p: RetryPolicy) returns (out: seq<int>)
    ensures out == Durations(parse, p.backoff)
  {
    out := [];
    for i := 0 to |p.backoff|
      invariant out == Durations(parse, p.backoff[..i])
    {
      assert p.backoff[..i + 1][..i] == p.backoff[..i];
      var duration := parse(TrimSpace(p.backoff[i]));
      if duration.Some? && duration.value > 0 {
        out := out + [duration.value];
      }
    }
    assert p.backoff[..|p.backoff|] == p.backoff;
  }

  /** The conversion int(x) of an unsigned 64-bit value. */
  function AsInt64(x: int): int
    requires 0 <= x < TWO_64
  {
    if x < TWO_63 then x else x - TWO_64
  }

  /** RetryPolicy.DelayForDelivery for an unsigned 64-bit delivery count; None is the
      out-of-range index that would abort the consumer. */
  function DelayForDelivery(parse: DurationParser, p: RetryPolicy, delivery: int): Option<int>
    requires 0 <= delivery < TWO_64
  {
    var delays := Durations(parse, p.backoff);
    if |delays| == 0 then Some(0)
    else if delivery == 0 then Some(delays[0])
    else
      var index := AsInt64(delivery - 1);
      var clamped := if index >= |delays| then |delays| - 1 else index;
      if 0 <= clamped then Some(delays[clamped]) else None
  }

  lemma {:induction false} DurationsOfNormal(parse: DurationParser, values: seq<string>)
    requires forall i :: 0 <= i < |values| ==> Positive(parse, values[i])
    ensures |Durations(parse, values)| == |values|
    ensures forall i :: 0 <= i < |values| ==>
              Some(Durations(parse, values)[i]) == parse(TrimSpace(values[i]))
  {
    if values != [] {
      DurationsOfNormal(parse, values[..|values| - 1]);
    }
  }

  /** For a normal policy the delay of delivery d is the positive backoff entry
      min(d-1, len-1), and the signed index is in range exactly up to 2^63. */
  lemma DelayExact(parse: DurationParser, p: RetryPolicy, d: int)
    requires IsNormal(parse, p) && 1 <= d < TWO_64
    ensures DelayForDelivery(parse, p, d).Some? <==> d <= TWO_63
    ensures d <= TWO_63 ==>
              var k := if d - 1 < |p.backoff| - 1 then d - 1 else |p.backoff| - 1;
              && DelayForDelivery(parse, p, d) == Some(parse(TrimSpace(p.backoff[k])).value)
              && DelayForDelivery(parse, p, d).value > 0
  {
    DurationsOfNormal(parse, p.backoff);
    assert TWO_63 < TWO_64;
    assert |p.backoff| < TWO_63 || |p.backoff| >= TWO_63;
    if |p.backoff| >= TWO_63 && d > TWO_63 {
      assert AsInt64(d - 1) < 0;
    }
  }

  // ---------------------------------------------------- sidecar environment trip

  function NonEmptyTrimmed(parts: seq<string>): (out: seq<string>)
    ensures forall i :: 0 <= i < |out| ==> out[i] != "" && Trimmed(out[i])
  {
    if parts == [] then []
    else
      var rest := NonEmptyTrimmed(parts[..|parts| - 1]);
      var last := TrimSpace(parts[|parts| - 1]);
      if last != "" then rest + [last] else rest
  }

  /** SplitRetryBackoff. */
  method SplitRetryBackoff(value: string) returns (out: seq<string>)
    ensures out == NonEmptyTrimmed(Split(value, ','))
  {
    var parts := Split(value, ',');
    out := [];
    for i := 0 to |parts|
      invariant out == NonEmptyTrimmed(parts[..i])
    {
      assert parts[..i + 1][..i] == parts[..i];
      var trimmed := TrimSpace(parts[i]);
      if trimmed != "" {
        out := out + [trimmed];
      }
    }
    assert parts[..|parts|] == parts;
  }

  /** RetryPolicyFromEnv; the zero values stand for fields that stay unset. */
  function PolicyFromEnv(maxDeliver: string, backoff: string): RetryPolicy {
    var parsed := Atoi(TrimSpace(maxDeliver));
    RetryPolicy(
      if parsed.Some? then parsed.value else 0,
      NonEmptyTrimmed(Split(backoff, ',')))
  }

  lemma {:induction false} NonEmptyTrimmedOfGood(parse: DurationParser, values: seq<string>)
    requires RejectsCommas(parse)
    requires forall i :: 0 <= i < |values| ==> Positive(parse, values[i])
    ensures |NonEmptyTrimmed(values)| == |values|
    ensures forall i :: 0 <= i < |values| ==> NonEmptyTrimmed(values)[i] == TrimSpace(values[i])
  {
    if values != [] {
      NonEmptyTrimmedOfGood(parse, values[..|values| - 1]);
      assert TrimSpace(values[|values| - 1]) != "";
    }
  }

  lemma EntriesAreCommaFree(parse: DurationParser, values: seq<string>)
    requires RejectsCommas(parse)
    requires forall i :: 0 <= i < |values| ==> Positive(parse, values[i])
    ensures forall i :: 0 <= i < |values| ==> ',' !in values[i]
  {
    forall i | 0 <= i < |values| ensures ',' !in values[i] {
      if ',' in values[i] {
        TrimKeeps(values[i], ',');
      }
    }
  }

  /** The backoff list read back from the environment carries the same durations. */
  lemma BackoffRoundTrip(parse: DurationParser, backoff: seq<string>)
    requires RejectsCommas(parse) && |backoff| >= 1
    requires forall i :: 0 <= i < |backoff| ==> Positive(parse, backoff[i])
    ensures var back := NonEmptyTrimmed(Split(Join(backoff, ','), ','));
            && |back| == |backoff|
            && (forall i :: 0 <= i < |back| ==> Positive(parse, back[i]))
            && Durations(parse, back) == Durations(parse, backoff)
  {
    EntriesAreCommaFree(parse, backoff);
    SplitJoin(backoff, ',');
    NonEmptyTrimmedOfGood(parse, backoff);
    var back := NonEmptyTrimmed(backoff);
    forall i | 0 <= i < |back| ensures Positive(parse, back[i]) && TrimSpace(back[i]) == TrimSpace(backoff[i]) {
      TrimmedIsFixed(TrimSpace(backoff[i]));
    }
    DurationsOfNormal(parse, back);
    DurationsOfNormal(parse, backoff);
    SameDurations(parse, back, backoff);
  }

  lemma SameDurations(parse: DurationParser, a: seq<string>, b: seq<string>)
    requires |a| == |b| == |Durations(parse, a)| == |Durations(parse, b)|
    requires forall i :: 0 <= i < |a| ==> TrimSpace(a[i]) == TrimSpace(b[i])
    requires forall i :: 0 <= i < |a| ==> Some(Durations(parse, a)[i]) == parse(TrimSpace(a[i]))
    requires forall i :: 0 <= i < |b| ==> Some(Durations(parse, b)[i]) == parse(TrimSpace(b[i]))
    ensures Durations(parse, a) == Durations(parse, b)
  {
    var da, db := Durations(parse, a), Durations(parse, b);
    forall i | 0 <= i < |da| ensures da[i] == db[i] {
      assert Some(da[i]) == Some(db[i]);
    }
  }

  /** Rendering a normal policy into the sidecar environment and reading it back (the
      sidecar normalises what it read) gives a normal policy with the same MaxDeliver and
      the same delay for every delivery number. */
  lemma EnvRoundTrip(parse: DurationParser, p: RetryPolicy)
    requires RejectsCommas(parse) && IsNormal(parse, p) && p.maxDeliver <= MAX_INT64
    ensures var q := Defaulted(PolicyFromEnv(FormatInt(p.maxDeliver), Join(p.backoff, ',')));
            && IsNormal(parse, q)
            && q.maxDeliver == p.maxDeliver
            && forall d :: 0 <= d < TWO_64 ==>
                 DelayForDelivery(parse, q, d) == DelayForDelivery(parse, p, d)
  {
    MaxDeliverRoundTrip(p.maxDeliver);
    BackoffRoundTrip(parse, p.backoff);
    var q := Defaulted(PolicyFromEnv(FormatInt(p.maxDeliver), Join(p.backoff, ',')));
    assert q.backoff == NonEmptyTrimmed(Split(Join(p.backoff, ','), ','));
    forall d | 0 <= d < TWO_64 ensures DelayForDelivery(parse, q, d) == DelayForDelivery(parse, p, d) {
      SameDelays(parse, p, q, d);
    }
  }

  lemma MaxDeliverRoundTrip(n: int)
    requires 0 < n <= MAX_INT64
    ensures Atoi(TrimSpace(FormatInt(n))) == Some(n)
  {
    FormatIntTrimmed(n);
    TrimmedIsFixed(FormatInt(n));
    AtoiFormatInt(n);
  }

  lemma SameDelays(parse: DurationParser, p: RetryPolicy, q: RetryPolicy, d: int)
    requires 0 <= d < TWO_64 && Durations(parse, q.backoff) == Durations(parse, p.backoff)
    ensures DelayForDelivery(parse, q, d) == DelayForDelivery(parse, p, d)
  {
  }
}
