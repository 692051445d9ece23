/** The worker pool lifecycle (pkg/activator/lifecycle.go): the table fed by worker metrics,
    prewarming up to the minimum, and deletion of idle workers. */
module Lifecycle {
  import opened Text
  import opened Names
  import opened Subjects
  import opened Workers

  // -------------------------------------------------------------------- metrics table

  /** Times are nanoseconds; 0 is the zero time. */
  datatype Metric = Metric(requestID: string, name: string, namespace: string, event: MetricEvent, inflight: int, reportedAt: nat)

  datatype WorkerState = WorkerState(
    requestID: string, name: string, namespace: string, lastEvent: MetricEvent,
    lastSeen: nat, lastActivity: nat, inflight: int)

  type Table = map<string, WorkerState>

  function StateKey(namespace: string, name: string): string {
    (if namespace == "" then "runtime-instance" else namespace) + ("/" + name)
  }

  predicate CountsAsActivity(e: MetricEvent) {
    e.InvocationStarted? || e.InvocationFinished? || e.InvocationFailed?
  }

  function Observe(table: Table, m: Metric, now: nat): Table {
    if m.requestID == "" || m.name == "" then table
    else
      var at := if m.reportedAt == 0 then now else m.reportedAt;
      var key := StateKey(m.namespace, m.name);
      var activity := if key in table then table[key].lastActivity else 0;
      var activity' := if CountsAsActivity(m.event) || (m.event.WorkerRegistered? && activity == 0) then at else activity;
      table[key := WorkerState(m.requestID, m.name, m.namespace, m.event, at, activity', m.inflight)]
  }

  function ObserveAll(metrics: seq<(Metric, nat)>): Table {
    if metrics == [] then map[]
    else Observe(ObserveAll(metrics[..|metrics| - 1]), metrics[|metrics| - 1].0, metrics[|metrics| - 1].1)
  }

  /** The last metric about a worker, and the last one that counts as activity. */
  function LastAbout(metrics: seq<(Metric, nat)>, key: string): Option<(Metric, nat)> {
    if metrics == [] then None
    else
      var m := metrics[|metrics| - 1];
      if m.0.requestID != "" && m.0.name != "" && StateKey(m.0.namespace, m.0.name) == key then Some(m)
      else LastAbout(metrics[..|metrics| - 1], key)
  }

  /** The table holds, for each worker, what its last metric said. */
  lemma {:induction false} TableHoldsLastMetric(metrics: seq<(Metric, nat)>, key: string)
    ensures var last := LastAbout(metrics, key);
            && (key in ObserveAll(metrics) <==> last.Some?)
            && (last.Some? ==> ObserveAll(metrics)[key].inflight == last.value.0.inflight
                               && ObserveAll(metrics)[key].lastEvent == last.value.0.event)
  {
    if metrics != [] {
      TableHoldsLastMetric(metrics[..|metrics| - 1], key);
    }
  }

  /** When a metric counts as reported. */
  function ReportedAt(m: (Metric, nat)): nat {
    if m.0.reportedAt == 0 then m.1 else m.0.reportedAt
  }

  predicate About(m: (Metric, nat), key: string) {
    m.0.requestID != "" && m.0.name != "" && StateKey(m.0.namespace, m.0.name) == key
  }

  function LastExecution(metrics: seq<(Metric, nat)>, key: string): Option<(Metric, nat)> {
    if metrics == [] then None
    else
      var m := metrics[|metrics| - 1];
      if About(m, key) && CountsAsActivity(m.0.event) then Some(m) else LastExecution(metrics[..|metrics| - 1], key)
  }

  /** A worker was last seen at its last metric, and once it executed anything, its activity
      is the time of its last execution metric: heartbeats and registrations do not move it. */
  lemma {:induction false} TableHoldsLastTimes(metrics: seq<(Metric, nat)>, key: string)
    requires forall i :: 0 <= i < |metrics| ==> ReportedAt(metrics[i]) > 0
    ensures var table := ObserveAll(metrics);
            && (LastAbout(metrics, key).Some? ==> key in table && table[key].lastSeen == ReportedAt(LastAbout(metrics, key).value))
            && (LastExecution(metrics, key).Some? ==>
                  && key in table
                  && table[key].lastActivity == ReportedAt(LastExecution(metrics, key).value)
                  && table[key].lastActivity > 0)
  {
    if metrics != [] {
      TableHoldsLastTimes(metrics[..|metrics| - 1], key);
    }
  }

  // -------------------------------------------------------------------- pool counting

  predicate Counts(u: Unit) {
    u.phase.Ready? || u.phase.Progressing?
  }

  function Available(units: seq<Unit>): nat {
    |Select(units, Counts)|
  }

  function ReadyUnits(units: seq<Unit>, requestID: string): seq<Unit> {
    Select(units, (u: Unit) => IsReadyWorker(u, requestID))
  }

  function Max0(n: int): nat {
    if n < 0 then 0 else n
  }

  /** How many workers ensureMinAvailable asks for. */
  function Missing(units: seq<Unit>): nat {
    if units == [] || Template(units).serverless.minAvailable <= 0 then 0
    else Max0(Template(units).serverless.minAvailable - Available(units))
  }

  /** How many ready workers are more than the minimum, if idle deletion is on at all. */
  function Excess(units: seq<Unit>, requestID: string): nat {
    if units == [] || Template(units).serverless.idleTimeoutSeconds <= 0 then 0
    else Max0(|ReadyUnits(units, requestID)| - Template(units).serverless.minAvailable)
  }

  lemma {:induction false} ReadyAreAvailable(units: seq<Unit>, requestID: string)
    ensures |ReadyUnits(units, requestID)| <= Available(units)
  {
    if units != [] {
      ReadyAreAvailable(units[..|units| - 1], requestID);
    }
  }

  /** One pass over a pool never both creates and deletes. */
  lemma NeverBoth(units: seq<Unit>, requestID: string)
    ensures Missing(units) == 0 || Excess(units, requestID) == 0
  {
    ReadyAreAvailable(units, requestID);
  }

  function Without(units: seq<Unit>, names: set<string>): (r: seq<Unit>)
    ensures forall u :: u in r <==> u in units && u.name !in names
  {
    Select(units, (u: Unit) => u.name !in names)
  }

  /** Removing units by name costs at most one ready worker for each name. */
  lemma {:induction false} RemovalCost(units: seq<Unit>, requestID: string, names: set<string>)
    requires DistinctNames(units)
    ensures |ReadyUnits(Without(units, names), requestID)| + |names| >= |ReadyUnits(units, requestID)|
  {
    if units != [] {
      var before, u := units[..|units| - 1], units[|units| - 1];
      if u.name in names {
        assert forall v :: v in before ==> v.name != u.name;
        SameWithout(before, names, names - {u.name});
        RemovalCost(before, requestID, names - {u.name});
        assert Without(units, names) == Without(before, names - {u.name});
        assert |names - {u.name}| == |names| - 1;
      } else {
        RemovalCost(before, requestID, names);
        assert Without(units, names) == Without(before, names) + [u];
        assert (Without(before, names) + [u])[..|Without(before, names)|] == Without(before, names);
      }
    }
  }

  lemma {:induction false} SameWithout(units: seq<Unit>, a: set<string>, b: set<string>)
    requires forall u :: u in units ==> (u.name in a <==> u.name in b)
    ensures Without(units, a) == Without(units, b)
  {
    if units != [] {
      SameWithout(units[..|units| - 1], a, b);
      assert units[|units| - 1] in units;
    }
  }

  lemma {:induction false} FirstUnmanagedConcat(a: seq<Unit>, b: seq<Unit>)
    ensures FirstUnmanaged(a + b) == if FirstUnmanaged(a).Some? then FirstUnmanaged(a) else FirstUnmanaged(b)
  {
    if a == [] {
      assert a + b == b;
    } else {
      assert (a + b)[1..] == a[1..] + b;
      FirstUnmanagedConcat(a[1..], b);
    }
  }

  /** Deleting managed workers keeps the first unmanaged unit. */
  lemma {:induction false} FirstUnmanagedStays(units: seq<Unit>, names: set<string>)
    requires forall u :: u in units && u.name in names ==> IsManaged(u)
    ensures FirstUnmanaged(Without(units, names)) == FirstUnmanaged(units)
  {
    if units != [] {
      var before, u := units[..|units| - 1], units[|units| - 1];
      assert units == before + [u];
      FirstUnmanagedStays(before, names);
      FirstUnmanagedConcat(before, [u]);
      assert u in units;
      if u.name in names {
        assert Without(units, names) == Without(before, names) + [];
        FirstUnmanagedConcat(Without(before, names), []);
        assert IsManaged(u);
      } else {
        assert Without(units, names) == Without(before, names) + [u];
        FirstUnmanagedConcat(Without(before, names), [u]);
      }
    }
  }

  /** A pass that deletes (at most the excess) is not followed by a creating pass over the
      same phases, provided the template asks for the same minimum as before. */
  lemma NoCreateAfterDelete(units: seq<Unit>, requestID: string, deleted: set<string>)
    requires units != [] && DistinctNames(units) && 0 < |deleted| <= Excess(units, requestID)
    requires var left := Without(units, deleted);
             left != [] ==> Template(left).serverless.minAvailable == Template(units).serverless.minAvailable
    ensures Missing(Without(units, deleted)) == 0
  {
    var left := Without(units, deleted);
    RemovalCost(units, requestID, deleted);
    ReadyAreAvailable(left, requestID);
  }

  /** The proviso holds whenever the pool has a unit that the activator does not manage:
      then the template itself stays the same. */
  lemma TemplateSurvivesDeletion(units: seq<Unit>, deleted: set<string>)
    requires forall u :: u in units && u.name in deleted ==> IsManaged(u)
    requires exists u :: u in units && !IsManaged(u)
    ensures Without(units, deleted) != [] && Template(Without(units, deleted)) == Template(units)
  {
    FirstUnmanagedStays(units, deleted);
    FirstUnmanagedIn(units);
    FirstUnmanagedIn(Without(units, deleted));
  }

  // ------------------------------------------------------------------ idle candidates

  datatype Candidate = Candidate(unit: Unit, idleSince: nat)

  const SECOND := 1_000_000_000

  function IdleSince(state: WorkerState): nat {
    if state.lastActivity == 0 then state.lastSeen else state.lastActivity
  }

  /** The last metric showed nothing in flight, long enough ago. */
  predicate IsIdle(table: Table, u: Unit, now: nat, timeout: int) {
    var key := StateKey(u.namespace, u.name);
    && key in table
    && table[key].inflight == 0
    && IdleSince(table[key]) != 0
    && now - IdleSince(table[key]) >= timeout
  }

  predicate IsCandidate(table: Table, u: Unit, requestID: string, now: nat, timeout: int) {
    IsReadyWorker(u, requestID) && IsManaged(u) && IsIdle(table, u, now, timeout)
  }

  predicate Describes(table: Table, c: Candidate) {
    var key := StateKey(c.unit.namespace, c.unit.name);
    key in table && c.idleSince == IdleSince(table[key])
  }

  /** The candidates among the units, each with its idle time. */
  ghost predicate AreCandidates(table: Table, units: seq<Unit>, requestID: string, now: nat, timeout: int, cs: seq<Candidate>) {
    && (forall c :: c in cs ==> c.unit in units && IsCandidate(table, c.unit, requestID, now, timeout) && Describes(table, c))
    && (forall u :: u in units && IsCandidate(table, u, requestID, now, timeout) ==> Listed(cs, u))
  }

  ghost predicate Listed(cs: seq<Candidate>, u: Unit) {
    exists c :: c in cs && c.unit == u
  }

  lemma NextCandidate(table: Table, units: seq<Unit>, u: Unit, requestID: string, now: nat, timeout: int, cs: seq<Candidate>)
    requires AreCandidates(table, units, requestID, now, timeout, cs)
    ensures IsCandidate(table, u, requestID, now, timeout) ==>
              AreCandidates(table, units + [u], requestID, now, timeout,
                            cs + [Candidate(u, IdleSince(table[StateKey(u.namespace, u.name)]))])
    ensures !IsCandidate(table, u, requestID, now, timeout) ==> AreCandidates(table, units + [u], requestID, now, timeout, cs)
  {
    if IsCandidate(table, u, requestID, now, timeout) {
      var c := Candidate(u, IdleSince(table[StateKey(u.namespace, u.name)]));
      assert c in cs + [c];
      forall v | v in units + [u] && IsCandidate(table, v, requestID, now, timeout) ensures Listed(cs + [c], v) {
        if v != u {
          assert Listed(cs, v);
          var d :| d in cs && d.unit == v;
          assert d in cs + [c];
        }
      }
    }
  }

  ghost predicate SortedByIdle(cs: seq<Candidate>) {
    forall i, j :: 0 <= i < j < |cs| ==> cs[i].idleSince <= cs[j].idleSince
  }

  function InsertByIdle(c: Candidate, s: seq<Candidate>): (r: seq<Candidate>)
    ensures multiset(r) == multiset{c} + multiset(s)
  {
    if s == [] || c.idleSince < s[0].idleSince then [c] + s
    else
      assert s == [s[0]] + s[1..];
      [s[0]] + InsertByIdle(c, s[1..])
  }

  lemma {:induction false} InsertKeepsSorted(c: Candidate, s: seq<Candidate>)
    requires SortedByIdle(s)
    ensures SortedByIdle(InsertByIdle(c, s))
  {
    if s != [] && !(c.idleSince < s[0].idleSince) {
      InsertKeepsSorted(c, s[1..]);
      var rest := InsertByIdle(c, s[1..]);
      forall j | 0 <= j < |rest| ensures s[0].idleSince <= rest[j].idleSince {
        assert rest[j] in multiset(rest);
        assert rest[j] == c || rest[j] in s[1..];
      }
    }
  }

  method SortByIdle(candidates: seq<Candidate>) returns (sorted: seq<Candidate>)
    ensures multiset(sorted) == multiset(candidates)
    ensures SortedByIdle(sorted)
  {
    sorted := [];
    for i := 0 to |candidates|
      invariant multiset(sorted) == multiset(candidates[..i])
      invariant SortedByIdle(sorted)
    {
      assert candidates[..i + 1] == candidates[..i] + [candidates[i]];
      InsertKeepsSorted(candidates[i], sorted);
      sorted := InsertByIdle(candidates[i], sorted);
    }
    assert candidates[..|candidates|] == candidates;
  }

  /** What idle deletion decides: the candidates are exactly the idle managed ready workers,
      longest idle first, and as many of them are chosen as the excess allows. */
  ghost predicate IsDeletionPlan(table: Table, units: seq<Unit>, requestID: string, now: nat,
                                 candidates: seq<Candidate>, chosen: seq<Candidate>)
  {
    && SortedByIdle(candidates)
    && chosen <= candidates
    && |chosen| <= Excess(units, requestID)
    && (|chosen| == |candidates| || |chosen| == Excess(units, requestID))
    && (units == [] ==> candidates == [])
    && (units != [] ==>
          var timeout := Template(units).serverless.idleTimeoutSeconds * SECOND;
          && (candidates == [] || AreCandidates(table, units, requestID, now, timeout, candidates))
          && (Excess(units, requestID) > 0 ==> AreCandidates(table, units, requestID, now, timeout, candidates)))
  }

  /** The ready workers left are at least the minimum, or all there were. */
  predicate KeepsMinimum(units: seq<Unit>, requestID: string, deleted: set<string>)
    requires units != []
  {
    var ready, left := |ReadyUnits(units, requestID)|, |ReadyUnits(Without(units, deleted), requestID)|;
    var minimum := Template(units).serverless.minAvailable;
    left >= if ready < minimum then ready else minimum
  }

  /** Of a deletion plan: nobody chosen has been idle for less time than a candidate that was
      passed over. */
  lemma LongestIdleFirst(table: Table, units: seq<Unit>, requestID: string, now: nat,
                         candidates: seq<Candidate>, chosen: seq<Candidate>, i: nat, j: nat)
    requires IsDeletionPlan(table, units, requestID, now, candidates, chosen)
    requires i < |chosen| <= j < |candidates|
    ensures IdleSince(table[StateKey(chosen[i].unit.namespace, chosen[i].unit.name)])
            <= IdleSince(table[StateKey(candidates[j].unit.namespace, candidates[j].unit.name)])
  {
    assert chosen[i] == candidates[i];
    assert Describes(table, candidates[i]) && Describes(table, candidates[j]);
  }

  // --------------------------------------------------------------------------- program

  /** A worker as CreateGPUUnit makes it from a template (buildCreateRequest). */
  function NewWorker(template: Unit, source: string): Unit {
    Unit(WorkerName(template.serverless.requestID, source), "runtime-instance", template.serverless, OtherPhase, "", template.config)
  }

  /** The new units were added under names that were free; the others are untouched. */
  ghost predicate Extended(before: map<string, Unit>, after: map<string, Unit>, created: seq<Unit>) {
    && (forall n :: n in before ==> n in after && after[n] == before[n])
    && (forall n :: n in after ==> n in before || (after[n] in created && after[n].name == n))
    && (forall u :: u in created ==> u.name !in before && u.name in after && after[u.name] == u)
  }

  /** Extended is kept by one more unit under a free name. */
  lemma ExtendOne(before: map<string, Unit>, after: map<string, Unit>, created: seq<Unit>, u: Unit)
    requires Extended(before, after, created) && u.name !in after
    ensures Extended(before, after[u.name := u], created + [u])
  {
    assert forall v :: v in created + [u] <==> v in created || v == u;
  }

  // ---------------------------------------------------------------------- prewarming

  /** The workers that a prewarm pass asks for, one after the other; clock(k) is the time in
      base 36 that the k-th source ID is made of. */
  function Asked(template: Unit, clock: nat -> string): nat -> Unit {
    (k: nat) => NewWorker(template, PrewarmSource(clock(k)))
  }

  /** The names that asking for n workers comes to. */
  function AskedNames(ask: nat -> Unit, n: nat): set<string> {
    if n == 0 then {} else AskedNames(ask, n - 1) + {ask(n - 1).name}
  }

  lemma {:induction false} AskedName(ask: nat -> Unit, n: nat, x: string)
    ensures x in AskedNames(ask, n) <==> exists k: nat :: k < n && x == ask(k).name
  {
    if n > 0 {
      AskedName(ask, n - 1, x);
    }
  }

  function NamesOf(units: seq<Unit>): set<string> {
    set u | u in units :: u.name
  }

  /** Of n workers asked for, exactly one was created under every name that was free and did
      not fail, and nothing else changed. */
  ghost predicate CreatedExactly(ask: nat -> Unit, n: nat, failing: set<string>,
                                 before: map<string, Unit>, after: map<string, Unit>, created: seq<Unit>)
  {
    && DistinctNames(created)
    && NamesOf(created) == AskedNames(ask, n) - before.Keys - failing
    && (forall u :: u in created ==> exists k: nat :: k < n && u == ask(k))
    && Extended(before, after, created)
  }

  /** No two of the n workers have one name, and every name is free. */
  ghost predicate AllFreeAndDistinct(ask: nat -> Unit, n: nat, taken: set<string>) {
    && (forall j: nat, k: nat :: j < k < n ==> ask(j).name != ask(k).name)
    && (forall k: nat :: k < n ==> ask(k).name !in taken)
  }

  lemma {:induction false} CountDistinct(units: seq<Unit>)
    requires DistinctNames(units)
    ensures |NamesOf(units)| == |units|
  {
    if units != [] {
      var before, u := units[..|units| - 1], units[|units| - 1];
      CountDistinct(before);
      assert forall v :: v in units <==> v in before || v == u;
      assert NamesOf(units) == NamesOf(before) + {u.name};
    }
  }

  lemma NextFreeAndDistinct(ask: nat -> Unit, n: nat, taken: set<string>)
    ensures AllFreeAndDistinct(ask, n + 1, taken) <==>
            AllFreeAndDistinct(ask, n, taken) && ask(n).name !in taken && ask(n).name !in AskedNames(ask, n)
  {
    AskedName(ask, n, ask(n).name);
  }

  lemma CountWithOneMore(names: set<string>, x: string, taken: set<string>)
    ensures |(names + {x}) - taken| == |names - taken| + if x in taken || x in names then 0 else 1
  {
    if x in taken || x in names {
      assert (names + {x}) - taken == names - taken;
    } else {
      assert (names + {x}) - taken == (names - taken) + {x};
    }
  }

  /** n workers come of n requests exactly if the names are pairwise different and free. */
  ghost predicate AllOfThemExactly(ask: nat -> Unit, n: nat, taken: set<string>) {
    var left := |AskedNames(ask, n) - taken|;
    left <= n && (left == n <==> AllFreeAndDistinct(ask, n, taken))
  }

  lemma NextCreatedExactly(ask: nat -> Unit, n: nat, taken: set<string>)
    requires AllOfThemExactly(ask, n, taken)
    ensures AllOfThemExactly(ask, n + 1, taken)
  {
    CountWithOneMore(AskedNames(ask, n), ask(n).name, taken);
    NextFreeAndDistinct(ask, n, taken);
  }

  lemma {:induction false} AllCreatedExactly(ask: nat -> Unit, n: nat, taken: set<string>)
    ensures AllOfThemExactly(ask, n, taken)
  {
    if n == 0 {
      assert AskedNames(ask, n) - taken == {};
    } else {
      var m: nat := n - 1;
      AllCreatedExactly(ask, m, taken);
      NextCreatedExactly(ask, m, taken);
    }
  }

  lemma CreatedCount(ask: nat -> Unit, n: nat, failing: set<string>,
                     before: map<string, Unit>, after: map<string, Unit>, created: seq<Unit>)
    requires CreatedExactly(ask, n, failing, before, after, created)
    ensures |created| == |AskedNames(ask, n) - (before.Keys + failing)|
  {
    CountDistinct(created);
    RemoveTwice(AskedNames(ask, n), before.Keys, failing);
  }

  lemma RemoveTwice(names: set<string>, a: set<string>, b: set<string>)
    ensures names - a - b == names - (a + b)
  {
  }

  /** What a prewarm pass comes to. */
  lemma PrewarmOutcome(ask: nat -> Unit, n: nat, failing: set<string>,
                       before: map<string, Unit>, after: map<string, Unit>, created: seq<Unit>)
    requires CreatedExactly(ask, n, failing, before, after, created)
    ensures |created| <= n
    ensures |created| == n <==> AllFreeAndDistinct(ask, n, before.Keys + failing)
  {
    CreatedCount(ask, n, failing, before, after, created);
    AllCreatedExactly(ask, n, before.Keys + failing);
  }

  lemma OneNameOneWorker(ask: nat -> Unit, n: nat, failing: set<string>,
                         before: map<string, Unit>, after: map<string, Unit>, created: seq<Unit>)
    requires CreatedExactly(ask, n, failing, before, after, created)
    requires forall k: nat :: k < n ==> ask(k).name == ask(0).name
    ensures |created| <= 1
  {
    CreatedCount(ask, n, failing, before, after, created);
    var names := AskedNames(ask, n) - (before.Keys + failing);
    forall y | y in names ensures y == ask(0).name {
      AskedName(ask, n, y);
    }
    AtMostOne(names, ask(0).name);
  }

  lemma AtMostOne(names: set<string>, x: string)
    requires forall y :: y in names ==> y == x
    ensures |names| <= 1
  {
    assert names == {} || names == {x};
  }

  lemma CreateOne(ask: nat -> Unit, n: nat, failing: set<string>,
                  before: map<string, Unit>, after: map<string, Unit>, created: seq<Unit>)
    requires CreatedExactly(ask, n, failing, before, after, created)
    ensures var u := ask(n);
            if u.name in after || u.name in failing then CreatedExactly(ask, n + 1, failing, before, after, created)
            else CreatedExactly(ask, n + 1, failing, before, after[u.name := u], created + [u])
  {
    var u := ask(n);
    assert AskedNames(ask, n + 1) == AskedNames(ask, n) + {u.name};
    if u.name in failing {
    } else if u.name in after {
      assert u.name in before || u.name in NamesOf(created);
    } else {
      ExtendOne(before, after, created, u);
      assert forall v :: v in created + [u] <==> v in created || v == u;
      assert NamesOf(created + [u]) == NamesOf(created) + {u.name};
    }
  }

  /** The clock does not move in its three leading digits during the pass. */
  ghost predicate KeepsThreeDigits(clock: nat -> string, n: nat) {
    forall k: nat :: k < n ==> IsBase36(clock(k)) && FirstThree(clock(k)) == FirstThree(clock(0))
  }

  /** Exactly then all the requests of the pass come to one name. */
  lemma OneNameExactly(template: Unit, clock: nat -> string, n: nat)
    requires forall k: nat :: k < n ==> IsBase36(clock(k))
    ensures KeepsThreeDigits(clock, n) <==>
            forall k: nat :: k < n ==> Asked(template, clock)(k).name == Asked(template, clock)(0).name
  {
    forall k: nat | k < n
      ensures FirstThree(clock(k)) == FirstThree(clock(0)) <==>
              Asked(template, clock)(k).name == Asked(template, clock)(0).name
    {
      PrewarmNamesCoincide(template.serverless.requestID, clock(k), clock(0));
    }
  }

  /** What ensureMinAvailable leaves behind: one worker under every name asked for that was
      free and did not fail.  All n of them come about exactly if those names differ and are
      free; a clock that keeps its three leading digits yields one at most. */
  ghost predicate Replenished(template: Unit, clock: nat -> string, n: nat, failing: set<string>,
                              before: map<string, Unit>, after: map<string, Unit>, created: seq<Unit>)
  {
    && CreatedExactly(Asked(template, clock), n, failing, before, after, created)
    && |created| <= n
    && (|created| == n <==> AllFreeAndDistinct(Asked(template, clock), n, before.Keys + failing))
    && (KeepsThreeDigits(clock, n) ==> |created| <= 1)
  }

  lemma NothingAsked(template: Unit, clock: nat -> string, failing: set<string>, live: map<string, Unit>)
    ensures Replenished(template, clock, 0, failing, live, live, [])
  {
    assert NamesOf([]) == {};
    CreatedReplenishes(template, clock, 0, failing, live, live, []);
  }

  lemma CreatedReplenishes(template: Unit, clock: nat -> string, n: nat, failing: set<string>,
                           before: map<string, Unit>, after: map<string, Unit>, created: seq<Unit>)
    requires CreatedExactly(Asked(template, clock), n, failing, before, after, created)
    ensures Replenished(template, clock, n, failing, before, after, created)
  {
    PrewarmOutcome(Asked(template, clock), n, failing, before, after, created);
    if KeepsThreeDigits(clock, n) {
      OneNameExactly(template, clock, n);
      OneNameOneWorker(Asked(template, clock), n, failing, before, after, created);
    }
  }

  class LifecycleManager {
    var workers: Table
    var live: map<string, Unit>      // the units behind RuntimeControl

    constructor (live: map<string, Unit>)
      ensures workers == map[] && this.live == live
    {
      workers, this.live := map[], live;
    }

    method ObserveMetric(m: Metric, now: nat)
      modifies this`workers
      ensures workers == Observe(old(workers), m, now)
    {
      if m.requestID == "" || m.name == "" {
        return;
      }
      var reportedAt := m.reportedAt;
      if reportedAt == 0 {
        reportedAt := now;
      }
      var key := StateKey(m.namespace, m.name);
      var state := if key in workers then workers[key]
                   else WorkerState("", "", "", Heartbeat, 0, 0, 0);
      state := state.(requestID := m.requestID, name := m.name, namespace := m.namespace, lastEvent := m.event,
                      lastSeen := reportedAt, inflight := m.inflight);
      match m.event {
        case WorkerRegistered =>
          if state.lastActivity == 0 {
            state := state.(lastActivity := reportedAt);
          }
        case InvocationStarted => state := state.(lastActivity := reportedAt);
        case InvocationFinished => state := state.(lastActivity := reportedAt);
        case InvocationFailed => state := state.(lastActivity := reportedAt);
        case Heartbeat =>
      }
      workers := workers[key := state];
    }

    /** Ask for `missing` workers.  A create is refused when the name is taken or the
        runtime fails. */
    method CreateWorkers(template: Unit, missing: nat, clock: nat -> string, failing: set<string>) returns (created: seq<Unit>)
      modifies this`live
      ensures Replenished(template, clock, missing, failing, old(live), live, created)
    {
      created := [];
      for i := 0 to missing
        invariant CreatedExactly(Asked(template, clock), i, failing, old(live), live, created)
      {
        CreateOne(Asked(template, clock), i, failing, old(live), live, created);
        var worker := NewWorker(template, PrewarmSource(clock(i)));
        if worker.name in live || worker.name in failing {
          continue;
        }
        live := live[worker.name := worker];
        created := created + [worker];
      }
      CreatedReplenishes(template, clock, missing, failing, old(live), live, created);
    }

    method CountAvailable(units: seq<Unit>) returns (available: nat)
      ensures available == Available(units)
    {
      available := 0;
      for i := 0 to |units|
        invariant available == Available(units[..i])
      {
        assert units[..i + 1][..i] == units[..i];
        if units[i].phase.Ready? || units[i].phase.Progressing? {
          available := available + 1;
        }
      }
      assert units[..|units|] == units;
    }

    /** ensureMinAvailable. */
    method EnsureMinAvailable(units: seq<Unit>, clock: nat -> string, failing: set<string>) returns (created: seq<Unit>)
      modifies this`live
      ensures units == [] ==> created == [] && live == old(live)
      ensures units != [] ==> Replenished(Template(units), clock, Missing(units), failing, old(live), live, created)
    {
      created := [];
      if |units| == 0 {
        return;
      }
      var template := TemplateUnit(units);
      var minAvailable := template.serverless.minAvailable;
      NothingAsked(template, clock, failing, live);
      if minAvailable <= 0 {
        return;
      }
      var available := CountAvailable(units);
      var missing := minAvailable - available;
      if missing <= 0 {
        return;
      }
      assert template == Template(units) && missing == Missing(units);
      created := CreateWorkers(template, missing, clock, failing);
      assert Replenished(template, clock, missing, failing, old(live), live, created);
    }

    /** The ready units that may be deleted. */
    method CollectCandidates(units: seq<Unit>, requestID: string, now: nat, timeout: int)
      returns (ready: seq<Unit>, candidates: seq<Candidate>)
      ensures ready == ReadyUnits(units, requestID)
      ensures AreCandidates(workers, units, requestID, now, timeout, candidates)
    {
      ready, candidates := [], [];
      for i := 0 to |units|
        invariant ready == ReadyUnits(units[..i], requestID)
        invariant AreCandidates(workers, units[..i], requestID, now, timeout, candidates)
      {
        var u := units[i];
        assert units[..i + 1][..i] == units[..i] && units[..i + 1] == units[..i] + [u];
        var key := StateKey(u.namespace, u.name);
        NextCandidate(workers, units[..i], u, requestID, now, timeout, candidates);
        if IsReadyWorker(u, requestID) {
          ready := ready + [u];
          if IsManaged(u) && key in workers && workers[key].inflight == 0
             && IdleSince(workers[key]) != 0 && now - IdleSince(workers[key]) >= timeout {
            candidates := candidates + [Candidate(u, IdleSince(workers[key]))];
          }
        }
      }
      assert units[..|units|] == units;
    }

    /** Delete the chosen workers one by one; a failed deletion does not stop the rest. */
    method DeleteChosen(chosen: seq<Candidate>, failing: set<string>) returns (deleted: set<string>)
      modifies this`live
      ensures live == old(live) - deleted
      ensures |deleted| <= |chosen|
      ensures forall n :: n in deleted ==> exists c :: c in chosen && c.unit.name == n
      ensures forall c :: c in chosen && c.unit.name !in failing ==> c.unit.name in deleted
    {
      deleted := {};
      for i := 0 to |chosen|
        invariant |deleted| <= i
        invariant forall n :: n in deleted ==> exists c :: c in chosen && c.unit.name == n
        invariant forall j :: 0 <= j < i && chosen[j].unit.name !in failing ==> chosen[j].unit.name in deleted
        invariant live == old(live) - deleted
      {
        var name := chosen[i].unit.name;
        if name in failing {
          continue;
        }
        live := live - {name};
        deleted := deleted + {name};
      }
    }

    /** deleteIdleWorkers.  `chosen` are the candidates it tries to delete, in order;
        `deleted` the names for which that succeeded. */
    method DeleteIdleWorkers(units: seq<Unit>, requestID: string, now: nat, failing: set<string>)
      returns (candidates: seq<Candidate>, chosen: seq<Candidate>, deleted: set<string>)
      requires DistinctNames(units)
      modifies this`live
      ensures live == old(live) - deleted
      ensures IsDeletionPlan(workers, units, requestID, now, candidates, chosen)
      ensures |deleted| <= |chosen|
      ensures forall n :: n in deleted ==> exists c :: c in chosen && c.unit.name == n
      ensures forall c :: c in chosen && c.unit.name !in failing ==> c.unit.name in deleted
      ensures units != [] ==> KeepsMinimum(units, requestID, deleted)
    {
      candidates, chosen, deleted := [], [], {};
      RemovalCost(units, requestID, {});
      if |units| == 0 {
        return;
      }
      var template := TemplateUnit(units);
      if template.serverless.idleTimeoutSeconds <= 0 {
        return;
      }
      var timeout := template.serverless.idleTimeoutSeconds * SECOND;
      var ready, found := CollectCandidates(units, requestID, now, timeout);
      if |ready| <= template.serverless.minAvailable {
        return;
      }
      candidates := SortByIdle(found);
      MembersOf(found, candidates);
      StillCandidates(workers, units, requestID, now, timeout, found, candidates);
      var deletions := |ready| - template.serverless.minAvailable;
      if deletions > |candidates| {
        deletions := |candidates|;
      }
      chosen := candidates[..deletions];
      deleted := DeleteChosen(chosen, failing);
      RemovalCost(units, requestID, deleted);
    }

    static lemma StillCandidates(table: Table, units: seq<Unit>, requestID: string, now: nat, timeout: int,
                                 found: seq<Candidate>, sorted: seq<Candidate>)
      requires AreCandidates(table, units, requestID, now, timeout, found) && forall c :: c in found <==> c in sorted
      ensures AreCandidates(table, units, requestID, now, timeout, sorted)
    {
      forall u | Listed(found, u) ensures Listed(sorted, u) {
        var c :| c in found && c.unit == u;
        assert c in sorted;
      }
    }
  }
}
