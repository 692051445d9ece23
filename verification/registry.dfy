/** The activator's registry of ready workers (pkg/activator/registry.go).  Every method
    holds the registry's mutex, so concurrent use is some sequence of whole calls. */
module Registry {
  import opened Text
  import opened Workers

  datatype Worker = Worker(name: string, namespace: string, requestID: string)

  function WorkerOf(u: Unit): Worker {
    Worker(u.name, u.namespace, u.serverless.requestID)
  }

  function WorkerKey(namespace: string, name: string): string {
    namespace + ("/" + name)
  }

  function KeyOf(u: Unit): string {
    WorkerKey(u.namespace, u.name)
  }

  lemma KeyInjective(a: Unit, b: Unit)
    requires '/' !in a.namespace && '/' !in b.namespace && KeyOf(a) == KeyOf(b)
    ensures a.namespace == b.namespace && a.name == b.name
  {
    SlashPosition(a.namespace, a.name, b.namespace, b.name);
    assert KeyOf(a)[..|a.namespace|] == a.namespace && KeyOf(b)[..|b.namespace|] == b.namespace;
    assert KeyOf(a)[|a.namespace| + 1..] == a.name && KeyOf(b)[|b.namespace| + 1..] == b.name;
  }

  lemma SlashPosition(a: string, x: string, b: string, y: string)
    requires '/' !in a && '/' !in b && a + ("/" + x) == b + ("/" + y)
    ensures |a| == |b|
  {
    var s, t := a + ("/" + x), b + ("/" + y);
    assert s[|a|] == '/' && t[|b|] == '/';
    assert forall i :: 0 <= i < |a| ==> s[i] == a[i] && a[i] in a;
    assert forall i :: 0 <= i < |b| ==> t[i] == b[i] && b[i] in b;
  }

  type Entries = map<string, Worker>

  /** The registrations after the first loop of Sync. */
  function Registered(entries: Entries, requestID: string, units: seq<Unit>): Entries {
    if units == [] then entries
    else
      var before := Registered(entries, requestID, units[..|units| - 1]);
      var u := units[|units| - 1];
      if IsReadyWorker(u, requestID) then before[KeyOf(u) := WorkerOf(u)] else before
  }

  predicate Kept(requestID: string, units: seq<Unit>, key: string) {
    exists u :: u in units && IsReadyWorker(u, requestID) && KeyOf(u) == key
  }

  /** Sync. */
  function Synced(entries: Entries, requestID: string, units: seq<Unit>): Entries {
    var registered := Registered(entries, requestID, units);
    map k | k in registered && (registered[k].requestID != requestID || Kept(requestID, units, k)) :: registered[k]
  }

  lemma {:induction false} RegisteredContents(entries: Entries, requestID: string, units: seq<Unit>)
    ensures var r := Registered(entries, requestID, units);
            && (forall k :: k in r <==> k in entries || Kept(requestID, units, k))
            && (forall k :: k in r && Kept(requestID, units, k) ==>
                  exists u :: u in units && IsReadyWorker(u, requestID) && KeyOf(u) == k && r[k] == WorkerOf(u))
            && (forall k :: k in r && !Kept(requestID, units, k) ==> r[k] == entries[k])
  {
    if units != [] {
      var before, u := units[..|units| - 1], units[|units| - 1];
      RegisteredContents(entries, requestID, before);
      assert units == before + [u];
      forall k ensures Kept(requestID, units, k) <==> Kept(requestID, before, k) || (IsReadyWorker(u, requestID) && KeyOf(u) == k) {
      }
    }
  }

  /** Right after Sync the entries of the request ID are exactly its ready workers, as long
      as namespaces hold no slash; entries of other request IDs are as they were, except
      where a ready worker took over the key. */
  lemma SyncRegistersExactlyTheReady(entries: Entries, requestID: string, units: seq<Unit>)
    requires forall u :: u in units ==> '/' !in u.namespace
    ensures var e := Synced(entries, requestID, units);
            && (forall w :: (exists k :: k in e && e[k] == w && w.requestID == requestID)
                            <==> (exists u :: u in units && IsReadyWorker(u, requestID) && WorkerOf(u) == w))
            && (forall k :: k in e && e[k].requestID != requestID ==> k in entries && e[k] == entries[k])
            && (forall k :: k in entries && entries[k].requestID != requestID && !Kept(requestID, units, k)
                            ==> k in e && e[k] == entries[k])
  {
    RegisteredContents(entries, requestID, units);
    var r := Registered(entries, requestID, units);
    var e := Synced(entries, requestID, units);
    forall u | u in units && IsReadyWorker(u, requestID) ensures KeyOf(u) in e && e[KeyOf(u)] == WorkerOf(u) {
      var k := KeyOf(u);
      assert Kept(requestID, units, k);
      var v :| v in units && IsReadyWorker(v, requestID) && KeyOf(v) == k && r[k] == WorkerOf(v);
      KeyInjective(u, v);
    }
  }

  /** The keys registered for a request ID. */
  function KeysFor(entries: Entries, requestID: string): set<string> {
    set k | k in entries && entries[k].requestID == requestID
  }

  /** Pick: the worker with the least key. */
  ghost predicate Picks(entries: Entries, requestID: string, w: Worker) {
    exists k :: k in KeysFor(entries, requestID) && entries[k] == w
                && forall l :: l in KeysFor(entries, requestID) ==> StringLessEq(k, l)
  }

  // --------------------------------------------------------------------------- runs

  datatype Call = SyncCall(requestID: string, units: seq<Unit>) | PickCall(requestID: string)

  function Run(calls: seq<Call>): Entries {
    if calls == [] then map[]
    else
      var before, call := Run(calls[..|calls| - 1]), calls[|calls| - 1];
      if call.SyncCall? then Synced(before, call.requestID, call.units) else before
  }

  /** The snapshot of the last Sync for a request ID. */
  function LastSync(calls: seq<Call>, requestID: string): Option<seq<Unit>> {
    if calls == [] then None
    else
      var call := calls[|calls| - 1];
      if call.SyncCall? && call.requestID == requestID then Some(call.units) else LastSync(calls[..|calls| - 1], requestID)
  }

  predicate ReadyInLast(calls: seq<Call>, w: Worker) {
    var last := LastSync(calls, w.requestID);
    last.Some? && exists u :: u in last.value && IsReadyWorker(u, w.requestID) && WorkerOf(u) == w
  }

  lemma {:induction false} EntriesWereReady(calls: seq<Call>)
    ensures forall k :: k in Run(calls) ==> ReadyInLast(calls, Run(calls)[k])
  {
    if calls != [] {
      var before, call := calls[..|calls| - 1], calls[|calls| - 1];
      EntriesWereReady(before);
      if call.SyncCall? {
        RegisteredContents(Run(before), call.requestID, call.units);
        forall k | k in Run(calls) ensures ReadyInLast(calls, Run(calls)[k]) {
          if !Kept(call.requestID, call.units, k) {
            assert ReadyInLast(before, Run(before)[k]);
          }
        }
      }
    }
  }

  /** Whatever Sync and Pick calls came before, from the invocation, wait and lifecycle
      paths in any order: a picked worker was ready in the last snapshot synced for its
      request ID. */
  lemma PickedWasReady(calls: seq<Call>, requestID: string, w: Worker)
    requires Picks(Run(calls), requestID, w)
    ensures w.requestID == requestID && ReadyInLast(calls, w)
  {
    EntriesWereReady(calls);
  }

  // ------------------------------------------------------------------------ program

  class WorkerRegistry {
    var entries: Entries

    constructor ()
      ensures entries == map[]
    {
      entries := map[];
    }

    method Sync(requestID: string, units: seq<Unit>)
      modifies this
      ensures entries == Synced(old(entries), requestID, units)
    {
      var keep: set<string> := {};
      for i := 0 to |units|
        invariant entries == Registered(old(entries), requestID, units[..i])
        invariant forall k :: k in keep <==> Kept(requestID, units[..i], k)
      {
        assert units[..i + 1][..i] == units[..i] && units[..i + 1] == units[..i] + [units[i]];
        if !IsReadyWorker(units[i], requestID) {
          continue;
        }
        keep := keep + {KeyOf(units[i])};
        entries := entries[KeyOf(units[i]) := WorkerOf(units[i])];
      }
      assert units[..|units|] == units;
      DropStale(requestID, keep);
    }

    method DropStale(requestID: string, keep: set<string>)
      modifies this
      ensures entries == map k | k in old(entries) && (old(entries)[k].requestID != requestID || k in keep) :: old(entries)[k]
    {
      var before := entries;
      var rest := entries.Keys;
      while rest != {}
        invariant rest <= before.Keys
        invariant forall k :: k in entries <==> k in before && (k in rest || before[k].requestID != requestID || k in keep)
        invariant forall k :: k in entries ==> entries[k] == before[k]
      {
        var key :| key in rest;
        rest := rest - {key};
        if before[key].requestID != requestID {
          continue;
        }
        if key in keep {
          continue;
        }
        entries := entries - {key};
      }
    }

    method Pick(requestID: string) returns (picked: Option<Worker>)
      ensures picked.None? <==> KeysFor(entries, requestID) == {}
      ensures picked.Some? ==> Picks(entries, requestID, picked.value)
    {
      var keys := [];
      var rest := entries.Keys;
      while rest != {}
        invariant rest <= entries.Keys
        invariant forall k :: k in keys <==> k in KeysFor(entries, requestID) && k !in rest
      {
        var key :| key in rest;
        rest := rest - {key};
        if entries[key].requestID != requestID {
          continue;
        }
        keys := keys + [key];
      }
      var sorted := SortOn(keys, Itself);
      MembersOf(keys, sorted);
      if |sorted| > 0 {
        LeastFirst(sorted);
        assert sorted[0] in sorted;
        return Some(entries[sorted[0]]);
      }
      return None;
    }
  }

  lemma LeastFirst(s: seq<string>)
    requires s != [] && SortedBy(s, Itself)
    ensures forall x :: x in s ==> StringLessEq(s[0], x)
  {
    forall x | x in s ensures StringLessEq(s[0], x) {
      var j :| 0 <= j < |s| && s[j] == x;
      assert StringLessEq(Itself(s[0]), Itself(s[j]));
    }
  }
}
