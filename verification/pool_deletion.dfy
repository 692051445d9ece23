/** When a pool that has only workers the activator made survives its own clean-up
    (pkg/activator/lifecycle.go and service.go): deleting the first of them makes another one
    the template, which may ask for more. */
module PoolDeletion {
  import opened Text
  import opened Workers
  import opened Lifecycle

  /** What an idle-deletion pass may delete: some ready workers, at most the excess. */
  ghost predicate Permitted(units: seq<Unit>, requestID: string, deleted: set<string>) {
    && deleted != {} && |deleted| <= Excess(units, requestID)
    && deleted <= NamesOf(ReadyUnits(units, requestID))
  }

  /** Whatever such a pass deletes, the next one over the same phases creates nothing. */
  ghost predicate NeverCreatesAfter(units: seq<Unit>, requestID: string) {
    forall deleted :: Permitted(units, requestID, deleted) ==> Missing(Without(units, deleted)) == 0
  }

  /** The most that can be deleted while unit k is spared. */
  function MostSparing(units: seq<Unit>, requestID: string, k: nat): int
    requires k < |units|
  {
    var others := |ReadyUnits(units, requestID)| - if IsReadyWorker(units[k], requestID) then 1 else 0;
    if others < Excess(units, requestID) then others else Excess(units, requestID)
  }

  /** Unit k can become the template: all before it can be deleted. */
  ghost predicate CanBecomeTemplate(units: seq<Unit>, requestID: string, k: nat) {
    && 0 < k < |units| && k <= Excess(units, requestID)
    && forall j :: 0 <= j < k ==> IsReadyWorker(units[j], requestID)
  }

  /** And then asks for no more than is left in the worst case. */
  ghost predicate AsksForNoMore(units: seq<Unit>, requestID: string, k: nat)
    requires k < |units|
  {
    units[k].serverless.minAvailable <= Available(units) - MostSparing(units, requestID, k)
  }

  // ----------------------------------------------------------------- counting

  lemma ReadyNamesCount(units: seq<Unit>, requestID: string)
    requires DistinctNames(units)
    ensures |NamesOf(ReadyUnits(units, requestID))| == |ReadyUnits(units, requestID)|
  {
    SelectDistinct(units, (u: Unit) => IsReadyWorker(u, requestID));
    CountDistinct(ReadyUnits(units, requestID));
  }

  lemma ReadyName(units: seq<Unit>, requestID: string, u: Unit)
    requires DistinctNames(units) && u in units
    ensures u.name in NamesOf(ReadyUnits(units, requestID)) <==> IsReadyWorker(u, requestID)
  {
    if u.name in NamesOf(ReadyUnits(units, requestID)) {
      var v :| v in ReadyUnits(units, requestID) && v.name == u.name;
      SameUnit(units, u, v);
    }
  }

  lemma SameUnit(units: seq<Unit>, u: Unit, v: Unit)
    requires DistinctNames(units) && u in units && v in units && u.name == v.name
    ensures u == v
  {
    var i :| 0 <= i < |units| && units[i] == u;
    var j :| 0 <= j < |units| && units[j] == v;
    assert !(i < j) && !(j < i);
  }

  /** Deleting workers that count as available costs exactly one each. */
  lemma {:induction false} AvailableLeft(units: seq<Unit>, deleted: set<string>)
    requires DistinctNames(units) && deleted <= NamesOf(units)
    requires forall u :: u in units && u.name in deleted ==> Counts(u)
    ensures Available(Without(units, deleted)) == Available(units) - |deleted|
  {
    if units == [] {
      assert deleted == {};
    } else {
      var before, u := units[..|units| - 1], units[|units| - 1];
      assert units == before + [u];
      assert forall v :: v in before ==> v in units && v.name != u.name;
      AvailableOne(before, u);
      NamesWithoutLast(before, u, deleted);
      if u.name in deleted {
        assert u in units;
        AvailableLeft(before, deleted - {u.name});
        WithoutTaken(before, u, deleted);
      } else {
        assert deleted - {u.name} == deleted;
        AvailableLeft(before, deleted);
        WithoutKept(before, u, deleted);
        AvailableOne(Without(before, deleted), u);
      }
    }
  }

  lemma AvailableOne(before: seq<Unit>, u: Unit)
    ensures Available(before + [u]) == Available(before) + if Counts(u) then 1 else 0
  {
    assert (before + [u])[..|before|] == before;
  }

  lemma WithoutTaken(before: seq<Unit>, u: Unit, deleted: set<string>)
    requires u.name in deleted && forall v :: v in before ==> v.name != u.name
    ensures Without(before + [u], deleted) == Without(before, deleted - {u.name})
  {
    assert (before + [u])[..|before|] == before;
    SameWithout(before, deleted, deleted - {u.name});
  }

  lemma NamesWithoutLast(before: seq<Unit>, u: Unit, deleted: set<string>)
    requires deleted <= NamesOf(before + [u])
    ensures deleted - {u.name} <= NamesOf(before)
  {
    forall n | n in deleted - {u.name} ensures n in NamesOf(before) {
      var v :| v in before + [u] && v.name == n;
      assert v in before;
    }
  }

  lemma WithoutKept(before: seq<Unit>, u: Unit, deleted: set<string>)
    requires u.name !in deleted
    ensures Without(before + [u], deleted) == Without(before, deleted) + [u]
  {
    assert (before + [u])[..|before|] == before;
  }

  /** The first unit that is not deleted comes first in what is left. */
  lemma {:induction false} FirstLeft(units: seq<Unit>, deleted: set<string>, k: nat)
    requires k < |units| && units[k].name !in deleted && forall j :: 0 <= j < k ==> units[j].name in deleted
    ensures Without(units, deleted) != [] && Without(units, deleted)[0] == units[k]
  {
    var before := units[..|units| - 1];
    if k < |before| {
      FirstLeft(before, deleted, k);
    } else {
      NothingLeft(before, deleted);
    }
  }

  lemma {:induction false} NothingLeft(units: seq<Unit>, deleted: set<string>)
    requires forall j :: 0 <= j < |units| ==> units[j].name in deleted
    ensures Without(units, deleted) == []
  {
    if units != [] {
      NothingLeft(units[..|units| - 1], deleted);
    }
  }

  /** A set between two others, of any size in between. */
  lemma {:induction false} SetBetween(small: set<string>, large: set<string>, n: nat) returns (s: set<string>)
    requires small <= large && |small| <= n <= |large|
    ensures small <= s <= large && |s| == n
    decreases n - |small|
  {
    if |small| == n {
      return small;
    }
    LargerHasMore(small, large);
    var x :| x in large && x !in small;
    s := SetBetween(small + {x}, large, n);
  }

  lemma {:induction false} SubsetSize(a: set<string>, b: set<string>)
    requires a <= b
    ensures |a| <= |b|
  {
    if a != {} {
      var x :| x in a;
      SubsetSize(a - {x}, b - {x});
    }
  }

  lemma LargerHasMore(small: set<string>, large: set<string>)
    requires |small| < |large|
    ensures !(large <= small)
  {
    if large <= small {
      SubsetSize(large, small);
    }
  }

  // -------------------------------------------------------------- the exact condition

  lemma AllManagedTemplate(units: seq<Unit>)
    requires units != [] && forall u :: u in units ==> IsManaged(u)
    ensures Template(units) == units[0]
  {
    FirstUnmanagedIn(units);
  }

  /** What is missing after a deletion, in terms of the first unit that is left. */
  lemma MissingAfter(units: seq<Unit>, requestID: string, deleted: set<string>, k: nat)
    requires DistinctNames(units) && (forall u :: u in units ==> IsManaged(u)) && Permitted(units, requestID, deleted)
    requires k < |units| && units[k].name !in deleted && forall j :: 0 <= j < k ==> units[j].name in deleted
    ensures Missing(Without(units, deleted)) == 0 <==> units[k].serverless.minAvailable <= Available(units) - |deleted|
  {
    FirstLeft(units, deleted, k);
    MissingManaged(Without(units, deleted));
    DeletedCount(units, requestID, deleted);
    AvailableLeft(units, deleted);
  }

  lemma MissingManaged(units: seq<Unit>)
    requires units != [] && forall u :: u in units ==> IsManaged(u)
    ensures Missing(units) == 0 <==> units[0].serverless.minAvailable <= Available(units)
  {
    AllManagedTemplate(units);
  }

  lemma DeletedCount(units: seq<Unit>, requestID: string, deleted: set<string>)
    requires DistinctNames(units) && deleted <= NamesOf(ReadyUnits(units, requestID))
    ensures deleted <= NamesOf(units)
    ensures forall u :: u in units && u.name in deleted ==> Counts(u)
  {
    forall u | u in units && u.name in deleted ensures Counts(u) {
      ReadyName(units, requestID, u);
    }
  }

  /** No deletion that spares unit k is larger than MostSparing. */
  lemma SparingBound(units: seq<Unit>, requestID: string, deleted: set<string>, k: nat)
    requires DistinctNames(units) && Permitted(units, requestID, deleted) && k < |units| && units[k].name !in deleted
    ensures |deleted| <= MostSparing(units, requestID, k)
  {
    OthersCount(units, requestID, k);
    SubsetSize(deleted, NamesOf(ReadyUnits(units, requestID)) - {units[k].name});
  }

  /** Some deletion that takes all before unit k and spares it is that large. */
  lemma SparingReached(units: seq<Unit>, requestID: string, k: nat) returns (deleted: set<string>)
    requires DistinctNames(units) && CanBecomeTemplate(units, requestID, k)
    ensures Permitted(units, requestID, deleted) && |deleted| == MostSparing(units, requestID, k)
    ensures units[k].name !in deleted && forall j :: 0 <= j < k ==> units[j].name in deleted
  {
    var first, others := NamesOf(units[..k]), NamesOf(ReadyUnits(units, requestID)) - {units[k].name};
    OthersCount(units, requestID, k);
    CountDistinct(units[..k]);
    FirstAreOthers(units, requestID, k);
    SubsetSize(first, others);
    deleted := SetBetween(first, others, MostSparing(units, requestID, k));
    FirstInside(units, k, deleted);
  }

  lemma FirstInside(units: seq<Unit>, k: nat, deleted: set<string>)
    requires 0 < k <= |units| && NamesOf(units[..k]) <= deleted
    ensures deleted != {} && forall j :: 0 <= j < k ==> units[j].name in deleted
  {
    forall j | 0 <= j < k ensures units[j].name in deleted {
      assert units[j] in units[..k];
    }
    assert units[0].name in deleted;
  }

  lemma OthersCount(units: seq<Unit>, requestID: string, k: nat)
    requires DistinctNames(units) && k < |units|
    ensures |NamesOf(ReadyUnits(units, requestID)) - {units[k].name}|
            == |ReadyUnits(units, requestID)| - if IsReadyWorker(units[k], requestID) then 1 else 0
  {
    ReadyNamesCount(units, requestID);
    ReadyName(units, requestID, units[k]);
    RemoveOne(NamesOf(ReadyUnits(units, requestID)), units[k].name);
  }

  lemma RemoveOne(names: set<string>, x: string)
    ensures |names - {x}| == |names| - if x in names then 1 else 0
  {
    if x !in names {
      assert names - {x} == names;
    }
  }

  lemma FirstAreOthers(units: seq<Unit>, requestID: string, k: nat)
    requires DistinctNames(units) && k < |units| && forall j :: 0 <= j < k ==> IsReadyWorker(units[j], requestID)
    ensures NamesOf(units[..k]) <= NamesOf(ReadyUnits(units, requestID)) - {units[k].name}
  {
    forall x | x in NamesOf(units[..k]) ensures x in NamesOf(ReadyUnits(units, requestID)) - {units[k].name} {
      var j :| 0 <= j < k && units[j].name == x;
      assert units[j] in ReadyUnits(units, requestID);
    }
  }

  /** The first unit that is not in the set, if there is one. */
  lemma FirstSpared(units: seq<Unit>, deleted: set<string>) returns (k: nat)
    ensures k <= |units| && forall j :: 0 <= j < k ==> units[j].name in deleted
    ensures k < |units| ==> units[k].name !in deleted
  {
    k := 0;
    while k < |units| && units[k].name in deleted
      invariant k <= |units| && forall j :: 0 <= j < k ==> units[j].name in deleted
    {
      k := k + 1;
    }
  }

  lemma DeletedPrefix(units: seq<Unit>, requestID: string, deleted: set<string>, k: nat)
    requires DistinctNames(units) && Permitted(units, requestID, deleted)
    requires 0 < k < |units| && forall j :: 0 <= j < k ==> units[j].name in deleted
    ensures CanBecomeTemplate(units, requestID, k)
  {
    forall j | 0 <= j < k ensures IsReadyWorker(units[j], requestID) {
      ReadyName(units, requestID, units[j]);
    }
    CountDistinct(units[..k]);
    SubsetSize(NamesOf(units[..k]), deleted);
  }

  lemma SafeDeletion(units: seq<Unit>, requestID: string, deleted: set<string>)
    requires DistinctNames(units) && (forall u :: u in units ==> IsManaged(u)) && Permitted(units, requestID, deleted)
    requires forall k: nat :: CanBecomeTemplate(units, requestID, k) ==> AsksForNoMore(units, requestID, k)
    ensures Missing(Without(units, deleted)) == 0
  {
    var k := FirstSpared(units, deleted);
    if k == |units| {
      NothingLeft(units, deleted);
    } else if k == 0 {
      MissingAfter(units, requestID, deleted, 0);
      AllManagedTemplate(units);
      ReadyAreAvailable(units, requestID);
    } else {
      DeletedPrefix(units, requestID, deleted, k);
      MissingAfter(units, requestID, deleted, k);
      SparingBound(units, requestID, deleted, k);
      assert AsksForNoMore(units, requestID, k);
    }
  }

  /** A pool of managed units: whatever a pass may delete, the next one creates nothing, if and
      only if every unit that can become the template asks for no more than is available
      after the largest deletion that spares it. */
  lemma NeverCreatesAfterExactly(units: seq<Unit>, requestID: string)
    requires DistinctNames(units) && forall u :: u in units ==> IsManaged(u)
    ensures NeverCreatesAfter(units, requestID) <==>
            forall k: nat :: CanBecomeTemplate(units, requestID, k) ==> AsksForNoMore(units, requestID, k)
  {
    if forall k: nat :: CanBecomeTemplate(units, requestID, k) ==> AsksForNoMore(units, requestID, k) {
      forall deleted | Permitted(units, requestID, deleted) ensures Missing(Without(units, deleted)) == 0 {
        SafeDeletion(units, requestID, deleted);
      }
    }
    if NeverCreatesAfter(units, requestID) {
      forall k: nat | CanBecomeTemplate(units, requestID, k) ensures AsksForNoMore(units, requestID, k) {
        var deleted := SparingReached(units, requestID, k);
        assert Missing(Without(units, deleted)) == 0;
        MissingAfter(units, requestID, deleted, k);
      }
    }
  }
}
