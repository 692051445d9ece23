/** Lists that are checked and repaired item by item, with items that exclude each other:
    the shape of the environment, port, mount and package lists of pkg/contract. */
module Checked {
  import opened Text

  /** Every item repaired, in order; None if an item cannot be, or clashes with an earlier
      one. */
  function CheckAll<T>(items: seq<T>, fix: T -> Option<T>, clash: (T, T) -> bool): Option<seq<T>> {
    if items == [] then Some([])
    else
      var before, item := CheckAll(items[..|items| - 1], fix, clash), fix(items[|items| - 1]);
      if before.None? || item.None? || ClashesWith(before.value, item.value, clash) then None
      else Some(before.value + [item.value])
  }

  predicate ClashesWith<T>(items: seq<T>, x: T, clash: (T, T) -> bool) {
    exists i :: 0 <= i < |items| && clash(items[i], x)
  }

  ghost predicate NoClash<T>(items: seq<T>, clash: (T, T) -> bool) {
    forall i, j :: 0 <= i < j < |items| ==> !clash(items[i], items[j])
  }

  ghost predicate Symmetric<T(!new)>(clash: (T, T) -> bool) {
    forall a, b :: clash(a, b) == clash(b, a)
  }

  /** One more item. */
  lemma CheckStep<T>(items: seq<T>, i: nat, done: seq<T>, fix: T -> Option<T>, clash: (T, T) -> bool)
    requires i < |items| && CheckAll(items[..i], fix, clash) == Some(done)
    ensures CheckAll(items[..i + 1], fix, clash) ==
            if fix(items[i]).None? || ClashesWith(done, fix(items[i]).value, clash) then None
            else Some(done + [fix(items[i]).value])
  {
    assert items[..i + 1][..i] == items[..i];
  }

  lemma {:induction false} RefusedPrefix<T>(items: seq<T>, k: nat, fix: T -> Option<T>, clash: (T, T) -> bool)
    requires k <= |items| && CheckAll(items[..k], fix, clash).None?
    ensures CheckAll(items, fix, clash).None?
    decreases |items|
  {
    if k < |items| {
      assert items[..|items| - 1][..k] == items[..k];
      RefusedPrefix(items[..|items| - 1], k, fix, clash);
    } else {
      assert items[..k] == items;
    }
  }

  /** What an accepted list looks like, and when a list is accepted. */
  lemma {:induction false} CheckAllResult<T>(items: seq<T>, fix: T -> Option<T>, clash: (T, T) -> bool)
    ensures var r := CheckAll(items, fix, clash);
            && (r.Some? ==> |r.value| == |items| && NoClash(r.value, clash)
                            && forall i :: 0 <= i < |items| ==> fix(items[i]) == Some(r.value[i]))
  {
    if items != [] {
      CheckAllResult(items[..|items| - 1], fix, clash);
    }
  }

  lemma {:induction false} CheckAllAccepts<T>(items: seq<T>, r: seq<T>, fix: T -> Option<T>, clash: (T, T) -> bool)
    requires |r| == |items| && NoClash(r, clash)
    requires forall i :: 0 <= i < |items| ==> fix(items[i]) == Some(r[i])
    ensures CheckAll(items, fix, clash) == Some(r)
  {
    if items != [] {
      CheckAllAccepts(items[..|items| - 1], r[..|r| - 1], fix, clash);
      assert r == r[..|r| - 1] + [r[|r| - 1]];
    }
  }

  /** Checking a list again leaves it alone if every item is left alone. */
  lemma CheckAllFixed<T>(r: seq<T>, fix: T -> Option<T>, clash: (T, T) -> bool)
    requires NoClash(r, clash) && forall x :: x in r ==> fix(x) == Some(x)
    ensures CheckAll(r, fix, clash) == Some(r)
  {
    CheckAllAccepts(r, r, fix, clash);
  }

  // ---------------------------------------------------------------------- sorting

  lemma {:induction false} InsertNoClash<T(!new)>(x: T, s: seq<T>, key: T -> string, clash: (T, T) -> bool)
    requires NoClash(s, clash) && Symmetric(clash) && forall y :: y in s ==> !clash(x, y)
    ensures NoClash(Insert(x, s, key), clash)
  {
    if s != [] && !StringLessEq(key(x), key(s[0])) {
      InsertNoClash(x, s[1..], key, clash);
      var rest := Insert(x, s[1..], key);
      forall j | 0 <= j < |rest| ensures !clash(s[0], rest[j]) {
        assert rest[j] in multiset(rest);
        assert rest[j] == x || rest[j] in s[1..];
      }
    }
  }

  lemma {:induction false} SortNoClash<T(!new)>(s: seq<T>, key: T -> string, clash: (T, T) -> bool)
    requires NoClash(s, clash) && Symmetric(clash)
    ensures NoClash(SortOn(s, key), clash)
  {
    if s != [] {
      SortNoClash(s[1..], key, clash);
      MembersOf(SortOn(s[1..], key), s[1..]);
      forall y | y in SortOn(s[1..], key) ensures !clash(s[0], y) {
        var j :| 0 <= j < |s[1..]| && s[1..][j] == y;
        assert !clash(s[0], s[j + 1]);
      }
      InsertNoClash(s[0], SortOn(s[1..], key), key, clash);
    }
  }

  // ------------------------------------------------------------------------ order

  function Drop<T>(s: seq<T>, i: nat): seq<T>
    requires i < |s|
  {
    s[..i] + s[i + 1..]
  }

  lemma DropMultiset<T>(s: seq<T>, i: nat)
    requires i < |s|
    ensures multiset(s) == multiset(Drop(s, i)) + multiset{s[i]}
  {
    assert s == s[..i] + [s[i]] + s[i + 1..];
  }

  /** Two lists that agree up to order still do without one common element. */
  lemma DropBoth<T>(a: seq<T>, i: nat, b: seq<T>, x: T)
    requires i < |a| && a[i] == x
    ensures multiset(a) == multiset(b + [x]) <==> multiset(Drop(a, i)) == multiset(b)
  {
    DropMultiset(a, i);
    assert multiset(b + [x]) == multiset(b) + multiset{x};
    assert multiset(Drop(a, i)) == multiset(a) - multiset{x};
    assert multiset(b) == multiset(b + [x]) - multiset{x};
  }

  lemma DropNoClash<T(!new)>(r: seq<T>, i: nat, clash: (T, T) -> bool)
    requires i < |r| && NoClash(r, clash) && Symmetric(clash)
    ensures NoClash(Drop(r, i), clash)
    ensures forall y :: y in Drop(r, i) ==> !clash(y, r[i])
  {
    var d := Drop(r, i);
    forall j | 0 <= j < |d| ensures !clash(d[j], r[i]) {
      assert d[j] == if j < i then r[j] else r[j + 1];
    }
    forall j, k | 0 <= j < k < |d| ensures !clash(d[j], d[k]) {
      assert d[j] == if j < i then r[j] else r[j + 1];
      assert d[k] == if k < i then r[k] else r[k + 1];
    }
  }

  lemma DropAccepted<T(!new)>(a: seq<T>, i: nat, fix: T -> Option<T>, clash: (T, T) -> bool)
    requires i < |a| && Symmetric(clash) && CheckAll(a, fix, clash).Some?
    ensures var r := CheckAll(a, fix, clash).value;
            && |r| == |a| && fix(a[i]) == Some(r[i])
            && CheckAll(Drop(a, i), fix, clash) == Some(Drop(r, i))
            && (forall y :: y in Drop(r, i) ==> !clash(y, r[i]))
  {
    CheckAllResult(a, fix, clash);
    var r := CheckAll(a, fix, clash).value;
    DropNoClash(r, i, clash);
    DropFixes(a, r, i, fix);
    CheckAllAccepts(Drop(a, i), Drop(r, i), fix, clash);
  }

  lemma DropFixes<T>(a: seq<T>, r: seq<T>, i: nat, fix: T -> Option<T>)
    requires i < |a| == |r| && forall j :: 0 <= j < |a| ==> fix(a[j]) == Some(r[j])
    ensures |Drop(a, i)| == |Drop(r, i)|
    ensures forall j :: 0 <= j < |Drop(a, i)| ==> fix(Drop(a, i)[j]) == Some(Drop(r, i)[j])
  {
    forall j | 0 <= j < |Drop(a, i)| ensures fix(Drop(a, i)[j]) == Some(Drop(r, i)[j]) {
      var k := if j < i then j else j + 1;
      assert Drop(a, i)[j] == a[k] && Drop(r, i)[j] == r[k];
    }
  }

  lemma AppendAccepted<T>(before: seq<T>, x: T, rest: seq<T>, y: T, fix: T -> Option<T>, clash: (T, T) -> bool)
    requires CheckAll(before, fix, clash) == Some(rest) && fix(x) == Some(y) && forall z :: z in rest ==> !clash(z, y)
    ensures CheckAll(before + [x], fix, clash) == Some(rest + [y])
  {
    assert (before + [x])[..|before|] == before;
    assert !ClashesWith(rest, y, clash) by {
      forall j | 0 <= j < |rest| ensures !clash(rest[j], y) {
        assert rest[j] in rest;
      }
    }
  }

  /** Acceptance and the accepted items do not depend on the order of the list. */
  lemma {:induction false} CheckAllAnyOrder<T(!new)>(a: seq<T>, b: seq<T>, fix: T -> Option<T>, clash: (T, T) -> bool)
    requires multiset(a) == multiset(b) && Symmetric(clash) && CheckAll(a, fix, clash).Some?
    ensures CheckAll(b, fix, clash).Some?
    ensures multiset(CheckAll(b, fix, clash).value) == multiset(CheckAll(a, fix, clash).value)
    decreases |b|
  {
    MembersOf(a, b);
    if b == [] {
      assert a == [];
    } else {
      var r := CheckAll(a, fix, clash).value;
      var before, x := b[..|b| - 1], b[|b| - 1];
      assert b == before + [x] && x in b;
      var i :| 0 <= i < |a| && a[i] == x;
      DropBoth(a, i, before, x);
      DropAccepted(a, i, fix, clash);
      CheckAllAnyOrder(Drop(a, i), before, fix, clash);
      var rest := CheckAll(before, fix, clash).value;
      MembersOf(rest, Drop(r, i));
      AppendAccepted(before, x, rest, r[i], fix, clash);
      DropBoth(r, i, rest, r[i]);
    }
  }
}
