/** Serverless workers as the activator sees them (pkg/activator/service.go): generated
    names, which units it manages, and which unit serves as template of a pool. */
module Workers {
  import opened Text
  import opened Names
  import Subjects

  datatype Phase = Ready | Progressing | OtherPhase

  datatype Serverless = Serverless(enabled: bool, requestID: string, minAvailable: int, idleTimeoutSeconds: int)

  /** A runtime unit as listed; config stands for everything copied into new workers. */
  datatype Unit = Unit(name: string, namespace: string, serverless: Serverless, phase: Phase, accessURL: string, config: string)

  // ----------------------------------------------------------------------- names

  function SafeChar(c: char): (r: char)
    ensures IsLowerAlnum(r) || r == '-'
  {
    if IsLowerAlnum(c) then c else '-'
  }

  function SafeChars(s: string): (r: string)
    ensures |r| == |s|
    ensures forall c :: c in r ==> IsLowerAlnum(c) || c == '-'
  {
    if s == "" then "" else SafeChars(s[..|s| - 1]) + [SafeChar(s[|s| - 1])]
  }

  /** sanitizeWorkerNameToken. */
  function Sanitize(value: string): (r: string)
    ensures forall c :: c in r ==> IsLowerAlnum(c) || c == '-'
    ensures r != "" ==> r[0] != '-' && r[|r| - 1] != '-'
  {
    TrimDash(SafeChars(ToLower(TrimSpace(value))))
  }

  method SanitizeWorkerNameToken(value: string) returns (token: string)
    ensures token == Sanitize(value)
    ensures token == "" || IsLabelSyntax(token)
  {
    var chars := ToLower(TrimSpace(value));
    var out := "";
    for i := 0 to |chars|
      invariant out == SafeChars(chars[..i])
    {
      assert chars[..i + 1][..i] == chars[..i];
      out := out + [if 'a' <= chars[i] <= 'z' then chars[i] else if '0' <= chars[i] <= '9' then chars[i] else '-'];
    }
    assert chars[..|chars|] == chars;
    token := TrimDash(out);
    if token != "" {
      assert token[0] in token && token[|token| - 1] in token;
    }
  }

  /** generatedWorkerStem. */
  function Stem(requestID: string): (r: string)
    ensures |r| <= 47
    ensures r != "" && r[0] == 'u' && r[|r| - 1] != '-'
    ensures forall c :: c in r ==> IsLowerAlnum(c) || c == '-'
  {
    var base := if Sanitize(requestID) == "" then "serverless" else Sanitize(requestID);
    assert base[|base| - 1] != '-';
    var prefix := "unit-" + base;
    assert prefix[0] == 'u' && prefix[|prefix| - 1] == base[|base| - 1];
    StemChars(base);
    if |prefix| > 47 then TrimRightDash(prefix[..47]) else prefix
  }

  lemma StemChars(base: string)
    requires forall c :: c in base ==> IsLowerAlnum(c) || c == '-'
    ensures forall c :: c in "unit-" + base ==> IsLowerAlnum(c) || c == '-'
  {
    forall c | c in "unit-" + base ensures IsLowerAlnum(c) || c == '-' {
      assert c in "unit-" || c in base;
    }
  }

  /** The part of an invocation ID that ends up in a worker name. */
  function Suffix(invocationID: string): (r: string)
    ensures 0 < |r| <= 8
    ensures r[|r| - 1] != '-'
    ensures forall c :: c in r ==> IsLowerAlnum(c) || c == '-'
  {
    var token := Sanitize(TrimPrefix(ToLower(TrimSpace(invocationID)), "inv-"));
    var kept := if |token| > 8 then TrimDash(token[..8]) else token;
    if token == "" || kept == "" then "worker" else kept
  }

  /** What marks a worker name, after the stem. */
  function Marked(stem: string): string {
    stem + "-worker-"
  }

  function WorkerName(requestID: string, invocationID: string): string {
    Marked(Stem(requestID)) + Suffix(invocationID)
  }

  predicate IsManaged(u: Unit) {
    u.serverless.requestID != "" && HasPrefix(u.name, Marked(Stem(u.serverless.requestID)))
  }

  /** Every generated name is a label of at most 63 characters that starts with a letter
      (section 2.3.4 of RFC 1035 and RFC 1123), and a unit that carries it for that request
      ID is recognised as managed. */
  lemma GeneratedNameValidAndManaged(requestID: string, invocationID: string)
    ensures var name := WorkerName(requestID, invocationID);
            && IsDNS1123Label(name)
            && 'a' <= name[0] <= 'z'
            && forall u: Unit :: u.name == name && u.serverless.requestID == requestID && requestID != "" ==> IsManaged(u)
  {
    MarkedLabel(Stem(requestID), Suffix(invocationID));
    assert Marked(Stem(requestID)) <= WorkerName(requestID, invocationID);
  }

  lemma MarkedLabel(stem: string, suffix: string)
    requires stem != "" && stem[0] == 'u' && |stem| <= 47 && forall c :: c in stem ==> IsLowerAlnum(c) || c == '-'
    requires 0 < |suffix| <= 8 && suffix[|suffix| - 1] != '-' && forall c :: c in suffix ==> IsLowerAlnum(c) || c == '-'
    ensures IsDNS1123Label(Marked(stem) + suffix) && (Marked(stem) + suffix)[0] == 'u'
  {
    var name := Marked(stem) + suffix;
    assert |"-worker-"| == 8;
    assert name[0] == stem[0] && name[|name| - 1] == suffix[|suffix| - 1];
    assert suffix[|suffix| - 1] in suffix;
    forall c | c in name ensures IsLowerAlnum(c) || c == '-' {
      assert c in stem || c in "-worker-" || c in suffix;
    }
  }

  /** Sanitizing leaves a token of lower-case letters, digits and inner dashes alone. */
  lemma SanitizeFixed(s: string)
    requires IsLabelSyntax(s)
    ensures Sanitize(s) == s
  {
    LabelIsCanonical(s);
    SafeFixed(s);
  }

  lemma {:induction false} SafeFixed(s: string)
    requires forall c :: c in s ==> IsLowerAlnum(c) || c == '-'
    ensures SafeChars(s) == s
  {
    if s != "" {
      SafeFixed(s[..|s| - 1]);
      assert s[|s| - 1] in s;
      assert s == s[..|s| - 1] + [s[|s| - 1]];
    }
  }

  /** strconv.FormatInt in base 36 gives lower-case letters and digits. */
  predicate IsBase36(s: string) {
    s != "" && forall c :: c in s ==> IsLowerAlnum(c)
  }

  function PrewarmSource(nanos: string): string {
    "warm-" + nanos
  }

  function FirstThree(s: string): string {
    if |s| > 3 then s[..3] else s
  }

  /** A prewarm name keeps three digits of the time: two prewarm sources get the same worker
      name exactly if their leading three digits agree. */
  lemma PrewarmNamesCoincide(requestID: string, a: string, b: string)
    requires IsBase36(a) && IsBase36(b)
    ensures WorkerName(requestID, PrewarmSource(a)) == WorkerName(requestID, PrewarmSource(b)) <==> FirstThree(a) == FirstThree(b)
  {
    PrewarmSuffix(a);
    PrewarmSuffix(b);
    var m := Marked(Stem(requestID));
    var x, y := Suffix(PrewarmSource(a)), Suffix(PrewarmSource(b));
    assert (m + x)[|m|..] == x && (m + y)[|m|..] == y;
    assert x[5..] == FirstThree(a) && y[5..] == FirstThree(b);
  }

  lemma PrewarmSyntax(nanos: string)
    requires IsBase36(nanos)
    ensures IsLabelSyntax(PrewarmSource(nanos))
  {
    var s := PrewarmSource(nanos);
    assert s[0] == 'w' && s[|s| - 1] == nanos[|nanos| - 1] && nanos[|nanos| - 1] in nanos;
    forall c | c in s ensures IsLowerAlnum(c) || c == '-' {
      assert c in "warm-" || c in nanos;
    }
  }

  lemma KeptEight(s: string)
    requires |s| > 8 && s[0] != '-' && s[7] != '-'
    ensures TrimDash(s[..8]) == s[..8]
  {
    var kept := s[..8];
    assert kept[0] == s[0] && kept[7] == s[7];
  }

  lemma LabelSuffix(s: string)
    requires IsLabelSyntax(s) && |s| > 8 && s[7] != '-' && !HasPrefix(s, "inv-")
    ensures Suffix(s) == s[..8]
  {
    LabelIsCanonical(s);
    SanitizeFixed(s);
    KeptEight(s);
  }

  lemma ShortLabelSuffix(s: string)
    requires IsLabelSyntax(s) && |s| <= 8 && !HasPrefix(s, "inv-")
    ensures Suffix(s) == s
  {
    LabelIsCanonical(s);
    SanitizeFixed(s);
  }

  lemma PrewarmSuffix(nanos: string)
    requires IsBase36(nanos)
    ensures Suffix(PrewarmSource(nanos)) == "warm-" + FirstThree(nanos)
  {
    var s := PrewarmSource(nanos);
    PrewarmSyntax(nanos);
    assert s[0] == 'w';
    if |nanos| > 3 {
      assert s[7] == nanos[2] && nanos[2] in nanos;
      LabelSuffix(s);
      assert s[..8] == "warm-" + nanos[..3];
    } else {
      ShortLabelSuffix(s);
    }
  }

  /** A generated invocation ID contributes its first eight hexadecimal digits. */
  lemma InvocationSuffix(id: string)
    requires Subjects.IsInvocationID(id)
    ensures Suffix(id) == id[4..12]
  {
    InvocationShape(id);
    LabelIsCanonical(id);
    var token := id[4..];
    assert TrimPrefix(id, "inv-") == token;
    SanitizeFixed(token);
    assert token[7] in token;
    KeptEight(token);
    assert token[..8] == id[4..12];
  }

  lemma InvocationShape(id: string)
    requires Subjects.IsInvocationID(id)
    ensures |id| == 36 && id[..4] == "inv-" && IsLabelSyntax(id) && IsLabelSyntax(id[4..])
    ensures forall i :: 4 <= i < 36 ==> IsLowerAlnum(id[i])
  {
    var token := id[4..];
    assert id == "inv-" + token;
    forall i | 4 <= i < 36 ensures IsLowerAlnum(id[i]) {
      assert id[i] == token[i - 4] && token[i - 4] in token;
    }
    forall c | c in id ensures IsLowerAlnum(c) || c == '-' {
      assert c in "inv-" || c in token;
    }
  }

  /** Workers activated for invocations that differ in those digits have different names. */
  lemma WorkerNamesDiffer(requestID: string, a: string, b: string)
    requires Subjects.IsInvocationID(a) && Subjects.IsInvocationID(b)
    ensures WorkerName(requestID, a) == WorkerName(requestID, b) <==> a[4..12] == b[4..12]
  {
    InvocationSuffix(a);
    InvocationSuffix(b);
    var m := Marked(Stem(requestID));
    assert WorkerName(requestID, a)[|m|..] == Suffix(a) && WorkerName(requestID, b)[|m|..] == Suffix(b);
  }

  // -------------------------------------------------------------------- worker pools

  predicate IsReadyWorker(u: Unit, requestID: string) {
    u.serverless.enabled && u.serverless.requestID == requestID && u.phase.Ready? && TrimSpace(u.accessURL) != ""
  }

  predicate InPool(u: Unit, requestID: string) {
    u.serverless.enabled && u.serverless.requestID == requestID
  }

  function NameOf(u: Unit): string { u.name }

  function Select(units: seq<Unit>, keep: Unit -> bool): (r: seq<Unit>)
    ensures forall u :: u in r <==> u in units && keep(u)
    ensures |r| <= |units|
  {
    if units == [] then []
    else Select(units[..|units| - 1], keep) + (if keep(units[|units| - 1]) then [units[|units| - 1]] else [])
  }

  /** The units of one request ID, sorted by name (groupServerlessUnits and
      listServerlessUnits). */
  function Pool(units: seq<Unit>, requestID: string): seq<Unit> {
    SortOn(Select(units, (u: Unit) => InPool(u, requestID)), NameOf)
  }

  /** templateUnit: the first unit the activator does not manage, else the first unit. */
  function FirstUnmanaged(units: seq<Unit>): Option<Unit> {
    if units == [] then None
    else if !IsManaged(units[0]) then Some(units[0])
    else FirstUnmanaged(units[1..])
  }

  function Template(units: seq<Unit>): (t: Unit)
    requires units != []
    ensures t in units
  {
    FirstUnmanagedIn(units);
    if FirstUnmanaged(units).Some? then FirstUnmanaged(units).value else units[0]
  }

  method TemplateUnit(units: seq<Unit>) returns (t: Unit)
    requires units != []
    ensures t == Template(units)
  {
    for i := 0 to |units|
      invariant FirstUnmanaged(units) == FirstUnmanaged(units[i..])
    {
      if !IsManaged(units[i]) {
        return units[i];
      }
    }
    return units[0];
  }

  lemma {:induction false} FirstUnmanagedIn(units: seq<Unit>)
    ensures FirstUnmanaged(units).Some? <==> exists u :: u in units && !IsManaged(u)
    ensures FirstUnmanaged(units).Some? ==> FirstUnmanaged(units).value in units && !IsManaged(FirstUnmanaged(units).value)
  {
    if units != [] {
      FirstUnmanagedIn(units[1..]);
      assert units == [units[0]] + units[1..];
    }
  }

  /** In a sorted pool the template is the unmanaged unit with the least name. */
  lemma {:induction false} FirstUnmanagedLeast(units: seq<Unit>)
    requires SortedBy(units, NameOf)
    ensures forall u :: u in units && !IsManaged(u) ==>
              FirstUnmanaged(units).Some? && StringLessEq(FirstUnmanaged(units).value.name, u.name)
  {
    if units != [] {
      FirstUnmanagedLeast(units[1..]);
      FirstUnmanagedIn(units);
      if !IsManaged(units[0]) {
        forall u | u in units ensures StringLessEq(units[0].name, u.name) {
          var j :| 0 <= j < |units| && units[j] == u;
          assert StringLessEq(NameOf(units[0]), NameOf(units[j]));
        }
      }
    }
  }

  ghost predicate DistinctNames(units: seq<Unit>) {
    forall i, j :: 0 <= i < j < |units| ==> units[i].name != units[j].name
  }

  /** A listing of the units in the store: each exactly once, under its own name. */
  ghost predicate IsListing(list: seq<Unit>, world: map<string, Unit>) {
    && DistinctNames(list)
    && (forall n :: n in world ==> world[n].name == n && world[n] in list)
    && (forall u :: u in list ==> u.name in world && world[u.name] == u)
  }

  lemma PoolMembers(list: seq<Unit>, requestID: string)
    ensures forall u :: u in Pool(list, requestID) <==> u in list && InPool(u, requestID)
  {
    var keep := (u: Unit) => InPool(u, requestID);
    forall u ensures u in Pool(list, requestID) <==> u in list && InPool(u, requestID) {
      assert u in Pool(list, requestID) <==> u in multiset(Pool(list, requestID));
      assert u in Select(list, keep) <==> u in multiset(Select(list, keep));
    }
  }

  lemma {:induction false} SelectDistinct(units: seq<Unit>, keep: Unit -> bool)
    requires DistinctNames(units)
    ensures DistinctNames(Select(units, keep))
  {
    if units != [] {
      var before, u := units[..|units| - 1], units[|units| - 1];
      SelectDistinct(before, keep);
      assert forall v :: v in Select(before, keep) ==> v in before && v.name != u.name;
    }
  }

  lemma {:induction false} InsertDistinct(x: Unit, s: seq<Unit>)
    requires DistinctNames(s) && forall u :: u in s ==> u.name != x.name
    ensures DistinctNames(Insert(x, s, NameOf))
  {
    if s != [] && !StringLessEq(NameOf(x), NameOf(s[0])) {
      var rest := Insert(x, s[1..], NameOf);
      InsertDistinct(x, s[1..]);
      forall u | u in rest ensures u.name != s[0].name {
        assert u in multiset(rest);
        assert u == x || u in s[1..];
      }
    }
  }

  lemma {:induction false} SortDistinct(s: seq<Unit>)
    requires DistinctNames(s)
    ensures DistinctNames(SortOn(s, NameOf))
  {
    if s != [] {
      SortDistinct(s[1..]);
      var sorted := SortOn(s[1..], NameOf);
      forall u | u in sorted ensures u.name != s[0].name {
        assert u in multiset(sorted);
        assert u in s[1..];
      }
      InsertDistinct(s[0], sorted);
    }
  }

  lemma PoolDistinct(list: seq<Unit>, requestID: string)
    requires DistinctNames(list)
    ensures DistinctNames(Pool(list, requestID))
  {
    SelectDistinct(list, (u: Unit) => InPool(u, requestID));
    SortDistinct(Select(list, (u: Unit) => InPool(u, requestID)));
  }

  /** The template depends only on the unmanaged units of the pool, whatever order the store
      lists them in. */
  lemma TemplateDependsOnUnmanaged(list: seq<Unit>, world: map<string, Unit>, list': seq<Unit>, world': map<string, Unit>, requestID: string)
    requires IsListing(list, world) && IsListing(list', world')
    requires forall n :: (n in world && !IsManaged(world[n])) <==> (n in world' && !IsManaged(world'[n]))
    requires forall n :: n in world && n in world' && !IsManaged(world[n]) ==> world'[n] == world[n]
    requires exists u :: u in list && InPool(u, requestID) && !IsManaged(u)
    ensures Pool(list, requestID) != [] && Pool(list', requestID) != []
    ensures Template(Pool(list', requestID)) == Template(Pool(list, requestID))
  {
    PoolMembers(list, requestID);
    PoolMembers(list', requestID);
    var pool, pool' := Pool(list, requestID), Pool(list', requestID);
    var u :| u in list && InPool(u, requestID) && !IsManaged(u);
    assert u in pool && u.name in world && u.name in world' && world'[u.name] == u && u in pool';
    FirstUnmanagedIn(pool);
    FirstUnmanagedIn(pool');
    FirstUnmanagedLeast(pool);
    FirstUnmanagedLeast(pool');
    var t, t' := FirstUnmanaged(pool).value, FirstUnmanaged(pool').value;
    assert t in list && t.name in world' && world'[t.name] == t && t in pool';
    assert t' in list' && t'.name in world && world[t'.name] == t' && t' in pool;
    StringLessTotal(t.name, t'.name);
  }
}
