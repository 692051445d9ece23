/** path.Clean on absolute paths, and the paths of the serverless framework contract
    (pkg/contract/serverless.go). */
module Paths {
  import opened Text

  predicate IsAbs(p: string) {
    p != "" && p[0] == '/'
  }

  predicate IsElement(x: string) {
    x != "" && x != "." && x != ".."
  }

  /** The elements that remain: empty ones and "." dropped, ".." taking the one before. */
  function Reduce(parts: seq<string>): (r: seq<string>)
    ensures forall x :: x in r ==> x in parts && IsElement(x)
  {
    if parts == [] then []
    else
      var before, last := Reduce(parts[..|parts| - 1]), parts[|parts| - 1];
      assert forall x :: x in parts[..|parts| - 1] ==> x in parts;
      assert before != [] ==> forall x :: x in before[..|before| - 1] ==> x in before;
      if last == "" || last == "." then before
      else if last == ".." then (if before == [] then [] else before[..|before| - 1])
      else before + [last]
  }

  function Clean(p: string): (r: string)
    requires IsAbs(p)
    ensures IsAbs(r)
  {
    "/" + Join(Reduce(Split(p, '/')), '/')
  }

  lemma {:induction false} SplitParts(s: string, sep: char)
    ensures forall i :: 0 <= i < |Split(s, sep)| ==> sep !in Split(s, sep)[i]
    ensures forall i, c :: 0 <= i < |Split(s, sep)| && c in Split(s, sep)[i] ==> c in s
    decreases |s|
  {
    if s != "" {
      SplitParts(s[1..], sep);
      SplitStep(s, sep);
      var parts, rest := Split(s, sep), Split(s[1..], sep);
      assert s == [s[0]] + s[1..];
      forall i | 0 <= i < |parts| ensures sep !in parts[i] && forall c :: c in parts[i] ==> c in s {
        if s[0] == sep {
          assert parts[i] == if i == 0 then "" else rest[i - 1];
        } else {
          assert parts[i] == if i == 0 then [s[0]] + rest[0] else rest[i];
        }
      }
    }
  }

  lemma {:induction false} JoinChars(parts: seq<string>, sep: char)
    ensures forall c :: c in Join(parts, sep) ==> c == sep || exists i :: 0 <= i < |parts| && c in parts[i]
  {
    if |parts| > 1 {
      JoinChars(parts[1..], sep);
      forall c | c in Join(parts, sep) ensures c == sep || exists i :: 0 <= i < |parts| && c in parts[i] {
        if c !in parts[0] && c != sep {
          assert c in Join(parts[1..], sep);
          var i :| 0 <= i < |parts[1..]| && c in parts[1..][i];
          assert parts[1..][i] == parts[i + 1];
        }
      }
    }
  }

  lemma {:induction false} ReduceFixed(parts: seq<string>)
    requires forall x :: x in parts ==> IsElement(x)
    ensures Reduce([""] + parts) == parts
  {
    var all := [""] + parts;
    if parts == [] {
      assert all[..0] == [];
    } else {
      assert all[..|all| - 1] == [""] + parts[..|parts| - 1];
      assert parts[|parts| - 1] in parts && forall x :: x in parts[..|parts| - 1] ==> x in parts;
      ReduceFixed(parts[..|parts| - 1]);
      assert parts == parts[..|parts| - 1] + [parts[|parts| - 1]];
    }
  }

  /** Cleaning a clean path changes nothing. */
  lemma CleanIsIdempotent(p: string)
    requires IsAbs(p)
    ensures Clean(Clean(p)) == Clean(p)
  {
    var r := Reduce(Split(p, '/'));
    SplitParts(p, '/');
    forall i | 0 <= i < |r| ensures '/' !in r[i] {
      assert r[i] in Split(p, '/');
    }
    CleanOfJoined(r);
  }

  lemma SplitAbsolute(tail: string)
    ensures Split("/" + tail, '/') == [""] + Split(tail, '/')
  {
    SplitConcat("", tail, '/');
    SplitOfPart("", '/');
    assert "" + ['/'] + tail == "/" + tail;
  }

  lemma CleanOfJoined(r: seq<string>)
    requires forall i :: 0 <= i < |r| ==> '/' !in r[i]
    requires forall x :: x in r ==> IsElement(x)
    ensures Clean("/" + Join(r, '/')) == "/" + Join(r, '/')
  {
    SplitAbsolute(Join(r, '/'));
    if r == [] {
      ReduceSkipsEmpty([""]);
      ReduceFixed([]);
      assert [""] + [] == [""];
    } else {
      SplitJoin(r, '/');
      ReduceFixed(r);
    }
  }

  /** A path without white space stays without. */
  lemma CleanTrimmed(p: string)
    requires IsAbs(p) && forall c :: c in p ==> !IsSpace(c)
    ensures Trimmed(Clean(p))
  {
    var r := Reduce(Split(p, '/'));
    SplitParts(p, '/');
    JoinChars(r, '/');
    var c := Clean(p);
    forall x | x in c ensures !IsSpace(x) {
      if x != '/' {
        assert x in Join(r, '/');
        var i :| 0 <= i < |r| && x in r[i];
        assert r[i] in Split(p, '/');
      }
    }
    assert c[0] in c && c[|c| - 1] in c;
  }

  // ----------------------------------------------------------------- framework paths

  /** /tmp/serverless-framework and /tmp/serverless-framework/framework.sock */
  const SOCKET_DIR := "/" + Join(["tmp", "serverless-framework"], '/')
  const SOCKET_PATH := "/" + Join(["tmp", "serverless-framework", "framework.sock"], '/')
  const INVOKE_PATH := "/" + Join(["invoke"], '/')
  const HEALTH_PATH := "/" + Join(["healthz"], '/')

  /** normalizeServerlessFrameworkSocketPath. */
  function SocketPath(value: string): string {
    var t := TrimSpace(value);
    if t == "" then SOCKET_PATH
    else if t[0] != '/' then Clean("/" + t)
    else Clean(t)
  }

  /** normalizeServerlessFrameworkPath. */
  function HttpPath(value: string, fallback: string): string {
    var t := TrimSpace(value);
    if t == "" then fallback
    else
      var n := "/" + TrimPrefix(t, "/");
      if n == "/" then fallback else Clean(n)
  }

  /** The normalised HTTP path is a fixed point exactly when it is trimmed and is not the
      root; the root is replaced by the fallback when it is normalised again. */
  lemma HttpPathFixed(value: string, fallback: string)
    requires TrimSpace(value) != "" && "/" + TrimPrefix(TrimSpace(value), "/") != "/"
    requires IsAbs(fallback) && fallback != "/" && Trimmed(fallback)
    ensures var w := HttpPath(value, fallback); HttpPath(w, fallback) == w <==> w != "/" && Trimmed(w)
  {
    var n := "/" + TrimPrefix(TrimSpace(value), "/");
    var w := HttpPath(value, fallback);
    CleanIsIdempotent(n);
    AbsoluteAgain(w, fallback);
  }

  lemma AbsoluteAgain(w: string, fallback: string)
    requires IsAbs(w) && Clean(w) == w && IsAbs(fallback) && fallback != "/" && Trimmed(fallback)
    ensures HttpPath(w, fallback) == w <==> w != "/" && Trimmed(w)
  {
    if Trimmed(w) {
      TrimmedIsFixed(w);
      assert "/" + TrimPrefix(w, "/") == w;
    } else {
      // The trimmed path is shorter, and cleaning an absolute path never makes it longer.
      UntrimmedChanges(w, fallback);
    }
  }

  lemma UntrimmedChanges(w: string, fallback: string)
    requires IsAbs(w) && !Trimmed(w) && IsAbs(fallback) && fallback != "/" && Trimmed(fallback)
    ensures HttpPath(w, fallback) != w
  {
    var t := TrimSpace(w);
    assert !IsSpace('/') && TrimLeft(w) == w && w[0] in w;
    TrimKeeps(w, '/');
    assert t <= w && t != w && t != "" && t[0] == '/';
    assert "/" + TrimPrefix(t, "/") == t;
    if t != "/" {
      CleanNotLonger(t);
    }
  }

  lemma CleanNotLonger(p: string)
    requires IsAbs(p)
    ensures |Clean(p)| <= |p|
  {
    SplitConcat("", p[1..], '/');
    assert p == "" + ['/'] + p[1..];
    SplitOfPart("", '/');
    SplitLength(p[1..], '/');
    ReduceLength(Split(p[1..], '/'));
    ReduceSkipsEmpty(Split(p[1..], '/'));
    var r := Reduce(Split(p, '/'));
    if r != [] {
      JoinWidth(r, '/');
    }
  }

  /** Length of the joined parts. */
  function Width(parts: seq<string>): nat {
    if parts == [] then 0 else Width(parts[..|parts| - 1]) + |parts[|parts| - 1]| + 1
  }

  lemma {:induction false} JoinWidth(parts: seq<string>, sep: char)
    requires parts != []
    ensures |Join(parts, sep)| + 1 == Width(parts)
  {
    if |parts| == 1 {
      assert parts[..0] == [];
    } else {
      JoinWidth(parts[1..], sep);
      WidthFront(parts);
    }
  }

  lemma {:induction false} WidthFront(parts: seq<string>)
    requires parts != []
    ensures Width(parts) == |parts[0]| + 1 + Width(parts[1..])
  {
    if |parts| == 1 {
      assert parts[..0] == [] && parts[1..] == [];
    } else {
      WidthFront(parts[..|parts| - 1]);
      assert parts[..|parts| - 1][1..] == parts[1..][..|parts[1..]| - 1];
    }
  }

  lemma {:induction false} SplitLength(s: string, sep: char)
    ensures Width(Split(s, sep)) == |s| + 1
    decreases |s|
  {
    if s == "" {
      assert [""][..0] == [];
    } else {
      SplitLength(s[1..], sep);
      SplitStep(s, sep);
      WidthFront(Split(s, sep));
      WidthFront(Split(s[1..], sep));
      var parts, rest := Split(s, sep), Split(s[1..], sep);
      if s[0] == sep {
        assert parts[1..] == rest;
      } else {
        assert parts[1..] == rest[1..];
      }
    }
  }

  lemma {:induction false} ReduceLength(parts: seq<string>)
    ensures Width(Reduce(parts)) <= Width(parts)
  {
    if parts != [] {
      ReduceLength(parts[..|parts| - 1]);
      var before := Reduce(parts[..|parts| - 1]);
      if before != [] {
        assert Width(before[..|before| - 1]) <= Width(before);
      }
      assert (before + [parts[|parts| - 1]])[..|before|] == before;
    }
  }

  lemma {:induction false} ReduceSkipsEmpty(parts: seq<string>)
    ensures Reduce([""] + parts) == Reduce(parts)
  {
    var all := [""] + parts;
    if parts == [] {
      assert all[..0] == [];
    } else {
      assert all[..|all| - 1] == [""] + parts[..|parts| - 1];
      ReduceSkipsEmpty(parts[..|parts| - 1]);
    }
  }

  /** The normalised socket path is a fixed point exactly when it is trimmed. */
  lemma SocketPathFixed(value: string)
    ensures var w := SocketPath(value); SocketPath(w) == w <==> Trimmed(w)
  {
    var w := SocketPath(value);
    var t := TrimSpace(value);
    if t == "" {
      DefaultsAreClean();
    } else if t[0] != '/' {
      CleanIsIdempotent("/" + t);
    } else {
      CleanIsIdempotent(t);
    }
    assert IsAbs(w) && Clean(w) == w;
    if Trimmed(w) {
      TrimmedIsFixed(w);
    } else {
      assert !IsSpace('/') && TrimLeft(w) == w && w[0] in w;
      TrimKeeps(w, '/');
      assert TrimSpace(w) <= w && TrimSpace(w) != w;
      CleanNotLonger(TrimSpace(w));
    }
  }

  lemma DefaultsAreClean()
    ensures Clean(SOCKET_PATH) == SOCKET_PATH && Clean(INVOKE_PATH) == INVOKE_PATH && Clean(HEALTH_PATH) == HEALTH_PATH
    ensures Trimmed(SOCKET_PATH) && Trimmed(INVOKE_PATH) && Trimmed(HEALTH_PATH)
    ensures IsAbs(INVOKE_PATH) && IsAbs(HEALTH_PATH) && INVOKE_PATH != "/" && HEALTH_PATH != "/"
  {
    CleanOfJoined(["tmp", "serverless-framework", "framework.sock"]);
    CleanOfJoined(["invoke"]);
    CleanOfJoined(["healthz"]);
    DefaultsAreTrimmed();
  }

  lemma DefaultsAreTrimmed()
    ensures Trimmed(SOCKET_PATH) && Trimmed(INVOKE_PATH) && Trimmed(HEALTH_PATH)
    ensures INVOKE_PATH != "/" && HEALTH_PATH != "/"
  {
    var parts := ["tmp", "serverless-framework", "framework.sock"];
    assert parts[1..] == ["serverless-framework", "framework.sock"] && parts[1..][1..] == ["framework.sock"];
    assert Join(["framework.sock"], '/') == "framework.sock";
    assert INVOKE_PATH[|INVOKE_PATH| - 1] == 'e' && HEALTH_PATH[|HEALTH_PATH| - 1] == 'z';
    var tail := Join(parts[1..], '/');
    assert tail[|tail| - 1] == 'k';
    assert SOCKET_PATH[|SOCKET_PATH| - 1] == tail[|tail| - 1];
  }
}
