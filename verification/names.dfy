/** Kubernetes object names: the syntax checks of the validation library and the clamping
    that generated names go through (internal/controller/storage_runtime_helpers.go). */
module Names {
  import opened Text

  predicate IsLowerAlnum(c: char) {
    'a' <= c <= 'z' || '0' <= c <= '9'
  }

  /** [a-z0-9]([-a-z0-9]*[a-z0-9])? */
  predicate IsLabelSyntax(s: string) {
    && s != ""
    && IsLowerAlnum(s[0]) && IsLowerAlnum(s[|s| - 1])
    && forall c :: c in s ==> IsLowerAlnum(c) || c == '-'
  }

  predicate IsDNS1123Label(s: string) {
    IsLabelSyntax(s) && |s| <= 63
  }

  /** Labels joined by dots, 253 characters at most. */
  predicate IsDNS1123Subdomain(s: string) {
    |s| <= 253 && forall i :: 0 <= i < |Split(s, '.')| ==> IsLabelSyntax(Split(s, '.')[i])
  }

  lemma LabelIsCanonical(s: string)
    requires IsLabelSyntax(s)
    ensures Trimmed(s) && IsLower(s) && Canonical(s) == s && TrimSpace(s) == s && ToLower(s) == s
  {
    assert !IsSpace(s[0]) && !IsSpace(s[|s| - 1]);
    CanonicalIsFixed(s);
    TrimmedIsFixed(s);
    LowerIsFixed(s);
  }

  function Clamp(name: string, limit: nat): (r: string)
    ensures |r| <= limit && r <= name
    ensures |name| <= limit ==> r == name
  {
    if |name| <= limit then name else TrimRightDash(name[..limit])
  }

  /** firstNonEmpty of two values. */
  function FirstNonEmpty(a: string, b: string): string {
    if TrimSpace(a) != "" then TrimSpace(a) else TrimSpace(b)
  }

  // ------------------------------------------------- subdomains, character by character

  /** The same syntax without splitting: letters, digits, dashes and dots, letters or digits
      at both ends and around every dot. */
  predicate LocalSyntax(s: string) {
    && s != ""
    && IsLowerAlnum(s[0]) && IsLowerAlnum(s[|s| - 1])
    && (forall c :: c in s ==> IsLowerAlnum(c) || c == '-' || c == '.')
    && (forall i :: 0 <= i < |s| && s[i] == '.' ==> 0 < i < |s| - 1 && IsLowerAlnum(s[i - 1]) && IsLowerAlnum(s[i + 1]))
  }

  predicate PartsAreLabels(s: string) {
    forall i :: 0 <= i < |Split(s, '.')| ==> IsLabelSyntax(Split(s, '.')[i])
  }

  function DotIndex(s: string): (i: nat)
    requires '.' in s
    ensures i < |s| && s[i] == '.' && '.' !in s[..i]
  {
    if s[0] == '.' then 0
    else
      assert s == [s[0]] + s[1..];
      var j := DotIndex(s[1..]);
      assert s[..1 + j] == [s[0]] + s[1..][..j];
      1 + j
  }

  lemma {:induction false} SubdomainSyntax(s: string)
    ensures PartsAreLabels(s) <==> LocalSyntax(s)
    decreases |s|
  {
    if '.' !in s {
      SplitOfPart(s, '.');
      assert PartsAreLabels(s) <==> IsLabelSyntax(s) by {
        assert Split(s, '.')[0] == s;
      }
    } else {
      var i := DotIndex(s);
      var a, b := s[..i], s[i + 1..];
      assert s == a + ['.'] + b;
      SplitConcat(a, b, '.');
      SplitOfPart(a, '.');
      SubdomainSyntax(b);
      FirstPart(a, b);
      DottedSyntax(a, b);
    }
  }

  lemma FirstPart(a: string, b: string)
    requires Split(a + ['.'] + b, '.') == [a] + Split(b, '.')
    ensures PartsAreLabels(a + ['.'] + b) <==> IsLabelSyntax(a) && PartsAreLabels(b)
  {
    var parts, rest := Split(a + ['.'] + b, '.'), Split(b, '.');
    assert parts[0] == a;
    assert forall i :: 0 <= i < |rest| ==> parts[i + 1] == rest[i];
    if PartsAreLabels(a + ['.'] + b) {
      forall i | 0 <= i < |rest| ensures IsLabelSyntax(rest[i]) {
        assert IsLabelSyntax(parts[i + 1]);
      }
    }
  }

  lemma DottedSyntax(a: string, b: string)
    requires '.' !in a
    ensures LocalSyntax(a + ['.'] + b) <==> IsLabelSyntax(a) && LocalSyntax(b)
  {
    var s := a + ['.'] + b;
    assert s[|a|] == '.';
    assert forall i :: 0 <= i < |a| ==> s[i] == a[i];
    assert forall i :: 0 <= i < |b| ==> s[|a| + 1 + i] == b[i];
    if LocalSyntax(s) {
      DottedSplits(a, b, s);
    } else if IsLabelSyntax(a) && LocalSyntax(b) {
      DottedJoins(a, b, s);
    }
  }

  lemma DottedSplits(a: string, b: string, s: string)
    requires s == a + ['.'] + b && '.' !in a && LocalSyntax(s)
    ensures IsLabelSyntax(a) && LocalSyntax(b)
  {
    assert s[|a|] == '.' && 0 < |a| < |s| - 1;
    assert s[|a| - 1] == a[|a| - 1] && s[|a| + 1] == b[0] && s[0] == a[0] && s[|s| - 1] == b[|b| - 1];
    forall c | c in a ensures IsLowerAlnum(c) || c == '-' {
      assert c in s;
    }
    forall c | c in b ensures IsLowerAlnum(c) || c == '-' || c == '.' {
      assert c in s;
    }
    forall i | 0 <= i < |b| && b[i] == '.' ensures 0 < i < |b| - 1 && IsLowerAlnum(b[i - 1]) && IsLowerAlnum(b[i + 1]) {
      var k := |a| + 1 + i;
      assert s[k] == '.' && s[k - 1] == (if i == 0 then '.' else b[i - 1]) && k < |s| - 1 && s[k + 1] == b[i + 1];
    }
  }

  lemma DottedJoins(a: string, b: string, s: string)
    requires s == a + ['.'] + b && IsLabelSyntax(a) && LocalSyntax(b)
    ensures LocalSyntax(s)
  {
    assert s[0] == a[0] && s[|s| - 1] == b[|b| - 1];
    forall i | 0 <= i < |a| ensures s[i] == a[i] && a[i] != '.' {
      assert a[i] in a;
    }
    forall c | c in s ensures IsLowerAlnum(c) || c == '-' || c == '.' {
      assert c in a || c == '.' || c in b;
    }
    forall i | 0 <= i < |s| && s[i] == '.' ensures 0 < i < |s| - 1 && IsLowerAlnum(s[i - 1]) && IsLowerAlnum(s[i + 1]) {
      if i == |a| {
        assert s[i - 1] == a[|a| - 1] && s[i + 1] == b[0];
      } else {
        assert i > |a|;
        var k := i - |a| - 1;
        assert b[k] == '.' && s[i - 1] == b[k - 1] && s[i + 1] == b[k + 1];
      }
    }
  }

  /** A clamped subdomain is a subdomain exactly when the cut does not leave a dot at its
      end. */
  lemma ClampedSubdomain(s: string, limit: nat)
    requires LocalSyntax(s) && 0 < limit <= 253
    ensures var r := Clamp(s, limit);
            r != "" && (IsDNS1123Subdomain(r) <==> r[|r| - 1] != '.')
  {
    var r := Clamp(s, limit);
    if |s| > limit {
      assert s[..limit][0] == s[0];
    }
    assert r[0] == s[0];
    SubdomainSyntax(r);
    if r[|r| - 1] != '.' {
      assert r[|r| - 1] in s && r[|r| - 1] != '-';
      PrefixSyntax(s, r);
    } else {
      assert !LocalSyntax(r);
    }
  }

  lemma PrefixSyntax(s: string, r: string)
    requires LocalSyntax(s) && r <= s && r != "" && IsLowerAlnum(r[|r| - 1])
    ensures LocalSyntax(r)
  {
    forall c | c in r ensures IsLowerAlnum(c) || c == '-' || c == '.' {
      assert c in s;
    }
    forall i | 0 <= i < |r| && r[i] == '.' ensures 0 < i < |r| - 1 && IsLowerAlnum(r[i - 1]) && IsLowerAlnum(r[i + 1]) {
      assert s[i] == '.';
    }
  }

  /** A subdomain has no white space and no capitals. */
  lemma SubdomainIsCanonical(s: string)
    requires IsDNS1123Subdomain(s)
    ensures s != "" && Trimmed(s) && IsLower(s) && Canonical(s) == s && TrimSpace(s) == s && s[0] != '.'
  {
    SubdomainSyntax(s);
    assert PartsAreLabels(s);
    assert !IsSpace(s[0]) && !IsSpace(s[|s| - 1]);
    CanonicalIsFixed(s);
    TrimmedIsFixed(s);
  }
}
