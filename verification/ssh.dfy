/** The SSH contract: the normaliser that runs when a unit is created or updated
    (pkg/contract/gpuunit.go) and the resolver that the controller runs on what was stored
    (internal/controller/runtime_unit_helpers.go). */
module SSHContract {
  import opened Text
  import opened Names

  datatype SSHSpec = SSHSpec(
    enabled: bool, username: string, keys: seq<string>, port: int, serverAddr: string, serverPort: int,
    connectHost: string, connectPort: int, domainSuffix: string, clientName: string, clientDomain: string,
    token: string, image: string, frpImage: string)

  const DISABLED := SSHSpec(false, "", [], 0, "", 0, "", 0, "", "", "", "", "", "")

  const DEFAULT_USERNAME := "runtime"
  const DEFAULT_PORT := 2222
  const DEFAULT_FRP_PORT := 7000
  const DEFAULT_PROXY_PORT := 1337
  const DEFAULT_IMAGE := "lscr.io/linuxserver/" + "openssh-server:10.2_p1-r0-ls220"
  const DEFAULT_FRP_IMAGE := "docker.io/fatedier/frpc:v0.68.0"

  // ---------------------------------------------------------------- authorized keys

  /** Trimmed keys, without empty ones and repetitions, in order of first appearance. */
  function CleanKeys(keys: seq<string>): (r: seq<string>)
    ensures forall k :: k in r ==> k != "" && Trimmed(k)
    ensures forall i, j :: 0 <= i < j < |r| ==> r[i] != r[j]
  {
    if keys == [] then []
    else
      var before, key := CleanKeys(keys[..|keys| - 1]), TrimSpace(keys[|keys| - 1]);
      if key == "" || key in before then before else before + [key]
  }

  method CollectKeys(keys: seq<string>) returns (r: seq<string>)
    ensures r == CleanKeys(keys)
    ensures forall k :: k in r <==> k != "" && exists raw :: raw in keys && TrimSpace(raw) == k
  {
    r := [];
    var seen: set<string> := {};
    for i := 0 to |keys|
      invariant r == CleanKeys(keys[..i])
      invariant seen == set k | k in r
      invariant forall k :: k in r <==> k != "" && exists j :: 0 <= j < i && TrimSpace(keys[j]) == k
    {
      assert keys[..i + 1][..i] == keys[..i];
      var trimmed := TrimSpace(keys[i]);
      if trimmed == "" {
        continue;
      }
      if trimmed in seen {
        continue;
      }
      seen := seen + {trimmed};
      r := r + [trimmed];
    }
    assert keys[..|keys|] == keys;
  }

  lemma {:induction false} CleanKeysFixed(keys: seq<string>)
    requires forall k :: k in keys ==> k != "" && Trimmed(k)
    requires forall i, j :: 0 <= i < j < |keys| ==> keys[i] != keys[j]
    ensures CleanKeys(keys) == keys
  {
    if keys != [] {
      var before, key := keys[..|keys| - 1], keys[|keys| - 1];
      assert key in keys && forall k :: k in before ==> k in keys;
      CleanKeysFixed(before);
      TrimmedIsFixed(key);
      assert keys == before + [key];
    }
  }

  // --------------------------------------------------------------------- normaliser

  function Or(value: string, fallback: string): string {
    if value == "" then fallback else value
  }

  function OrPort(value: int, fallback: int): int {
    if value == 0 then fallback else value
  }

  predicate IsPort(p: int) {
    1 <= p <= 65535
  }

  function Domain(unitName: string, namespace: string, suffix: string): string {
    unitName + ("." + (namespace + ("." + suffix)))
  }

  /** The specification with everything trimmed and defaulted, before it is checked. */
  function Defaulted(unitName: string, namespace: string, ssh: SSHSpec): SSHSpec {
    var serverAddr := TrimSpace(ssh.serverAddr);
    var suffix := TrimPrefix(TrimSpace(ssh.domainSuffix), ".");
    var domain := Canonical(ssh.clientDomain);
    SSHSpec(
      true, Or(Canonical(ssh.username), DEFAULT_USERNAME), CleanKeys(ssh.keys), OrPort(ssh.port, DEFAULT_PORT),
      serverAddr, OrPort(ssh.serverPort, DEFAULT_FRP_PORT), Or(TrimSpace(ssh.connectHost), serverAddr),
      OrPort(ssh.connectPort, DEFAULT_PROXY_PORT), suffix, Canonical(ssh.clientName),
      Or(domain, Domain(unitName, namespace, suffix)), TrimSpace(ssh.token),
      Or(TrimSpace(ssh.image), DEFAULT_IMAGE), Or(TrimSpace(ssh.frpImage), DEFAULT_FRP_IMAGE))
  }

  /** What the normaliser demands of it. */
  predicate Acceptable(ssh: SSHSpec, n: SSHSpec) {
    && IsDNS1123Label(n.username)
    && n.keys != []
    && n.serverAddr != ""
    && (Canonical(ssh.clientDomain) == "" ==> n.domainSuffix != "")
    && (n.clientName != "" ==> IsDNS1123Subdomain(n.clientName))
    && (n.domainSuffix != "" ==> IsDNS1123Subdomain(n.domainSuffix))
    && IsDNS1123Subdomain(n.clientDomain)
    && IsPort(n.port) && IsPort(n.serverPort) && IsPort(n.connectPort)
  }

  /** NormalizeGPUUnitSSH. */
  function Normalize(unitName: string, namespace: string, ssh: SSHSpec): Result<SSHSpec> {
    if !ssh.enabled then Ok(DISABLED)
    else
      var n := Defaulted(unitName, namespace, ssh);
      if Acceptable(ssh, n) then Ok(n) else Err("ssh specification is invalid")
  }

  // ----------------------------------------------------------------------- resolver

  function ClientName(unitName: string, namespace: string): string {
    Clamp("ssh-" + (namespace + ("-" + unitName)), 63)
  }

  /** resolveUnitSSHSpec. */
  function Resolve(unitName: string, namespace: string, ssh: SSHSpec): Result<SSHSpec> {
    if !ssh.enabled then Ok(DISABLED)
    else
      var username := ToLower(FirstNonEmpty(ssh.username, DEFAULT_USERNAME));
      var keys := CleanKeys(ssh.keys);
      var serverAddr := TrimSpace(ssh.serverAddr);
      var suffix := TrimPrefix(TrimSpace(ssh.domainSuffix), ".");
      var clientName := Or(Canonical(ssh.clientName), ClientName(unitName, namespace));
      var domain := Canonical(ssh.clientDomain);
      var clientDomain := Or(domain, Domain(unitName, namespace, suffix));
      var port, serverPort, connectPort :=
        OrPort(ssh.port, DEFAULT_PORT), OrPort(ssh.serverPort, DEFAULT_FRP_PORT), OrPort(ssh.connectPort, DEFAULT_PROXY_PORT);
      if !IsDNS1123Label(username) then Err("ssh.username is invalid")
      else if keys == [] then Err("ssh.authorizedKeys requires at least one public key")
      else if serverAddr == "" then Err("ssh.serverAddr is required")
      else if domain == "" && suffix == "" then Err("ssh.domainSuffix is required")
      else if !IsPort(port) || !IsPort(serverPort) || !IsPort(connectPort) then Err("ssh ports must be between 1 and 65535")
      else if !IsDNS1123Subdomain(clientName) then Err("ssh.clientName is invalid")
      else if !IsDNS1123Subdomain(clientDomain) then Err("ssh.clientDomain is invalid")
      else
        Ok(SSHSpec(true, username, keys, port, serverAddr, serverPort, FirstNonEmpty(ssh.connectHost, serverAddr), connectPort,
                   suffix, clientName, clientDomain, TrimSpace(ssh.token), FirstNonEmpty(ssh.image, DEFAULT_IMAGE),
                   FirstNonEmpty(ssh.frpImage, DEFAULT_FRP_IMAGE)))
  }

  // -------------------------------------------------------------------- fixed points

  /** What holds of every enabled specification that the normaliser returns. */
  predicate Normal(n: SSHSpec) {
    && n.enabled
    && IsDNS1123Label(n.username)
    && n.keys != [] && CleanKeys(n.keys) == n.keys
    && n.serverAddr != "" && Trimmed(n.serverAddr)
    && n.connectHost != "" && Trimmed(n.connectHost)
    && (n.clientName != "" ==> IsDNS1123Subdomain(n.clientName))
    && (n.domainSuffix != "" ==> IsDNS1123Subdomain(n.domainSuffix))
    && IsDNS1123Subdomain(n.clientDomain)
    && IsPort(n.port) && IsPort(n.serverPort) && IsPort(n.connectPort)
    && Trimmed(n.token)
    && n.image != "" && Trimmed(n.image)
    && n.frpImage != "" && Trimmed(n.frpImage)
  }

  lemma NormalizedIsNormal(unitName: string, namespace: string, ssh: SSHSpec)
    requires ssh.enabled && Normalize(unitName, namespace, ssh).Ok?
    ensures Normal(Normalize(unitName, namespace, ssh).value)
  {
    var n := Defaulted(unitName, namespace, ssh);
    CleanKeysFixed(n.keys);
    DefaultImages();
    OrTrimmed(ssh.image, DEFAULT_IMAGE);
    OrTrimmed(ssh.frpImage, DEFAULT_FRP_IMAGE);
    OrTrimmed(ssh.connectHost, n.serverAddr);
  }

  lemma OrTrimmed(value: string, fallback: string)
    requires fallback != "" && Trimmed(fallback)
    ensures Or(TrimSpace(value), fallback) != "" && Trimmed(Or(TrimSpace(value), fallback))
  {
  }

  lemma DefaultImages()
    ensures DEFAULT_IMAGE != "" && DEFAULT_FRP_IMAGE != "" && Trimmed(DEFAULT_IMAGE) && Trimmed(DEFAULT_FRP_IMAGE)
  {
    var host, rest := "lscr.io/linuxserver/", "openssh-server:10.2_p1-r0-ls220";
    assert host[0] == 'l' && rest[|rest| - 1] == '0';
    assert DEFAULT_IMAGE[0] == host[0] && DEFAULT_IMAGE[|DEFAULT_IMAGE| - 1] == rest[|rest| - 1];
    assert |DEFAULT_FRP_IMAGE| == 31 && DEFAULT_FRP_IMAGE[0] == 'd' && DEFAULT_FRP_IMAGE[30] == '0';
  }

  lemma SuffixFixed(d: string)
    requires d != "" ==> IsDNS1123Subdomain(d)
    ensures TrimPrefix(TrimSpace(d), ".") == d
  {
    if d != "" {
      SubdomainIsCanonical(d);
    }
  }

  lemma CanonicalOrEmpty(d: string)
    requires d != "" ==> IsDNS1123Subdomain(d)
    ensures Canonical(d) == d
  {
    if d != "" {
      SubdomainIsCanonical(d);
    } else {
      CanonicalIsFixed(d);
    }
  }

  /** Normalising a normalised specification changes nothing. */
  lemma NormalizeIsIdempotent(unitName: string, namespace: string, ssh: SSHSpec)
    requires Normalize(unitName, namespace, ssh).Ok?
    ensures var n := Normalize(unitName, namespace, ssh).value; Normalize(unitName, namespace, n) == Ok(n)
  {
    if ssh.enabled {
      var n := Normalize(unitName, namespace, ssh).value;
      NormalizedIsNormal(unitName, namespace, ssh);
      LabelIsCanonical(n.username);
      SuffixFixed(n.domainSuffix);
      CanonicalOrEmpty(n.clientName);
      CanonicalOrEmpty(n.clientDomain);
      SubdomainIsCanonical(n.clientDomain);
      TrimmedIsFixed(n.serverAddr);
      TrimmedIsFixed(n.connectHost);
      TrimmedIsFixed(n.token);
      TrimmedIsFixed(n.image);
      TrimmedIsFixed(n.frpImage);
      assert Defaulted(unitName, namespace, n) == n;
    }
  }

  lemma FirstIsFixed(a: string, b: string)
    requires a != "" && Trimmed(a)
    ensures FirstNonEmpty(a, b) == a
  {
    TrimmedIsFixed(a);
  }

  /** The resolver on a normalised specification: it changes nothing but an empty client
      name, and refuses exactly when the generated client name is no subdomain. */
  lemma ResolveNormal(unitName: string, namespace: string, n: SSHSpec)
    requires Normal(n)
    ensures var filled := n.(clientName := Or(n.clientName, ClientName(unitName, namespace)));
            if IsDNS1123Subdomain(filled.clientName) then Resolve(unitName, namespace, n) == Ok(filled)
            else Resolve(unitName, namespace, n) == Err("ssh.clientName is invalid")
  {
    LabelIsCanonical(n.username);
    FirstIsFixed(n.username, DEFAULT_USERNAME);
    FirstIsFixed(n.connectHost, n.serverAddr);
    FirstIsFixed(n.image, DEFAULT_IMAGE);
    FirstIsFixed(n.frpImage, DEFAULT_FRP_IMAGE);
    SuffixFixed(n.domainSuffix);
    CanonicalOrEmpty(n.clientName);
    CanonicalOrEmpty(n.clientDomain);
    SubdomainIsCanonical(n.clientDomain);
    TrimmedIsFixed(n.serverAddr);
    TrimmedIsFixed(n.token);
  }

  /** The unclamped client name has subdomain syntax. */
  lemma ClientNameSyntax(unitName: string, namespace: string)
    requires IsDNS1123Label(namespace) && IsDNS1123Subdomain(unitName)
    ensures LocalSyntax("ssh-" + (namespace + ("-" + unitName)))
  {
    SubdomainSyntax(unitName);
    assert PartsAreLabels(unitName);
    var head := "ssh-" + (namespace + "-");
    var s := "ssh-" + (namespace + ("-" + unitName));
    assert s == head + unitName && s[0] == 's' && s[|s| - 1] == unitName[|unitName| - 1];
    HeadSyntax(namespace);
    forall c | c in s ensures IsLowerAlnum(c) || c == '-' || c == '.' {
      assert c in head || c in unitName;
    }
    forall i | 0 <= i < |s| && s[i] == '.' ensures 0 < i < |s| - 1 && IsLowerAlnum(s[i - 1]) && IsLowerAlnum(s[i + 1]) {
      assert forall j :: 0 <= j < |head| ==> s[j] == head[j] && head[j] in head;
      var k := i - |head|;
      assert unitName[k] == '.';
      assert s[i - 1] == unitName[k - 1] && s[i + 1] == unitName[k + 1];
    }
  }

  lemma HeadSyntax(namespace: string)
    requires IsDNS1123Label(namespace)
    ensures forall c :: c in "ssh-" + (namespace + "-") ==> IsLowerAlnum(c) || c == '-'
  {
    forall c | c in "ssh-" + (namespace + "-") ensures IsLowerAlnum(c) || c == '-' {
      assert c in "ssh-" || c in namespace || c == '-';
    }
  }

  /** For every valid unit name, the resolver accepts every enabled specification that the
      normaliser produced, and changes nothing except to fill an empty client name with a
      valid name of at most 63 characters, unless that generated name was cut right behind a
      dot; then, and only then, it refuses. */
  lemma ResolverAcceptsNormalized(unitName: string, namespace: string, ssh: SSHSpec)
    requires IsDNS1123Label(namespace) && IsDNS1123Subdomain(unitName)
    requires ssh.enabled && Normalize(unitName, namespace, ssh).Ok?
    ensures var n := Normalize(unitName, namespace, ssh).value;
            var generated := ClientName(unitName, namespace);
            && generated != "" && |generated| <= 63
            && (Resolve(unitName, namespace, n).Ok? <==> n.clientName != "" || generated[|generated| - 1] != '.')
            && (Resolve(unitName, namespace, n).Ok? ==>
                  Resolve(unitName, namespace, n).value == n.(clientName := Or(n.clientName, generated)))
            && (generated[|generated| - 1] != '.' ==> IsDNS1123Subdomain(generated))
  {
    var n := Normalize(unitName, namespace, ssh).value;
    NormalizedIsNormal(unitName, namespace, ssh);
    ResolveNormal(unitName, namespace, n);
    ClientNameSyntax(unitName, namespace);
    ClampedSubdomain("ssh-" + (namespace + ("-" + unitName)), 63);
  }

  /** For a unit name without dots it never refuses. */
  lemma ResolverAcceptsDotFree(unitName: string, namespace: string, ssh: SSHSpec)
    requires IsDNS1123Label(namespace) && IsDNS1123Subdomain(unitName) && '.' !in unitName
    requires ssh.enabled && Normalize(unitName, namespace, ssh).Ok?
    ensures var n := Normalize(unitName, namespace, ssh).value;
            Resolve(unitName, namespace, n) == Ok(n.(clientName := Or(n.clientName, ClientName(unitName, namespace))))
  {
    ResolverAcceptsNormalized(unitName, namespace, ssh);
    GeneratedWithoutDot(unitName, namespace);
  }

  lemma GeneratedWithoutDot(unitName: string, namespace: string)
    requires IsDNS1123Label(namespace) && '.' !in unitName
    ensures '.' !in ClientName(unitName, namespace)
  {
    var s := "ssh-" + (namespace + ("-" + unitName));
    HeadSyntax(namespace);
    assert s == ("ssh-" + (namespace + "-")) + unitName;
    assert '.' !in s;
  }

  /** Whether a specification went through the normaliser first makes no difference to the
      controller: whenever the normaliser accepts it, resolving the original and resolving
      the normalised one give the same. */
  lemma NormalizeThenResolve(unitName: string, namespace: string, ssh: SSHSpec)
    requires Normalize(unitName, namespace, ssh).Ok?
    ensures Resolve(unitName, namespace, ssh) == Resolve(unitName, namespace, Normalize(unitName, namespace, ssh).value)
  {
    if ssh.enabled {
      var n := Normalize(unitName, namespace, ssh).value;
      NormalizedIsNormal(unitName, namespace, ssh);
      ResolveNormal(unitName, namespace, n);
      ResolveOriginal(unitName, namespace, ssh);
    }
  }

  lemma FirstIsOr(a: string, b: string)
    requires Trimmed(b)
    ensures FirstNonEmpty(a, b) == Or(TrimSpace(a), b)
  {
    TrimmedIsFixed(b);
  }

  lemma UsernameAgrees(a: string)
    ensures ToLower(FirstNonEmpty(a, DEFAULT_USERNAME)) == Or(Canonical(a), DEFAULT_USERNAME)
  {
    LabelIsCanonical(DEFAULT_USERNAME);
    FirstIsOr(a, DEFAULT_USERNAME);
  }

  /** The resolver on an original that the normaliser accepts. */
  lemma ResolveOriginal(unitName: string, namespace: string, ssh: SSHSpec)
    requires ssh.enabled && Normalize(unitName, namespace, ssh).Ok?
    ensures var n := Normalize(unitName, namespace, ssh).value;
            var filled := n.(clientName := Or(n.clientName, ClientName(unitName, namespace)));
            if IsDNS1123Subdomain(filled.clientName) then Resolve(unitName, namespace, ssh) == Ok(filled)
            else Resolve(unitName, namespace, ssh) == Err("ssh.clientName is invalid")
  {
    DefaultImages();
    UsernameAgrees(ssh.username);
    FirstIsOr(ssh.connectHost, TrimSpace(ssh.serverAddr));
    FirstIsOr(ssh.image, DEFAULT_IMAGE);
    FirstIsOr(ssh.frpImage, DEFAULT_FRP_IMAGE);
  }
}
