/** Normalisation of create requests (pkg/contract/gpuunit.go and serverless.go). */
module Contract {
  import opened Text
  import opened Names
  import opened Checked
  import opened Catalog
  import opened Paths
  import SSH = SSHContract
  import Subjects

  // --------------------------------------------------------------------- requests

  datatype Env = Env(name: string, value: string)
  datatype Port = Port(name: string, number: int, protocol: string)
  datatype Template = Template(command: seq<string>, args: seq<string>, envs: seq<Env>, ports: seq<Port>)
  datatype Access = Access(primaryPort: string, scheme: string)
  datatype Framework = Framework(socketPath: string, invokePath: string, healthPath: string)
  datatype Serverless = Serverless(
    enabled: bool, requestID: string, minAvailable: int, idleTimeout: int, minRequests: int, framework: Framework)
  datatype Mount = Mount(name: string, path: string, readOnly: bool)

  datatype Request = Request(
    operationID: string, name: string, packageID: string, specName: string, image: string,
    cpu: string, memory: string, gpu: int, allocation: Allocation, template: Template,
    access: Access, ssh: SSH.SSHSpec, serverless: Serverless, mounts: seq<Mount>)

  /** Library checks: quantities, environment variable names and port names. */
  datatype Library = Library(quantity: Quantity, envName: string -> bool, portName: string -> bool)

  const NAMESPACE := "runtime-instance"
  const DEFAULT_SCHEME := "http"

  // ---------------------------------------------------------------------- template

  function FixEnv(lib: Library, e: Env): Option<Env> {
    var name := TrimSpace(e.name);
    if name == "" || !lib.envName(name) then None else Some(e.(name := name))
  }

  predicate SameEnv(a: Env, b: Env) { a.name == b.name }

  function FixPort(lib: Library, p: Port): Option<Port> {
    var name := TrimSpace(p.name);
    if name == "" || !lib.portName(name) || p.number <= 0 || p.number > 65535 then None
    else Some(Port(name, p.number, if p.protocol == "" then "TCP" else p.protocol))
  }

  predicate SamePort(a: Port, b: Port) { a.name == b.name || a.number == b.number }

  function CheckEnvs(lib: Library, envs: seq<Env>): Option<seq<Env>> {
    CheckAll(envs, (e: Env) => FixEnv(lib, e), SameEnv)
  }

  function CheckPorts(lib: Library, ports: seq<Port>): Option<seq<Port>> {
    CheckAll(ports, (p: Port) => FixPort(lib, p), SamePort)
  }

  predicate EnvNamed(envs: seq<Env>, name: string) {
    exists j :: 0 <= j < |envs| && envs[j].name == name
  }

  lemma EnvStep(lib: Library, was: seq<Env>, i: nat, done: seq<Env>)
    requires i < |was| && CheckEnvs(lib, was[..i]) == Some(done)
    ensures var e := was[i].(name := TrimSpace(was[i].name));
            if e.name == "" || !lib.envName(e.name) || EnvNamed(done, e.name) then CheckEnvs(lib, was).None?
            else CheckEnvs(lib, was[..i + 1]) == Some(done + [e])
  {
    var fix := (e: Env) => FixEnv(lib, e);
    CheckStep(was, i, done, fix, SameEnv);
    var e := was[i].(name := TrimSpace(was[i].name));
    assert ClashesWith(done, e, SameEnv) <==> EnvNamed(done, e.name);
    if CheckEnvs(lib, was[..i + 1]).None? {
      RefusedPrefix(was, i + 1, fix, SameEnv);
    }
  }

  /** The first loop of NormalizeGPUUnitTemplate: the names are trimmed in the caller's own
      list, also in the entries before one that is refused. */
  method NormalizeEnvs(lib: Library, envs: array<Env>) returns (ok: bool)
    modifies envs
    ensures ok <==> CheckEnvs(lib, old(envs[..])).Some?
    ensures ok ==> envs[..] == CheckEnvs(lib, old(envs[..])).value
  {
    ghost var was := envs[..];
    ghost var done: seq<Env> := [];
    var seen: set<string> := {};
    for i := 0 to envs.Length
      invariant CheckEnvs(lib, was[..i]) == Some(done) && envs[..i] == done
      invariant forall j :: i <= j < envs.Length ==> envs[j] == was[j]
      invariant forall n :: n in seen <==> EnvNamed(done, n)
    {
      EnvStep(lib, was, i, done);
      envs[i] := envs[i].(name := TrimSpace(envs[i].name));
      if envs[i].name == "" || !lib.envName(envs[i].name) || envs[i].name in seen {
        return false;
      }
      seen := seen + {envs[i].name};
      MoreNames(done, envs[i]);
      done := done + [envs[i]];
    }
    assert was[..envs.Length] == was;
    return true;
  }

  lemma MoreNames(done: seq<Env>, e: Env)
    ensures forall n :: EnvNamed(done + [e], n) <==> EnvNamed(done, n) || n == e.name
  {
    forall n ensures EnvNamed(done + [e], n) <==> EnvNamed(done, n) || n == e.name {
      if EnvNamed(done, n) {
        var j :| 0 <= j < |done| && done[j].name == n;
        assert (done + [e])[j].name == n;
      }
      assert (done + [e])[|done|] == e;
    }
  }

  function NormalizeTemplate(lib: Library, t: Template): Option<Template> {
    var envs, ports := CheckEnvs(lib, t.envs), CheckPorts(lib, t.ports);
    if envs.None? || ports.None? then None else Some(t.(envs := envs.value, ports := ports.value))
  }

  lemma TemplateFixed(lib: Library, t: Template)
    requires NormalizeTemplate(lib, t).Some?
    ensures var n := NormalizeTemplate(lib, t).value; NormalizeTemplate(lib, n) == Some(n)
  {
    var n := NormalizeTemplate(lib, t).value;
    EnvsFixed(lib, t.envs);
    PortsFixed(lib, t.ports);
  }

  lemma EnvsFixed(lib: Library, envs: seq<Env>)
    requires CheckEnvs(lib, envs).Some?
    ensures CheckEnvs(lib, CheckEnvs(lib, envs).value) == CheckEnvs(lib, envs)
  {
    var fix := (e: Env) => FixEnv(lib, e);
    var r := CheckEnvs(lib, envs).value;
    CheckAllResult(envs, fix, SameEnv);
    forall x | x in r ensures fix(x) == Some(x) {
      var i :| 0 <= i < |r| && r[i] == x;
      assert fix(envs[i]) == Some(x);
      TrimmedIsFixed(x.name);
    }
    CheckAllFixed(r, fix, SameEnv);
  }

  lemma PortsFixed(lib: Library, ports: seq<Port>)
    requires CheckPorts(lib, ports).Some?
    ensures CheckPorts(lib, CheckPorts(lib, ports).value) == CheckPorts(lib, ports)
  {
    var fix := (p: Port) => FixPort(lib, p);
    var r := CheckPorts(lib, ports).value;
    CheckAllResult(ports, fix, SamePort);
    forall x | x in r ensures fix(x) == Some(x) {
      var i :| 0 <= i < |r| && r[i] == x;
      assert fix(ports[i]) == Some(x);
      TrimmedIsFixed(x.name);
    }
    CheckAllFixed(r, fix, SamePort);
  }

  // ------------------------------------------------------------------------ access

  predicate NamesPort(ports: seq<Port>, name: string) {
    exists i :: 0 <= i < |ports| && ports[i].name == name
  }

  /** NormalizeGPUUnitAccess. */
  function NormalizeAccess(a: Access, ports: seq<Port>): Option<Access> {
    var primary, scheme := TrimSpace(a.primaryPort), Canonical(a.scheme);
    var scheme' := if scheme == "" then DEFAULT_SCHEME else scheme;
    if ports == [] then (if primary != "" then None else Some(Access("", scheme')))
    else
      var primary' := if primary == "" then ports[0].name else primary;
      if NamesPort(ports, primary') then Some(Access(primary', scheme')) else None
  }

  lemma AccessFixed(a: Access, ports: seq<Port>)
    requires NormalizeAccess(a, ports).Some? && forall i :: 0 <= i < |ports| ==> Trimmed(ports[i].name) && ports[i].name != ""
    ensures var n := NormalizeAccess(a, ports).value; NormalizeAccess(n, ports) == Some(n)
  {
    var n := NormalizeAccess(a, ports).value;
    TrimmedIsFixed(n.primaryPort);
    CanonicalIsFixed(n.scheme);
  }

  // -------------------------------------------------------------------- serverless

  const NO_SERVERLESS := Serverless(false, "", 0, 0, 0, Framework("", "", ""))

  function NormalizeFramework(f: Framework): Option<Framework> {
    var socket := SocketPath(f.socketPath);
    if socket == SOCKET_DIR || !HasPrefix(socket, SOCKET_DIR + "/") then None
    else Some(Framework(socket, HttpPath(f.invokePath, INVOKE_PATH), HttpPath(f.healthPath, HEALTH_PATH)))
  }

  /** NormalizeGPUUnitServerless. */
  function NormalizeServerless(s: Serverless): Option<Serverless> {
    var enabled := s.enabled || TrimSpace(s.requestID) != "" || s.minAvailable > 0 || s.idleTimeout > 0 || s.minRequests > 0;
    var requestID := Canonical(s.requestID);
    if !enabled then Some(NO_SERVERLESS)
    else if !Subjects.IsToken(requestID) || s.minAvailable < 0 || s.idleTimeout < 0 || s.minRequests < 0 then None
    else
      var framework := NormalizeFramework(s.framework);
      if framework.None? then None
      else
        Some(Serverless(true, requestID, s.minAvailable, if s.idleTimeout == 0 then 300 else s.idleTimeout, s.minRequests,
                        framework.value))
  }

  /** The paths survive a second normalisation. */
  predicate StableFramework(f: Framework) {
    && Trimmed(f.socketPath)
    && Trimmed(f.invokePath) && f.invokePath != "/"
    && Trimmed(f.healthPath) && f.healthPath != "/"
  }

  lemma HttpPathAgain(value: string, fallback: string)
    requires IsAbs(fallback) && fallback != "/" && Trimmed(fallback) && Clean(fallback) == fallback
    ensures var w := HttpPath(value, fallback); HttpPath(w, fallback) == w <==> w != "/" && Trimmed(w)
  {
    if TrimSpace(value) == "" || "/" + TrimPrefix(TrimSpace(value), "/") == "/" {
      AbsoluteAgain(fallback, fallback);
    } else {
      HttpPathFixed(value, fallback);
    }
  }

  lemma ServerlessFixed(s: Serverless)
    requires NormalizeServerless(s).Some?
    ensures var n := NormalizeServerless(s).value;
            NormalizeServerless(n) == Some(n) <==> !n.enabled || StableFramework(n.framework)
  {
    var n := NormalizeServerless(s).value;
    if n.enabled {
      CanonicalIsFixed(n.requestID);
      FrameworkFixed(s.framework);
    } else {
      TrimmedIsFixed("");
    }
  }

  lemma FrameworkFixed(f: Framework)
    requires NormalizeFramework(f).Some?
    ensures var n := NormalizeFramework(f).value; NormalizeFramework(n) == Some(n) <==> StableFramework(n)
  {
    SocketPathFixed(f.socketPath);
    DefaultsAreClean();
    HttpPathAgain(f.invokePath, INVOKE_PATH);
    HttpPathAgain(f.healthPath, HEALTH_PATH);
  }

  // ------------------------------------------------------------------------ mounts

  function FixMount(m: Mount): Option<Mount> {
    var name, p := Canonical(m.name), TrimSpace(m.path);
    if name == "" || !IsDNS1123Subdomain(name) || !IsAbs(p) || Clean(p) == "/" then None
    else Some(Mount(name, Clean(p), m.readOnly))
  }

  predicate SameMount(a: Mount, b: Mount) { a.name == b.name || a.path == b.path }

  function MountName(m: Mount): string { m.name }

  /** NormalizeGPUUnitStorageMounts.  Names are distinct, so sorting by name is enough. */
  function NormalizeMounts(mounts: seq<Mount>): Option<seq<Mount>> {
    var checked := CheckAll(mounts, FixMount, SameMount);
    if checked.None? then None else Some(SortOn(checked.value, MountName))
  }

  predicate MountNamed(mounts: seq<Mount>, name: string) {
    exists j :: 0 <= j < |mounts| && mounts[j].name == name
  }

  predicate MountAt(mounts: seq<Mount>, path: string) {
    exists j :: 0 <= j < |mounts| && mounts[j].path == path
  }

  lemma MountStep(mounts: seq<Mount>, i: nat, out: seq<Mount>)
    requires i < |mounts| && CheckAll(mounts[..i], FixMount, SameMount) == Some(out)
    ensures var fixed := FixMount(mounts[i]);
            if fixed.None? || MountNamed(out, fixed.value.name) || MountAt(out, fixed.value.path) then NormalizeMounts(mounts).None?
            else CheckAll(mounts[..i + 1], FixMount, SameMount) == Some(out + [fixed.value])
  {
    CheckStep(mounts, i, out, FixMount, SameMount);
    var fixed := FixMount(mounts[i]);
    if fixed.Some? {
      assert ClashesWith(out, fixed.value, SameMount) <==> MountNamed(out, fixed.value.name) || MountAt(out, fixed.value.path);
    }
    if CheckAll(mounts[..i + 1], FixMount, SameMount).None? {
      RefusedPrefix(mounts, i + 1, FixMount, SameMount);
    }
  }

  lemma MoreMounts(out: seq<Mount>, m: Mount)
    ensures forall n :: MountNamed(out + [m], n) <==> MountNamed(out, n) || n == m.name
    ensures forall p :: MountAt(out + [m], p) <==> MountAt(out, p) || p == m.path
  {
    assert (out + [m])[|out|] == m;
    forall n ensures MountNamed(out + [m], n) <==> MountNamed(out, n) || n == m.name {
      if MountNamed(out, n) {
        var j :| 0 <= j < |out| && out[j].name == n;
        assert (out + [m])[j].name == n;
      }
    }
    forall p ensures MountAt(out + [m], p) <==> MountAt(out, p) || p == m.path {
      if MountAt(out, p) {
        var j :| 0 <= j < |out| && out[j].path == p;
        assert (out + [m])[j].path == p;
      }
    }
  }

  method NormalizeStorageMounts(mounts: seq<Mount>) returns (r: Option<seq<Mount>>)
    ensures r == NormalizeMounts(mounts)
  {
    var out: seq<Mount> := [];
    var seenNames: set<string> := {};
    var seenPaths: set<string> := {};
    for i := 0 to |mounts|
      invariant CheckAll(mounts[..i], FixMount, SameMount) == Some(out)
      invariant forall n :: n in seenNames <==> MountNamed(out, n)
      invariant forall p :: p in seenPaths <==> MountAt(out, p)
    {
      MountStep(mounts, i, out);
      var fixed := FixMount(mounts[i]);
      if fixed.None? || fixed.value.name in seenNames || fixed.value.path in seenPaths {
        return None;
      }
      MoreMounts(out, fixed.value);
      seenNames, seenPaths := seenNames + {fixed.value.name}, seenPaths + {fixed.value.path};
      out := out + [fixed.value];
    }
    assert mounts[..|mounts|] == mounts;
    return Some(SortOn(out, MountName));
  }

  lemma MountsShape(mounts: seq<Mount>)
    requires NormalizeMounts(mounts).Some?
    ensures var n := NormalizeMounts(mounts).value;
            && NoClash(n, SameMount) && SortedBy(n, MountName) && KeysDistinct(n, MountName)
            && forall x :: x in n ==> exists i :: 0 <= i < |mounts| && FixMount(mounts[i]) == Some(x)
  {
    CheckAllResult(mounts, FixMount, SameMount);
    var r := CheckAll(mounts, FixMount, SameMount).value;
    SortNoClash(r, MountName, SameMount);
    var n := SortOn(r, MountName);
    MembersOf(r, n);
    forall i, j | 0 <= i < j < |n| ensures MountName(n[i]) != MountName(n[j]) {
      assert !SameMount(n[i], n[j]);
    }
    forall x | x in n ensures exists i :: 0 <= i < |mounts| && FixMount(mounts[i]) == Some(x) {
      assert x in r;
      var i :| 0 <= i < |r| && r[i] == x;
      assert FixMount(mounts[i]) == Some(x);
    }
  }

  /** One normalised mount is a fixed point exactly when its path is trimmed. */
  lemma MountFixed(m: Mount)
    requires FixMount(m).Some?
    ensures var x := FixMount(m).value; FixMount(x) == Some(x) <==> Trimmed(x.path)
  {
    var x := FixMount(m).value;
    CanonicalIsFixed(x.name);
    CleanIsIdempotent(TrimSpace(m.path));
    if Trimmed(x.path) {
      TrimmedIsFixed(x.path);
    } else {
      assert !IsSpace('/') && TrimLeft(x.path) == x.path && x.path[0] in x.path;
      TrimKeeps(x.path, '/');
      assert TrimSpace(x.path) <= x.path && TrimSpace(x.path) != x.path;
      CleanNotLonger(TrimSpace(x.path));
    }
  }

  lemma MountsFixed(mounts: seq<Mount>)
    requires NormalizeMounts(mounts).Some?
    ensures var n := NormalizeMounts(mounts).value;
            NormalizeMounts(n) == Some(n) <==> forall x :: x in n ==> Trimmed(x.path)
  {
    var n := NormalizeMounts(mounts).value;
    MountsShape(mounts);
    forall x | x in n ensures FixMount(x) == Some(x) <==> Trimmed(x.path) {
      var i :| 0 <= i < |mounts| && FixMount(mounts[i]) == Some(x);
      MountFixed(mounts[i]);
    }
    if forall x :: x in n ==> Trimmed(x.path) {
      CheckAllFixed(n, FixMount, SameMount);
      SortedUnique(n, SortOn(n, MountName), MountName);
    } else if NormalizeMounts(n) == Some(n) {
      ReturnedMountsFixed(n);
    }
  }

  /** A list that normalises to itself consists of mounts that do. */
  lemma ReturnedMountsFixed(n: seq<Mount>)
    requires NormalizeMounts(n) == Some(n)
    ensures forall x :: x in n ==> FixMount(x) == Some(x)
  {
    var r := CheckAll(n, FixMount, SameMount).value;
    CheckAllResult(n, FixMount, SameMount);
    MembersOf(r, n);
    MountsShape(n);
    forall i: nat | i < |n| ensures FixMount(n[i]) == Some(n[i]) {
      assert FixMount(n[i]) == Some(r[i]) && r[i] in r;
      SameNameAfterFix(n, i);
      OnlyOneOfThatName(n, i, r[i]);
    }
  }

  lemma OnlyOneOfThatName(n: seq<Mount>, i: nat, x: Mount)
    requires i < |n| && x in n && KeysDistinct(n, MountName) && x.name == n[i].name
    ensures x == n[i]
  {
    var j: nat :| j < |n| && n[j] == x;
    DistinctMounts(n, i, j);
  }

  lemma DistinctMounts(n: seq<Mount>, i: nat, j: nat)
    requires i < |n| && j < |n| && KeysDistinct(n, MountName) && n[i].name == n[j].name
    ensures i == j
  {
    assert i < j ==> MountName(n[i]) != MountName(n[j]);
    assert j < i ==> MountName(n[j]) != MountName(n[i]);
  }

  lemma SameNameAfterFix(n: seq<Mount>, i: nat)
    requires i < |n| && NormalizeMounts(n) == Some(n) && FixMount(n[i]).Some?
    ensures FixMount(n[i]).value.name == n[i].name
  {
    MountsShape(n);
    assert n[i] in n;
    var k :| 0 <= k < |n| && FixMount(n[k]) == Some(n[i]);
    CanonicalIsFixed(n[i].name);
  }

  // -------------------------------------------------------------------- allocation

  /** NormalizeDRAAllocation. */
  function NormalizeAllocation(quantity: Quantity, unitName: string, a: Allocation): Option<Allocation> {
    var class_, claim, request := TrimSpace(a.deviceClass), TrimSpace(a.claimName), TrimSpace(a.claimRequest);
    if class_ == "" || a.count <= 0 then None
    else if exists k :: k in a.capacity && (TrimSpace(k) == "" || quantity(a.capacity[k]).None?) then None
    else if exists i :: 0 <= i < |a.selectors| && TrimSpace(a.selectors[i]) == "" then None
    else
      Some(a.(deviceClass := class_, claimName := if claim == "" then "unit-" + (unitName + "-gpu") else claim,
              claimRequest := if request == "" then CLAIM_REQUEST else request))
  }

  lemma DefaultClaimTrimmed(unitName: string)
    ensures Trimmed("unit-" + (unitName + "-gpu")) && "unit-" + (unitName + "-gpu") != ""
  {
    var s := "unit-" + (unitName + "-gpu");
    assert s[0] == 'u' && s[|s| - 1] == 'u';
  }

  lemma AllocationAgain(quantity: Quantity, unitName: string, a: Allocation)
    requires NormalizeAllocation(quantity, unitName, a).Some?
    ensures var n := NormalizeAllocation(quantity, unitName, a).value; NormalizeAllocation(quantity, unitName, n) == Some(n)
    ensures NormalizeAllocation(quantity, unitName, a).value.deviceClass != ""
  {
    var n := NormalizeAllocation(quantity, unitName, a).value;
    DefaultClaimTrimmed(unitName);
    TrimmedIsFixed(n.deviceClass);
    TrimmedIsFixed(n.claimName);
    TrimmedIsFixed(n.claimRequest);
  }

  // ---------------------------------------------------------------------- packages

  predicate Overrides(got: string, want: string) {
    TrimSpace(got) != "" && TrimSpace(got) != want
  }

  /** ExpandRuntimePackage. */
  function Expand(req: Request, catalog: seq<Package>): Option<Request> {
    var found := Catalog.Lookup(catalog, req.packageID);
    if found.None? then None
    else
      var p := found.value;
      if Overrides(req.specName, p.specName) || Overrides(req.cpu, p.cpu) || Overrides(req.memory, p.memory)
         || (req.gpu != 0 && req.gpu != p.gpu)
      then None
      else Some(req.(packageID := p.id, specName := p.specName, cpu := p.cpu, memory := p.memory, gpu := p.gpu,
                     allocation := p.allocation))
  }

  /** The part of the normaliser up to the package expansion. */
  function Identify(catalog: seq<Package>, req: Request): Option<Request> {
    var operationID, name, packageID := TrimSpace(req.operationID), Canonical(req.name), Canonical(req.packageID);
    var r := req.(operationID := operationID, name := name, packageID := packageID);
    if operationID == "" || name == "" || !IsDNS1123Subdomain(name) then None
    else if packageID != "" && (Catalog.Lookup(catalog, packageID).Some? || TrimSpace(req.allocation.deviceClass) == "")
    then Expand(r, catalog)
    else if packageID == "" && TrimSpace(req.allocation.deviceClass) == "" then None
    else Some(r)
  }

  predicate QuantityOrEmpty(quantity: Quantity, s: string) {
    s == "" || quantity(s).Some?
  }

  /** The resources, from specName to the allocation. */
  function Resources(quantity: Quantity, req: Request): Option<Request> {
    var r := req.(specName := TrimSpace(req.specName), image := TrimSpace(req.image), cpu := TrimSpace(req.cpu),
                  memory := TrimSpace(req.memory));
    if r.specName == "" || r.image == "" || !QuantityOrEmpty(quantity, r.cpu) || !QuantityOrEmpty(quantity, r.memory) || r.gpu < 0
    then None
    else
      var a := NormalizeAllocation(quantity, r.name, r.allocation);
      if a.None? || r.cpu == "" || r.memory == "" || r.gpu <= 0 then None else Some(r.(allocation := a.value))
  }

  /** The contracts of the running unit, from the template to the mounts. */
  function Contracts(lib: Library, req: Request): Option<Request> {
    var template := NormalizeTemplate(lib, req.template);
    if template.None? then None
    else
      var access := NormalizeAccess(req.access, template.value.ports);
      var ssh := SSH.Normalize(req.name, NAMESPACE, req.ssh);
      var serverless := NormalizeServerless(req.serverless);
      var mounts := NormalizeMounts(req.mounts);
      if access.None? || ssh.Err? || serverless.None? || mounts.None? then None
      else Some(req.(template := template.value, access := access.value, ssh := ssh.value, serverless := serverless.value,
                     mounts := mounts.value))
  }

  /** NormalizeCreateGPUUnitRequestWithCatalog. */
  function NormalizeCreate(lib: Library, catalog: seq<Package>, req: Request): Option<Request> {
    var identified := Identify(catalog, req);
    if identified.None? then None
    else
      var resourced := Resources(lib.quantity, identified.value);
      if resourced.None? then None else Contracts(lib, resourced.value)
  }

  // ------------------------------------------------------------------- main result

  predicate StablePaths(n: Request) {
    && (forall m :: m in n.mounts ==> Trimmed(m.path))
    && (n.serverless.enabled ==> StableFramework(n.serverless.framework))
  }

  lemma ContractsFixed(lib: Library, req: Request)
    requires Contracts(lib, req).Some?
    ensures var n := Contracts(lib, req).value; Contracts(lib, n) == Some(n) <==> StablePaths(n)
  {
    var n := Contracts(lib, req).value;
    TemplateFixed(lib, req.template);
    CheckAllResult(req.template.ports, (p: Port) => FixPort(lib, p), SamePort);
    AccessFixed(req.access, n.template.ports);
    SSH.NormalizeIsIdempotent(req.name, NAMESPACE, req.ssh);
    ServerlessFixed(req.serverless);
    MountsFixed(req.mounts);
  }

  lemma ResourcesFixed(quantity: Quantity, req: Request)
    requires Resources(quantity, req).Some?
    ensures var n := Resources(quantity, req).value; Resources(quantity, n) == Some(n) && n.allocation.deviceClass != ""
  {
    var n := Resources(quantity, req).value;
    AllocationAgain(quantity, req.name, req.allocation);
    TrimmedIsFixed(n.specName);
    TrimmedIsFixed(n.image);
    TrimmedIsFixed(n.cpu);
    TrimmedIsFixed(n.memory);
  }

  /** A request that was accepted: what its identity part looks like. */
  ghost predicate Identified(catalog: seq<Package>, n: Request) {
    && n.operationID != "" && Trimmed(n.operationID)
    && IsDNS1123Subdomain(n.name)
    && Canonical(n.packageID) == n.packageID
    && var found := Catalog.Lookup(catalog, n.packageID);
       n.packageID != "" && found.Some? ==>
         n.specName == found.value.specName && n.cpu == found.value.cpu && n.memory == found.value.memory && n.gpu == found.value.gpu
  }

  lemma IdentifyResult(quantity: Quantity, catalog: seq<Package>, req: Request)
    requires NormalCatalog(quantity, catalog) && Identify(catalog, req).Some?
    ensures var i := Identify(catalog, req).value;
            && Identified(catalog, i)
            && (i.packageID != "" && Catalog.Lookup(catalog, i.packageID).Some? ==>
                  i.allocation == Catalog.Lookup(catalog, i.packageID).value.allocation)
            && (i.packageID == "" || Catalog.Lookup(catalog, i.packageID).None? ==> i.allocation == req.allocation)
  {
    var packageID := Canonical(req.packageID);
    CanonicalIsFixed(packageID);
    LookupMember(catalog, packageID);
    if Catalog.Lookup(catalog, packageID).Some? {
      var p := Catalog.Lookup(catalog, packageID).value;
      assert NormalizePackage(quantity, p) == Some(p);
      CanonicalIsFixed(p.id);
    }
  }

  /** The identity part run again on the finished request. */
  lemma IdentifyAgain(quantity: Quantity, catalog: seq<Package>, n: Request)
    requires NormalCatalog(quantity, catalog) && Identified(catalog, n) && n.allocation.deviceClass != "" && Trimmed(n.allocation.deviceClass)
    ensures var found := Catalog.Lookup(catalog, n.packageID);
            Identify(catalog, n) ==
            Some(if n.packageID != "" && found.Some? then n.(allocation := found.value.allocation) else n)
  {
    TrimmedIsFixed(n.operationID);
    SubdomainIsCanonical(n.name);
    TrimmedIsFixed(n.allocation.deviceClass);
    LookupMember(catalog, n.packageID);
    if n.packageID != "" && Catalog.Lookup(catalog, n.packageID).Some? {
      var p := Catalog.Lookup(catalog, n.packageID).value;
      assert NormalizePackage(quantity, p) == Some(p);
      TrimmedIsFixed(p.specName);
      TrimmedIsFixed(p.cpu);
      TrimmedIsFixed(p.memory);
    }
  }

  lemma ResourcesOnAllocation(quantity: Quantity, i: Request, n: Request)
    requires Resources(quantity, i).Some?
    requires n.name == i.name && n.gpu == i.gpu
    requires n.specName == TrimSpace(i.specName) && n.image == TrimSpace(i.image) && n.cpu == TrimSpace(i.cpu) && n.memory == TrimSpace(i.memory)
    ensures Resources(quantity, n.(allocation := i.allocation)) == Some(n.(allocation := Resources(quantity, i).value.allocation))
  {
    TrimmedIsFixed(n.specName);
    TrimmedIsFixed(n.image);
    TrimmedIsFixed(n.cpu);
    TrimmedIsFixed(n.memory);
  }

  /** The first two parts run again on the finished request reproduce it. */
  lemma FrontAgain(lib: Library, catalog: seq<Package>, req: Request)
    requires NormalCatalog(lib.quantity, catalog) && NormalizeCreate(lib, catalog, req).Some?
    ensures var n := NormalizeCreate(lib, catalog, req).value;
            && Identify(catalog, n).Some?
            && Resources(lib.quantity, Identify(catalog, n).value) == Some(n)
  {
    var i := Identify(catalog, req).value;
    var r := Resources(lib.quantity, i).value;
    IdentifyResult(lib.quantity, catalog, req);
    PackageTexts(lib.quantity, catalog, i);
    ResourcesAgain(lib.quantity, catalog, i, NormalizeCreate(lib, catalog, req).value);
  }

  /** n differs from what Resources returned only in the contracts. */
  lemma ResourcesAgain(quantity: Quantity, catalog: seq<Package>, i: Request, n: Request)
    requires NormalCatalog(quantity, catalog) && Resources(quantity, i).Some? && Identified(catalog, Resources(quantity, i).value)
    requires n == Resources(quantity, i).value.(template := n.template, access := n.access, ssh := n.ssh,
                                                serverless := n.serverless, mounts := n.mounts)
    requires i.packageID != "" && Catalog.Lookup(catalog, i.packageID).Some? ==>
               i.allocation == Catalog.Lookup(catalog, i.packageID).value.allocation
    ensures Identify(catalog, n).Some? && Resources(quantity, Identify(catalog, n).value) == Some(n)
  {
    var r := Resources(quantity, i).value;
    ResourcesFixed(quantity, i);
    assert Trimmed(n.allocation.deviceClass);
    IdentifyAgain(quantity, catalog, n);
    if n.packageID != "" && Catalog.Lookup(catalog, n.packageID).Some? {
      ResourcesOnAllocation(quantity, i, n);
    } else {
      TrimmedIsFixed(r.specName);
      TrimmedIsFixed(r.image);
      TrimmedIsFixed(r.cpu);
      TrimmedIsFixed(r.memory);
      ResourcesOnAllocation(quantity, r, n);
    }
  }

  /** Trimming does not change what came from a package. */
  lemma PackageTexts(quantity: Quantity, catalog: seq<Package>, i: Request)
    requires NormalCatalog(quantity, catalog) && Identified(catalog, i) && Resources(quantity, i).Some?
    ensures Identified(catalog, Resources(quantity, i).value)
  {
    LookupMember(catalog, i.packageID);
    if i.packageID != "" && Catalog.Lookup(catalog, i.packageID).Some? {
      var p := Catalog.Lookup(catalog, i.packageID).value;
      assert NormalizePackage(quantity, p) == Some(p);
      TrimmedIsFixed(p.specName);
      TrimmedIsFixed(p.cpu);
      TrimmedIsFixed(p.memory);
    }
  }

  /** With a normalised catalogue, normalising an accepted create request again gives the
      same request exactly when its normalised mount paths are trimmed and its framework
      paths are trimmed and not the root. */
  lemma NormalizeTwice(lib: Library, catalog: seq<Package>, req: Request)
    requires NormalCatalog(lib.quantity, catalog) && NormalizeCreate(lib, catalog, req).Some?
    ensures var n := NormalizeCreate(lib, catalog, req).value;
            NormalizeCreate(lib, catalog, n) == Some(n) <==> StablePaths(n)
  {
    var n := NormalizeCreate(lib, catalog, req).value;
    FrontAgain(lib, catalog, req);
    ContractsFixed(lib, Resources(lib.quantity, Identify(catalog, req).value).value);
  }

  predicate NoInnerSpace(p: string) {
    forall c :: c in TrimSpace(p) ==> !IsSpace(c)
  }

  /** In particular it does so for every accepted request that leaves the framework paths
      empty and has no white space inside its mount paths. */
  lemma PlainRequestsAreFixed(lib: Library, catalog: seq<Package>, req: Request)
    requires NormalCatalog(lib.quantity, catalog) && NormalizeCreate(lib, catalog, req).Some?
    requires req.serverless.framework == Framework("", "", "")
    requires forall i :: 0 <= i < |req.mounts| ==> NoInnerSpace(req.mounts[i].path)
    ensures var n := NormalizeCreate(lib, catalog, req).value; NormalizeCreate(lib, catalog, n) == Some(n)
  {
    NormalizeTwice(lib, catalog, req);
    FinishedParts(lib, catalog, req);
    PlainMounts(req.mounts);
    PlainServerless(req.serverless);
  }

  /** The mounts and the serverless contract of the result come from those of the request. */
  lemma FinishedParts(lib: Library, catalog: seq<Package>, req: Request)
    requires NormalizeCreate(lib, catalog, req).Some?
    ensures var n := NormalizeCreate(lib, catalog, req).value;
            NormalizeMounts(req.mounts) == Some(n.mounts) && NormalizeServerless(req.serverless) == Some(n.serverless)
  {
    var i := Identify(catalog, req).value;
    assert i.mounts == req.mounts && i.serverless == req.serverless;
    var r := Resources(lib.quantity, i).value;
    assert r.mounts == i.mounts && r.serverless == i.serverless;
  }

  lemma PlainMounts(mounts: seq<Mount>)
    requires NormalizeMounts(mounts).Some? && forall i :: 0 <= i < |mounts| ==> NoInnerSpace(mounts[i].path)
    ensures forall m :: m in NormalizeMounts(mounts).value ==> Trimmed(m.path)
  {
    MountsShape(mounts);
    forall m | m in NormalizeMounts(mounts).value ensures Trimmed(m.path) {
      var i :| 0 <= i < |mounts| && FixMount(mounts[i]) == Some(m);
      CleanTrimmed(TrimSpace(mounts[i].path));
    }
  }

  lemma PlainServerless(s: Serverless)
    requires NormalizeServerless(s).Some? && s.framework == Framework("", "", "")
    ensures var n := NormalizeServerless(s).value; n.enabled ==> StableFramework(n.framework)
  {
    DefaultsAreClean();
    TrimmedIsFixed("");
  }

  // ------------------------------------------------------ what acceptance guarantees

  /** A request that names a configured package gets the package's resources and devices,
      whatever it says itself: what it says must be absent or agree, and the claim name is
      generated from the unit's name. */
  lemma PackageDecides(lib: Library, catalog: seq<Package>, req: Request)
    requires NormalCatalog(lib.quantity, catalog) && NormalizeCreate(lib, catalog, req).Some?
    requires Canonical(req.packageID) != "" && Catalog.Lookup(catalog, req.packageID).Some?
    ensures var n := NormalizeCreate(lib, catalog, req).value;
            var p := Catalog.Lookup(catalog, req.packageID).value;
            && n.packageID == p.id && n.specName == p.specName && n.cpu == p.cpu && n.memory == p.memory && n.gpu == p.gpu
            && n.allocation == p.allocation.(claimName := "unit-" + (n.name + "-gpu"))
            && !Overrides(req.specName, p.specName) && !Overrides(req.cpu, p.cpu) && !Overrides(req.memory, p.memory)
            && (req.gpu == 0 || req.gpu == p.gpu)
  {
    var p := Catalog.Lookup(catalog, req.packageID).value;
    IdentifyPackage(lib.quantity, catalog, req);
    PackageResources(lib.quantity, Identify(catalog, req).value, p);
  }

  lemma IdentifyPackage(quantity: Quantity, catalog: seq<Package>, req: Request)
    requires NormalCatalog(quantity, catalog) && Identify(catalog, req).Some?
    requires Canonical(req.packageID) != "" && Catalog.Lookup(catalog, req.packageID).Some?
    ensures var i := Identify(catalog, req).value;
            var p := Catalog.Lookup(catalog, req.packageID).value;
            && NormalizePackage(quantity, p) == Some(p)
            && i.packageID == p.id && i.specName == p.specName && i.cpu == p.cpu && i.memory == p.memory && i.gpu == p.gpu
            && i.allocation == p.allocation
            && !Overrides(req.specName, p.specName) && !Overrides(req.cpu, p.cpu) && !Overrides(req.memory, p.memory)
            && (req.gpu == 0 || req.gpu == p.gpu)
  {
    LookupMember(catalog, req.packageID);
    SameLookup(catalog, req.packageID);
  }

  lemma PackageResources(quantity: Quantity, i: Request, p: Package)
    requires Resources(quantity, i).Some? && NormalizePackage(quantity, p) == Some(p)
    requires i.specName == p.specName && i.cpu == p.cpu && i.memory == p.memory && i.allocation == p.allocation
    ensures var r := Resources(quantity, i).value;
            && r.specName == p.specName && r.cpu == p.cpu && r.memory == p.memory
            && r.allocation == p.allocation.(claimName := "unit-" + (i.name + "-gpu"))
  {
    NormalPackageParts(quantity, p);
    PackageAllocationStays(quantity, p.allocation, i.name);
    TrimmedIsFixed(p.specName);
    TrimmedIsFixed(p.cpu);
    TrimmedIsFixed(p.memory);
  }

  lemma NormalPackageParts(quantity: Quantity, p: Package)
    requires NormalizePackage(quantity, p) == Some(p)
    ensures Trimmed(p.specName) && Trimmed(p.cpu) && Trimmed(p.memory)
    ensures PackageAllocation(quantity, p.allocation) == Some(p.allocation)
  {
    AllocationFixed(quantity, Virtual(quantity, p.virtualGPU, p.allocation).value.1);
  }

  lemma {:induction false} SameLookup(c: seq<Package>, id: string)
    ensures Catalog.Lookup(c, Canonical(id)) == Catalog.Lookup(c, id)
  {
    CanonicalIsFixed(Canonical(id));
    if c != [] {
      SameLookup(c[1..], id);
    }
  }

  lemma PackageAllocationStays(quantity: Quantity, a: Allocation, unitName: string)
    requires PackageAllocation(quantity, a) == Some(a)
    ensures NormalizeAllocation(quantity, unitName, a).Some? ==>
              NormalizeAllocation(quantity, unitName, a).value == a.(claimName := "unit-" + (unitName + "-gpu"))
  {
    TrimmedIsFixed(a.deviceClass);
    TrimmedIsFixed("");
    TrimmedIsFixed(a.claimRequest);
  }

  /** What holds of every accepted request. */
  lemma AcceptedRequest(lib: Library, catalog: seq<Package>, req: Request)
    requires NormalizeCreate(lib, catalog, req).Some?
    ensures var n := NormalizeCreate(lib, catalog, req).value;
            && n.operationID == TrimSpace(req.operationID) && n.operationID != ""
            && n.name == Canonical(req.name) && IsDNS1123Subdomain(n.name)
            && n.image == TrimSpace(req.image) && n.image != ""
            && n.gpu > 0 && lib.quantity(n.cpu).Some? && lib.quantity(n.memory).Some?
            && n.allocation.deviceClass != "" && n.allocation.claimName != "" && n.allocation.count > 0
            && |n.template.envs| == |req.template.envs| && |n.template.ports| == |req.template.ports|
            && (n.template.ports == [] || NamesPort(n.template.ports, n.access.primaryPort))
            && n.ssh.enabled == req.ssh.enabled
            && NoClash(n.mounts, SameMount) && |n.mounts| == |req.mounts|
  {
    var i := Identify(catalog, req).value;
    var r := Resources(lib.quantity, i).value;
    AcceptedIdentity(catalog, req);
    AcceptedContracts(lib, r);
    DefaultClaimTrimmed(i.name);
  }

  lemma AcceptedIdentity(catalog: seq<Package>, req: Request)
    requires Identify(catalog, req).Some?
    ensures var i := Identify(catalog, req).value;
            && i.operationID == TrimSpace(req.operationID) && i.operationID != ""
            && i.name == Canonical(req.name) && IsDNS1123Subdomain(i.name) && i.image == req.image
            && i.template == req.template && i.ssh == req.ssh && i.mounts == req.mounts
  {
  }

  lemma AcceptedContracts(lib: Library, req: Request)
    requires Contracts(lib, req).Some?
    ensures var n := Contracts(lib, req).value;
            && |n.template.envs| == |req.template.envs| && |n.template.ports| == |req.template.ports|
            && (n.template.ports == [] || NamesPort(n.template.ports, n.access.primaryPort))
            && n.ssh.enabled == req.ssh.enabled
            && NoClash(n.mounts, SameMount) && |n.mounts| == |req.mounts|
  {
    CheckAllResult(req.template.envs, (e: Env) => FixEnv(lib, e), SameEnv);
    CheckAllResult(req.template.ports, (p: Port) => FixPort(lib, p), SamePort);
    CheckAllResult(req.mounts, FixMount, SameMount);
    MountsShape(req.mounts);
  }
}
