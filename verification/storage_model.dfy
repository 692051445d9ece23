/** The objects the storage controller reads and writes (api/v1alpha1/gpustorage_types.go,
    internal/controller/storage_runtime_helpers.go and storage_status_helpers.go): the
    desired objects, how existing ones are brought in line, and how status is computed. */
module StorageModel {
  import opened Text
  import opened Names

  // ------------------------------------------------------------------- objects

  datatype PrepareSpec = PrepareSpec(fromImage: string, fromStorageName: string, command: seq<string>, args: seq<string>)

  datatype StorageSpec = StorageSpec(size: string, storageClassName: string, prepare: PrepareSpec, accessorEnabled: bool)

  datatype PreparePhase = PrepareUnset | NotRequested | PreparePending | PrepareRunning | PrepareSucceeded | PrepareFailed

  datatype RecoveryPhase = RecoveryUnset | RecoveryNone | RecoveryRequired | RecoveryRunning | RecoverySucceeded

  datatype AccessorPhase = AccessorUnset | AccessorDisabled | AccessorPending | AccessorReady | AccessorFailed

  datatype StoragePhase = PhaseUnset | PhasePending | PhaseReady | PhaseFailed

  datatype PrepareStatus = PrepareStatus(phase: PreparePhase, jobName: string, observedDigest: string, recovery: RecoveryPhase)

  datatype AccessorStatus = AccessorStatus(phase: AccessorPhase, serviceName: string, accessURL: string)

  datatype ConditionType = ConditionReady | ConditionPrepared | ConditionAccessorReady

  datatype Decision = Decision(status: bool, reason: string, message: string)

  datatype Condition = Condition(kind: ConditionType, generation: int, decision: Decision, lastTransition: nat)

  datatype Status = Status(
    claimName: string, capacity: string, phase: StoragePhase, prepare: PrepareStatus, accessor: AccessorStatus,
    observedGeneration: int, lastSync: nat, conditions: seq<Condition>)

  datatype Storage = Storage(name: string, spec: StorageSpec, recoveryNonce: string, generation: int, status: Status)

  datatype Claim = Claim(
    labels: map<string, string>, accessModes: seq<string>, request: Option<int>, storageClass: Option<string>,
    bound: bool, capacity: Option<string>)

  datatype JobSpec = JobSpec(image: string, command: seq<string>, args: seq<string>, target: string, source: Option<string>)

  datatype Job = Job(spec: JobSpec, succeeded: nat, failed: nat, active: nat, failureMessage: string)

  datatype Service = Service(labels: map<string, string>, clusterIP: bool, ports: seq<int>, selector: map<string, string>)

  datatype PodSpec = PodSpec(image: string, proxyPath: string, claimName: string)

  datatype Deployment = Deployment(
    labels: map<string, string>, replicas: Option<int>, selector: map<string, string>,
    templateLabels: map<string, string>, pod: PodSpec, available: nat)

  /** Library code: quantity parsing, and the 12 hexadecimal digits of the digest over the
      prepare specification and the recovery nonce. */
  datatype Library = Library(quantity: string -> Option<int>, digest: (PrepareSpec, string) -> string)

  const NAMESPACE := "runtime-instance"
  const DEFAULT_STORAGE_CLASS := "rook-ceph-block"
  const COPY_IMAGE := "busybox:1.36"
  const ACCESSOR_IMAGE := "sigoden/dufs:latest"
  const ACCESSOR_PORT := 5000

  const REASON_READY := "StorageReady"
  const REASON_PENDING := "StoragePending"
  const REASON_PVC_SYNC_FAILED := "StoragePVCSyncFailed"
  const REASON_INVALID_SPEC := "StorageInvalidSpec"
  const REASON_PREPARE_PENDING := "StoragePreparePending"
  const REASON_PREPARE_RUNNING := "StoragePrepareRunning"
  const REASON_PREPARE_READY := "StoragePrepareReady"
  const REASON_PREPARE_FAILED := "StoragePrepareFailed"
  const REASON_ACCESSOR_PENDING := "StorageAccessorPending"
  const REASON_ACCESSOR_READY := "StorageAccessorReady"
  const REASON_ACCESSOR_FAILED := "StorageAccessorFailed"
  const MESSAGE_READY := "Persistent storage is ready."
  const MESSAGE_PENDING := "Waiting for the persistent volume claim to bind."
  const MESSAGE_PREPARED := "Persistent storage content is ready."
  const MESSAGE_PREPARE_PENDING := "Waiting for storage data preparation to start."
  const MESSAGE_PREPARE_RUNNING := "Storage data preparation is running."
  const MESSAGE_PREPARE_FAILED := "Storage data preparation failed and requires recovery."
  const MESSAGE_ACCESSOR_DISABLED := "Storage accessor is disabled."
  const MESSAGE_ACCESSOR_PENDING := "Waiting for the storage accessor to become ready."
  const MESSAGE_ACCESSOR_READY := "Storage accessor is ready."

  // ------------------------------------------------------------ desired objects

  function OwnedLabels(name: string): map<string, string> {
    map["app.kubernetes.io/name" := "gpu-runtime-unit",
        "app.kubernetes.io/managed-by" := "gpu-runtime-operator",
        "runtime.lokiwager.io/storage" := name]
  }

  function AccessorSelector(name: string): map<string, string> {
    map["runtime.lokiwager.io/storage-accessor" := name]
  }

  function DesiredClaim(lib: Library, st: Storage): Option<Claim> {
    var q := lib.quantity(st.spec.size);
    if q.None? then None
    else
      var class_ := if st.spec.storageClassName == "" then DEFAULT_STORAGE_CLASS else st.spec.storageClassName;
      Some(Claim(OwnedLabels(st.name), ["ReadWriteOnce"], q, Some(class_), false, None))
  }

  function JobName(name: string, digest: string): string {
    Clamp("storage-prepare-" + (name + ("-" + digest)), 63)
  }

  function AccessorName(name: string): string {
    Clamp("storage-accessor-" + name, 63)
  }

  function ProxyPath(name: string): string {
    "/storage/" + (NAMESPACE + ("/" + name))
  }

  function AccessURL(name: string): string {
    "http://" + (AccessorName(name) + ("." + (NAMESPACE + (".svc.cluster.local:5000" + (ProxyPath(name) + "/")))))
  }

  function DesiredJob(st: Storage, target: string, source: string): Job {
    var p := st.spec.prepare;
    Job(if p.fromStorageName != "" then JobSpec(COPY_IMAGE, ["sh", "-c"], ["copy"], target, Some(source))
        else JobSpec(p.fromImage, p.command, p.args, target, None),
        0, 0, 0, "")
  }

  function DesiredService(name: string): Service {
    Service(OwnedLabels(name) + AccessorSelector(name), true, [ACCESSOR_PORT], AccessorSelector(name))
  }

  function DesiredDeployment(name: string, claimName: string): Deployment {
    var labels := OwnedLabels(name) + AccessorSelector(name);
    Deployment(labels, Some(1), AccessorSelector(name), labels, PodSpec(ACCESSOR_IMAGE, ProxyPath(name), claimName), 0)
  }

  // --------------------------------------------------- bringing objects in line

  function Lookup(m: map<string, string>, k: string): string {
    if k in m then m[k] else ""
  }

  /** ensureStringMapValues: the desired entries are set, every other entry stays. */
  function Merged(current: map<string, string>, desired: map<string, string>): map<string, string> {
    current + (map k | k in desired && Lookup(current, k) != desired[k] :: desired[k])
  }

  /** The loop writes only entries that differ. */
  method EnsureStringMapValues(current: map<string, string>, desired: map<string, string>)
    returns (next: map<string, string>, changed: bool)
    ensures next == Merged(current, desired)
    ensures changed <==> next != current
    ensures forall k :: Lookup(next, k) == if k in desired then desired[k] else Lookup(current, k)
  {
    next, changed := current, false;
    var keys := desired.Keys;
    while keys != {}
      invariant keys <= desired.Keys
      invariant forall k :: k in next <==> k in current || (k in desired && k !in keys && Lookup(current, k) != desired[k])
      invariant forall k :: k in next ==>
                  next[k] == if k in desired && k !in keys && Lookup(current, k) != desired[k] then desired[k] else current[k]
      invariant changed <==> next != current
    {
      var key :| key in keys;
      if Lookup(next, key) != desired[key] {
        next := next[key := desired[key]];
        assert Lookup(next, key) != Lookup(current, key);
        changed := true;
      }
      keys := keys - {key};
    }
    MergedByEntries(current, desired, next);
  }

  lemma MergedByEntries(current: map<string, string>, desired: map<string, string>, next: map<string, string>)
    requires forall k :: k in next <==> k in current || (k in desired && Lookup(current, k) != desired[k])
    requires forall k :: k in next ==> next[k] == if k in desired && Lookup(current, k) != desired[k] then desired[k] else current[k]
    ensures next == Merged(current, desired)
    ensures forall k :: Lookup(next, k) == if k in desired then desired[k] else Lookup(current, k)
  {
  }

  lemma MergedIsFixed(current: map<string, string>, desired: map<string, string>)
    ensures Merged(Merged(current, desired), desired) == Merged(current, desired)
  {
  }

  function SyncClaim(current: Claim, desired: Claim): Claim {
    current.(labels := Merged(current.labels, desired.labels), accessModes := desired.accessModes,
             request := desired.request, storageClass := desired.storageClass)
  }

  function SyncService(current: Service, desired: Service): Service {
    current.(labels := Merged(current.labels, desired.labels), clusterIP := desired.clusterIP,
             ports := desired.ports, selector := desired.selector)
  }

  function SyncDeployment(current: Deployment, desired: Deployment): Deployment {
    current.(labels := Merged(current.labels, desired.labels), replicas := desired.replicas,
             selector := desired.selector, templateLabels := desired.templateLabels, pod := desired.pod)
  }

  // ------------------------------------------------------------------- progress

  datatype PrepareProgress = PrepareProgress(
    phase: PreparePhase, jobName: string, digest: string, recovery: RecoveryPhase,
    reason: string, message: string, ready: bool, changed: bool)

  datatype AccessorProgress = AccessorProgress(
    phase: AccessorPhase, serviceName: string, accessURL: string,
    reason: string, message: string, ready: bool, changed: bool)

  function CountNonEmpty(values: seq<string>): nat {
    if values == [] then 0
    else CountNonEmpty(values[..|values| - 1]) + (if TrimSpace(values[|values| - 1]) != "" then 1 else 0)
  }

  /** validateGPUStoragePrepareSpec: the error message, if any. */
  function PrepareError(name: string, p: PrepareSpec): Option<string> {
    var image := TrimSpace(p.fromImage);
    var source := Canonical(p.fromStorageName);
    var scripted := CountNonEmpty(p.command) > 0 || CountNonEmpty(p.args) > 0;
    if image != "" && source != "" then Some("prepare.fromImage and prepare.fromStorageName are mutually exclusive")
    else if source != "" && !IsDNS1123Subdomain(source) then Some("prepare.fromStorageName is invalid")
    else if source != "" && source == name then Some("prepare.fromStorageName cannot point to the same storage object")
    else if source != "" && scripted then
      Some("prepare.command and prepare.args are not supported with prepare.fromStorageName")
    else if image == "" && scripted then Some("prepare.command and prepare.args require prepare.fromImage")
    else if image != "" && !scripted then
      Some("prepare.command or prepare.args is required when prepare.fromImage is set")
    else None
  }

  predicate IsZeroPrepare(p: PrepareSpec) {
    TrimSpace(p.fromImage) == "" && Canonical(p.fromStorageName) == "" && CountNonEmpty(p.command) == 0 && CountNonEmpty(p.args) == 0
  }

  function RecoveryFor(st: Storage, phase: PreparePhase): RecoveryPhase {
    var requested := TrimSpace(st.recoveryNonce) != "";
    if IsZeroPrepare(st.spec.prepare) then RecoveryNone
    else match phase
      case PrepareFailed => RecoveryRequired
      case PreparePending => if requested then RecoveryRunning else RecoveryNone
      case PrepareRunning => if requested then RecoveryRunning else RecoveryNone
      case PrepareSucceeded => if requested then RecoverySucceeded else RecoveryNone
      case _ => RecoveryNone
  }

  const NOT_REQUESTED_PROGRESS :=
    PrepareProgress(NotRequested, "", "", RecoveryNone, REASON_PREPARE_READY, MESSAGE_PREPARED, true, false)
  const CLAIM_WAITING_PROGRESS :=
    PrepareProgress(PreparePending, "", "", RecoveryNone, REASON_PREPARE_PENDING, MESSAGE_PENDING, false, false)

  function DigestOf(lib: Library, st: Storage): string {
    lib.digest(st.spec.prepare, st.recoveryNonce)
  }

  function JobProgress(lib: Library, st: Storage): PrepareProgress {
    var digest := DigestOf(lib, st);
    PrepareProgress(PreparePending, JobName(st.name, digest), digest, RecoveryNone,
                    REASON_PREPARE_PENDING, MESSAGE_PREPARE_PENDING, false, false)
  }

  function SucceededProgress(st: Storage, p: PrepareProgress): PrepareProgress {
    p.(phase := PrepareSucceeded, reason := REASON_PREPARE_READY, message := MESSAGE_PREPARED, ready := true,
       recovery := RecoveryFor(st, PrepareSucceeded))
  }

  function ProgressFromJob(st: Storage, p: PrepareProgress, job: Job): PrepareProgress {
    if job.succeeded > 0 then SucceededProgress(st, p)
    else if job.failed > 0 then
      p.(phase := PrepareFailed, reason := REASON_PREPARE_FAILED,
         message := FirstNonEmpty(FirstNonEmpty(job.failureMessage, "storage prepare job failed"), MESSAGE_PREPARE_FAILED),
         recovery := RecoveryFor(st, PrepareFailed))
    else if job.active > 0 then
      p.(phase := PrepareRunning, reason := REASON_PREPARE_RUNNING, message := MESSAGE_PREPARE_RUNNING,
         recovery := RecoveryFor(st, PrepareRunning))
    else
      p.(phase := PreparePending, reason := REASON_PREPARE_PENDING, message := MESSAGE_PREPARE_PENDING,
         recovery := RecoveryFor(st, PreparePending))
  }

  function DisabledAccessor(changed: bool): AccessorProgress {
    AccessorProgress(AccessorDisabled, "", "", REASON_ACCESSOR_READY, MESSAGE_ACCESSOR_DISABLED, true, changed)
  }

  function PendingAccessor(changed: bool): AccessorProgress {
    AccessorProgress(AccessorPending, "", "", REASON_ACCESSOR_PENDING, MESSAGE_ACCESSOR_PENDING, false, changed)
  }

  function AccessorFromDeployment(name: string, available: nat, changed: bool): AccessorProgress {
    if available > 0 then
      AccessorProgress(AccessorReady, AccessorName(name), AccessURL(name), REASON_ACCESSOR_READY, MESSAGE_ACCESSOR_READY, true, changed)
    else
      AccessorProgress(AccessorPending, AccessorName(name), AccessURL(name), REASON_ACCESSOR_PENDING,
                       MESSAGE_ACCESSOR_PENDING, false, changed)
  }

  // --------------------------------------------------------------------- status

  datatype ReadyInput = ReadyInput(claimBound: bool, prepare: PrepareProgress, accessor: AccessorProgress, accessorEnabled: bool)

  datatype ReadyDecision = ReadyDecision(phase: StoragePhase, ready: Decision)

  datatype Rule<!I, O> = Rule(matches: I -> bool, build: I -> O)

  /** The first rule that matches decides; without one, the fallback does. */
  function FirstMatch<I, O>(input: I, rules: seq<Rule<I, O>>, fallback: I -> O): O {
    if rules == [] then fallback(input)
    else if rules[0].matches(input) then rules[0].build(input)
    else FirstMatch(input, rules[1..], fallback)
  }

  method ResolveStatusRule<I, O>(input: I, rules: seq<Rule<I, O>>, fallback: I -> O) returns (decision: O)
    ensures decision == FirstMatch(input, rules, fallback)
    ensures (forall j :: 0 <= j < |rules| ==> !rules[j].matches(input)) ==> decision == fallback(input)
    ensures forall j :: 0 <= j < |rules| && rules[j].matches(input) && (forall l :: 0 <= l < j ==> !rules[l].matches(input))
              ==> decision == rules[j].build(input)
  {
    for i := 0 to |rules|
      invariant FirstMatch(input, rules, fallback) == FirstMatch(input, rules[i..], fallback)
      invariant forall j :: 0 <= j < i ==> !rules[j].matches(input)
    {
      if rules[i].matches(input) {
        return rules[i].build(input);
      }
    }
    return fallback(input);
  }

  function ClaimUnbound(i: ReadyInput): bool { !i.claimBound }
  function BuildClaimUnbound(i: ReadyInput): ReadyDecision {
    ReadyDecision(PhasePending, Decision(false, REASON_PENDING, MESSAGE_PENDING))
  }
  function PrepareHasFailed(i: ReadyInput): bool { i.prepare.phase.PrepareFailed? }
  function BuildPrepareFailed(i: ReadyInput): ReadyDecision {
    ReadyDecision(PhaseFailed, Decision(false, FirstNonEmpty(i.prepare.reason, REASON_PREPARE_FAILED),
                                        FirstNonEmpty(i.prepare.message, MESSAGE_PREPARE_FAILED)))
  }
  function AccessorHasFailed(i: ReadyInput): bool { i.accessorEnabled && i.accessor.phase.AccessorFailed? }
  function BuildAccessorFailed(i: ReadyInput): ReadyDecision {
    ReadyDecision(PhaseFailed, Decision(false, FirstNonEmpty(i.accessor.reason, REASON_ACCESSOR_FAILED), i.accessor.message))
  }
  function PrepareNotReady(i: ReadyInput): bool { !i.prepare.ready }
  function BuildPrepareNotReady(i: ReadyInput): ReadyDecision {
    ReadyDecision(PhasePending, Decision(false, i.prepare.reason, i.prepare.message))
  }
  function AccessorNotReady(i: ReadyInput): bool { i.accessorEnabled && !i.accessor.ready }
  function BuildAccessorNotReady(i: ReadyInput): ReadyDecision {
    ReadyDecision(PhasePending, Decision(false, i.accessor.reason, i.accessor.message))
  }
  function DefaultReady(i: ReadyInput): ReadyDecision {
    ReadyDecision(PhaseReady, Decision(true, REASON_READY, MESSAGE_READY))
  }

  const READY_RULES: seq<Rule<ReadyInput, ReadyDecision>> := [
    Rule(ClaimUnbound, BuildClaimUnbound),
    Rule(PrepareHasFailed, BuildPrepareFailed),
    Rule(AccessorHasFailed, BuildAccessorFailed),
    Rule(PrepareNotReady, BuildPrepareNotReady),
    Rule(AccessorNotReady, BuildAccessorNotReady)]

  function DecideReady(i: ReadyInput): ReadyDecision {
    FirstMatch(i, READY_RULES, DefaultReady)
  }

  /** The rule table, unfolded. */
  lemma DecideReadyUnfolded(i: ReadyInput)
    ensures DecideReady(i) ==
            if ClaimUnbound(i) then BuildClaimUnbound(i)
            else if PrepareHasFailed(i) then BuildPrepareFailed(i)
            else if AccessorHasFailed(i) then BuildAccessorFailed(i)
            else if PrepareNotReady(i) then BuildPrepareNotReady(i)
            else if AccessorNotReady(i) then BuildAccessorNotReady(i)
            else DefaultReady(i)
  {
    var r := READY_RULES;
    assert r[1..][0] == r[1] && r[1..][1..] == r[2..];
    assert r[2..][0] == r[2] && r[2..][1..] == r[3..];
    assert r[3..][0] == r[3] && r[3..][1..] == r[4..];
    assert r[4..][0] == r[4] && r[4..][1..] == [];
    assert FirstMatch(i, r, DefaultReady) ==
           if ClaimUnbound(i) then BuildClaimUnbound(i) else FirstMatch(i, r[1..], DefaultReady);
    assert FirstMatch(i, r[1..], DefaultReady) ==
           if PrepareHasFailed(i) then BuildPrepareFailed(i) else FirstMatch(i, r[2..], DefaultReady);
    assert FirstMatch(i, r[2..], DefaultReady) ==
           if AccessorHasFailed(i) then BuildAccessorFailed(i) else FirstMatch(i, r[3..], DefaultReady);
    assert FirstMatch(i, r[3..], DefaultReady) ==
           if PrepareNotReady(i) then BuildPrepareNotReady(i) else FirstMatch(i, r[4..], DefaultReady);
    assert FirstMatch(i, r[4..], DefaultReady) ==
           if AccessorNotReady(i) then BuildAccessorNotReady(i) else DefaultReady(i);
  }

  /** Ready exactly when no rule matches. */
  lemma ReadyExactlyWhenNothingMatches(i: ReadyInput)
    ensures DecideReady(i).phase.PhaseReady? <==>
            i.claimBound && !i.prepare.phase.PrepareFailed? && i.prepare.ready
            && (!i.accessorEnabled || (!i.accessor.phase.AccessorFailed? && i.accessor.ready))
    ensures DecideReady(i).phase.PhaseReady? <==> DecideReady(i).ready.status
    ensures !i.claimBound ==> DecideReady(i).phase.PhasePending?
    ensures i.claimBound && i.prepare.phase.PrepareFailed? ==> DecideReady(i).phase.PhaseFailed?
  {
    DecideReadyUnfolded(i);
  }

  function PrepareDecision(phase: PreparePhase): Decision {
    match phase
    case NotRequested => Decision(true, REASON_PREPARE_READY, MESSAGE_PREPARED)
    case PrepareSucceeded => Decision(true, REASON_PREPARE_READY, MESSAGE_PREPARED)
    case PrepareRunning => Decision(false, REASON_PREPARE_RUNNING, MESSAGE_PREPARE_RUNNING)
    case PrepareFailed => Decision(false, REASON_PREPARE_FAILED, MESSAGE_PREPARE_FAILED)
    case _ => Decision(false, REASON_PREPARE_PENDING, MESSAGE_PREPARE_PENDING)
  }

  function AccessorDecision(phase: AccessorPhase): Decision {
    match phase
    case AccessorDisabled => Decision(true, REASON_ACCESSOR_READY, MESSAGE_ACCESSOR_DISABLED)
    case AccessorReady => Decision(true, REASON_ACCESSOR_READY, MESSAGE_ACCESSOR_READY)
    case AccessorFailed => Decision(false, REASON_ACCESSOR_FAILED, "")
    case _ => Decision(false, REASON_ACCESSOR_PENDING, MESSAGE_ACCESSOR_PENDING)
  }

  function Refined(d: Decision, reason: string, message: string): Decision {
    d.(reason := FirstNonEmpty(reason, d.reason), message := FirstNonEmpty(message, d.message))
  }

  /** buildGPUStorageStatus; every condition is new, so its transition time is now. */
  function BuildStatus(st: Storage, claim: Claim, prepare: PrepareProgress, accessor: AccessorProgress, now: nat): Status {
    var decision := DecideReady(ReadyInput(claim.bound, prepare, accessor, st.spec.accessorEnabled));
    Status(
      FirstNonEmpty(st.name, st.name),
      if claim.capacity.Some? then claim.capacity.value else "",
      decision.phase,
      PrepareStatus(prepare.phase, prepare.jobName, prepare.digest, prepare.recovery),
      AccessorStatus(accessor.phase, accessor.serviceName, accessor.accessURL),
      st.generation,
      now,
      [Condition(ConditionReady, st.generation, decision.ready, now),
       Condition(ConditionPrepared, st.generation, Refined(PrepareDecision(prepare.phase), prepare.reason, prepare.message), now),
       Condition(ConditionAccessorReady, st.generation,
                 Refined(AccessorDecision(accessor.phase), accessor.reason, accessor.message), now)])
  }

  /** The snapshot markStorageFailed writes: what was known about prepare and the accessor
      is kept. */
  function FailedStatus(st: Storage, reason: string, message: string, now: nat): Status {
    Status(st.name, "", PhaseFailed, st.status.prepare, st.status.accessor, st.generation, now,
           [Condition(ConditionReady, st.generation, Decision(false, reason, message), now)])
  }

  // ------------------------------------------------------------ status comparison

  function Timeless(conditions: seq<Condition>): (r: seq<Condition>)
    ensures |r| == |conditions|
    ensures forall i :: 0 <= i < |r| ==> r[i] == conditions[i].(lastTransition := 0)
  {
    seq(|conditions|, i requires 0 <= i < |conditions| => conditions[i].(lastTransition := 0))
  }

  function Normalize(status: Status): Status {
    status.(lastSync := 0, conditions := Timeless(status.conditions))
  }

  /** normalizeGPUStorageStatusForCompare: the status is passed by value, but its condition
      list is shared with the caller, so the transition times are erased there too. */
  method NormalizeForCompare(status: Status, conditions: array<Condition>) returns (normalized: Status)
    requires conditions[..] == status.conditions
    modifies conditions
    ensures normalized == Normalize(status)
    ensures conditions[..] == Timeless(old(conditions[..]))
  {
    for i := 0 to conditions.Length
      invariant forall j :: 0 <= j < i ==> conditions[j] == old(conditions[j]).(lastTransition := 0)
      invariant forall j :: i <= j < conditions.Length ==> conditions[j] == old(conditions[j])
    {
      conditions[i] := conditions[i].(lastTransition := 0);
    }
    return status.(lastSync := 0, conditions := conditions[..]);
  }

  /** updateGPUStorageStatus up to the write: whether to write, and what.  The comparison
      has erased the transition times of the status that is then written. */
  method StatusToWrite(current: Status, next: Status) returns (write: bool, written: Status)
    ensures write <==> Normalize(current) != Normalize(next)
    ensures written == next.(conditions := Timeless(next.conditions))
  {
    var currentConditions := new Condition[|current.conditions|](i requires 0 <= i < |current.conditions| => current.conditions[i]);
    var nextConditions := new Condition[|next.conditions|](i requires 0 <= i < |next.conditions| => next.conditions[i]);
    assert currentConditions[..] == current.conditions && nextConditions[..] == next.conditions;
    var a := NormalizeForCompare(current, currentConditions);
    var b := NormalizeForCompare(next, nextConditions);
    return a != b, next.(conditions := nextConditions[..]);
  }
}
