/** Concurrent clients of one service process (pkg/service/unit_service.go,
    unit_inventory.go and storage.go), at the grain of single store calls.

    Create and Update hold unitMu; Delete and the storage calls do not.  A client is a
    program counter; one Advance step performs its next List, Get, Create, Update or Delete
    call.  The store rejects an Update whose object has a stale resource version. */
module UnitInterleaving {
  import opened Text
  import opened UnitStore

  datatype Pc =
    | Idle
    | Returned(response: Response)
    // CreateGPUUnit: existence checks, then under unitMu the replay check, one List per
    // mount, the Create, and the Get after an AlreadyExists.
    | CreateExist(request: Request, k: nat)
    | CreateLock(request: Request)
    | CreateFind(request: Request)
    | CreateExclusive(request: Request, k: nat)
    | CreateStore(request: Request)
    | CreateReread(request: Request)
    // UpdateGPUUnit, all under unitMu.
    | UpdateLock(name: string, change: Change)
    | UpdateGet(name: string, change: Change)
    | UpdateExist(name: string, instance: Unit, change: Change, k: nat)
    | UpdateExclusive(name: string, instance: Unit, change: Change, k: nat)
    | UpdateStore(name: string, instance: Unit, next: Spec)
    // No lock.
    | DeleteGet(name: string)
    | DeleteStore(name: string)
    | StorageCreateSource(name: string, draft: StorageSpec)
    | StorageCreateGet(name: string, draft: StorageSpec)
    | StorageCreateStore(name: string, draft: StorageSpec)
    | StorageUpdateGet(name: string, size: int, accessor: Option<bool>)
    | StorageRecoverGet(name: string, nonce: string)
    | StorageUpdateStore(name: string, observed: Storage, changed: Storage)
    | StorageDeleteGet(name: string)
    | StorageDeleteList(name: string)
    | StorageDeleteStore(name: string)

  /** How one store call ended: done, refused, or done although the caller saw an error. */
  datatype Io = Done | Refused | DoneButErrored

  datatype Step =
    | Invoke(client: nat, call: Call)
    | Advance(client: nat, io: Io)
    // The controllers: status writes, the claim following its storage, and the collector
    // removing a claim whose storage is gone.
    | UnitStatusWrite(name: string)
    | StorageStatusWrite(name: string)
    | ReconcileClaim(name: string)
    | CollectClaim(name: string)

  datatype State = State(
    units: map<string, Unit>,
    storages: map<string, Storage>,
    claims: map<string, Claim>,
    clock: nat,
    holder: Option<nat>,
    pcs: map<nat, Pc>)

  function Init(): State {
    State(map[], map[], map[], 0, None, map[])
  }

  function PcOf(s: State, c: nat): Pc {
    if c in s.pcs then s.pcs[c] else Idle
  }

  function Goto(s: State, c: nat, pc: Pc): State {
    s.(pcs := s.pcs[c := pc])
  }

  /** The call returns; a deferred Unlock releases the mutex. */
  function Return(s: State, c: nat, r: Response): State {
    Goto(s, c, Returned(r)).(holder := if s.holder == Some(c) then None else s.holder)
  }

  function Start(call: Call): Pc {
    match call
    case CreateUnit(req) => if req.name == "" then Returned(Invalid) else CreateExist(req, 0)
    case UpdateUnit(name, change) => UpdateLock(name, change)
    case DeleteUnit(name) => DeleteGet(name)
    case CreateStorage(name, draft) => StorageCreateSource(name, draft)
    case UpdateStorage(name, size, accessor) => StorageUpdateGet(name, size, accessor)
    case RecoverStorage(name, nonce) => StorageRecoverGet(name, nonce)
    case DeleteStorage(name) => StorageDeleteGet(name)
  }

  // --------------------------------------------------------------- store calls

  function StoreCreateUnit(s: State, req: Request): State {
    s.(units := s.units[req.name := UnitFor(req, s.clock + 1)],
       clock := s.clock + 1)
  }

  function StoreUpdateUnit(s: State, name: string, u: Unit): State {
    s.(units := s.units[name := u.(version := s.clock + 1)], clock := s.clock + 1)
  }

  function StoreStorage(s: State, name: string, storage: Storage): State {
    s.(storages := s.storages[name := storage.(version := s.clock + 1)], clock := s.clock + 1)
  }

  function CreatedStorage(s: State, draft: StorageSpec): Storage {
    Storage(s.clock + 1, draft, "", s.clock + 1)
  }

  ghost function CreateStep(s: State, c: nat, pc: Pc, io: Io): (s': State)
    requires pc.CreateExist? || pc.CreateLock? || pc.CreateFind? || pc.CreateExclusive? || pc.CreateStore? || pc.CreateReread?
    ensures s'.claims == s.claims && s'.storages == s.storages
  {
    match pc
    case CreateExist(req, k) =>
      if k >= |req.mounts| then Goto(s, c, CreateLock(req))
      else if !io.Done? then Return(s, c, Failed)
      else if req.mounts[k] !in s.storages then Return(s, c, NotFound)
      else Goto(s, c, CreateExist(req, k + 1))
    case CreateLock(req) =>
      if s.holder.None? then Goto(s, c, CreateFind(req)).(holder := Some(c)) else s
    case CreateFind(req) =>
      if !io.Done? then Return(s, c, Failed)
      else
        var found := FindExisting(s.units, req);
        if found.Some? then Return(s, c, found.value) else Goto(s, c, CreateExclusive(req, 0))
    case CreateExclusive(req, k) =>
      // After the last mount: the quota check, which may refuse.
      if !io.Done? then Return(s, c, Failed)
      else if k >= |req.mounts| then Goto(s, c, CreateStore(req))
      else if MountedByOther(s.units, req.mounts[k], "") then Return(s, c, Conflict)
      else Goto(s, c, CreateExclusive(req, k + 1))
    case CreateStore(req) =>
      if io.Refused? then Return(s, c, Failed)
      else if req.name in s.units then Goto(s, c, CreateReread(req))
      else Return(StoreCreateUnit(s, req), c, if io.Done? then Created else Failed)
    case CreateReread(req) =>
      if io.Done? && req.name in s.units
         && s.units[req.name].operationID == req.operationID && s.units[req.name].requestHash == req
      then Return(s, c, Existing(req.name))
      else Return(s, c, Conflict)
  }

  function UpdateStep(s: State, c: nat, pc: Pc, io: Io): (s': State)
    requires pc.UpdateLock? || pc.UpdateGet? || pc.UpdateExist? || pc.UpdateExclusive? || pc.UpdateStore?
    ensures s'.claims == s.claims && s'.storages == s.storages
  {
    match pc
    case UpdateLock(name, change) =>
      if s.holder.None? then Goto(s, c, UpdateGet(name, change)).(holder := Some(c)) else s
    case UpdateGet(name, change) =>
      if !io.Done? then Return(s, c, Failed)
      else if name !in s.units then Return(s, c, NotFound)
      else Goto(s, c, UpdateExist(name, s.units[name], change, 0))
    case UpdateExist(name, instance, change, k) =>
      var mounts := NewMounts(change);
      if k >= |mounts| then Goto(s, c, UpdateExclusive(name, instance, change, 0))
      else if !io.Done? then Return(s, c, Failed)
      else if mounts[k] !in s.storages then Return(s, c, NotFound)
      else Goto(s, c, UpdateExist(name, instance, change, k + 1))
    case UpdateExclusive(name, instance, change, k) =>
      var mounts := NewMounts(change);
      if k >= |mounts| then
        (if Next(instance, change) == instance.spec then Return(s, c, Accepted)
         else Goto(s, c, UpdateStore(name, instance, Next(instance, change))))
      else if !io.Done? then Return(s, c, Failed)
      else if MountedByOther(s.units, mounts[k], name) then Return(s, c, Conflict)
      else Goto(s, c, UpdateExclusive(name, instance, change, k + 1))
    case UpdateStore(name, instance, next) =>
      if io.Refused? then Return(s, c, Failed)
      else if name !in s.units then Return(s, c, NotFound)
      else if s.units[name].version != instance.version then Return(s, c, Conflict)
      else Return(StoreUpdateUnit(s, name, instance.(spec := next)), c, if io.Done? then Accepted else Failed)
  }

  predicate IsStorageWriter(pc: Pc) {
    pc.StorageCreateSource? || pc.StorageCreateGet? || pc.StorageCreateStore? || pc.StorageUpdateGet?
    || pc.StorageRecoverGet? || pc.StorageUpdateStore?
  }

  function UnlockedStep(s: State, c: nat, pc: Pc, io: Io): (s': State)
    requires pc.DeleteGet? || pc.DeleteStore? || pc.StorageDeleteGet? || pc.StorageDeleteList? || pc.StorageDeleteStore?
             || IsStorageWriter(pc)
    ensures s'.claims == s.claims
  {
    match pc
    case DeleteGet(name) =>
      if !io.Done? then Return(s, c, Failed)
      else if name !in s.units then Return(s, c, NotFound)
      else Goto(s, c, DeleteStore(name))
    case DeleteStore(name) =>
      if io.Refused? then Return(s, c, Failed)
      else if name !in s.units then Return(s, c, NotFound)
      else Return(s.(units := s.units - {name}), c, if io.Done? then Accepted else Failed)
    case StorageCreateSource(name, draft) =>
      if !draft.prepare.FromStorage? then Goto(s, c, StorageCreateGet(name, draft))
      else if draft.prepare.source == name then Return(s, c, Invalid)
      else if !io.Done? then Return(s, c, Failed)
      else if draft.prepare.source !in s.storages then Return(s, c, NotFound)
      else Goto(s, c, StorageCreateGet(name, draft))
    case StorageCreateGet(name, draft) =>
      if !io.Done? then Return(s, c, Failed)
      else if name in s.storages then Return(s, c, Conflict)
      else Goto(s, c, StorageCreateStore(name, draft))
    case StorageCreateStore(name, draft) =>
      if io.Refused? then Return(s, c, Failed)
      else if name in s.storages then Return(s, c, Conflict)
      else Return(StoreStorage(s, name, CreatedStorage(s, draft)), c, if io.Done? then Created else Failed)
    case StorageUpdateGet(name, size, accessor) =>
      if !io.Done? then Return(s, c, Failed)
      else if name !in s.storages then Return(s, c, NotFound)
      else
        var current := s.storages[name];
        var next := NextStorage(current, size, accessor);
        if size < current.spec.size then Return(s, c, Invalid)
        else if next == current then Return(s, c, Accepted)
        else Goto(s, c, StorageUpdateStore(name, current, next))
    case StorageRecoverGet(name, nonce) =>
      if !io.Done? then Return(s, c, Failed)
      else if name !in s.storages then Return(s, c, NotFound)
      else if s.storages[name].spec.prepare.NoPrepare? then Return(s, c, Invalid)
      else Goto(s, c, StorageUpdateStore(name, s.storages[name], s.storages[name].(recoveryNonce := nonce)))
    case StorageUpdateStore(name, observed, next) =>
      if io.Refused? then Return(s, c, Failed)
      else if name !in s.storages then Return(s, c, NotFound)
      else if s.storages[name].version != observed.version then Return(s, c, Conflict)
      else Return(StoreStorage(s, name, next), c, if io.Done? then Accepted else Failed)
    case StorageDeleteGet(name) =>
      if !io.Done? then Return(s, c, Failed)
      else if name !in s.storages then Return(s, c, NotFound)
      else Goto(s, c, StorageDeleteList(name))
    case StorageDeleteList(name) =>
      if !io.Done? then Return(s, c, Failed)
      else if Mounted(s.units, name) then Return(s, c, Conflict)
      else Goto(s, c, StorageDeleteStore(name))
    case StorageDeleteStore(name) =>
      if io.Refused? then Return(s, c, Failed)
      else if name !in s.storages then Return(s, c, NotFound)
      else Return(s.(storages := s.storages - {name}), c, if io.Done? then Accepted else Failed)
  }

  ghost function Apply(s: State, step: Step): State {
    match step
    case Invoke(c, call) =>
      var pc := PcOf(s, c);
      if pc.Idle? || pc.Returned? then Goto(s, c, Start(call)) else s
    case Advance(c, io) =>
      var pc := PcOf(s, c);
      if pc.Idle? || pc.Returned? then s
      else if pc.CreateExist? || pc.CreateLock? || pc.CreateFind? || pc.CreateExclusive? || pc.CreateStore? || pc.CreateReread?
      then CreateStep(s, c, pc, io)
      else if pc.UpdateLock? || pc.UpdateGet? || pc.UpdateExist? || pc.UpdateExclusive? || pc.UpdateStore?
      then UpdateStep(s, c, pc, io)
      else UnlockedStep(s, c, pc, io)
    case UnitStatusWrite(name) =>
      if name in s.units then StoreUpdateUnit(s, name, s.units[name]) else s
    case StorageStatusWrite(name) =>
      if name in s.storages then StoreStorage(s, name, s.storages[name]) else s
    case ReconcileClaim(name) =>
      if name in s.storages then s.(claims := s.claims[name := ReconciledClaim(s.claims, name, s.storages[name])]) else s
    case CollectClaim(name) =>
      if name in s.claims && !(name in s.storages && s.storages[name].uid == s.claims[name].owner)
      then s.(claims := s.claims - {name}) else s
  }

  /** reconcileGPUStoragePVC: create the claim for this storage object, or move the request
      of the claim that is there. */
  function ReconciledClaim(claims: map<string, Claim>, name: string, storage: Storage): Claim {
    if name in claims then claims[name].(request := storage.spec.size) else Claim(storage.uid, storage.spec.size)
  }

  ghost function Run(s: State, steps: seq<Step>): State {
    if steps == [] then s
    else Apply(Run(s, steps[..|steps| - 1]), steps[|steps| - 1])
  }

  // ------------------------------------------------------------- the invariant

  predicate InCriticalSection(pc: Pc) {
    pc.CreateFind? || pc.CreateExclusive? || pc.CreateStore? || pc.CreateReread? ||
    pc.UpdateGet? || pc.UpdateExist? || pc.UpdateExclusive? || pc.UpdateStore?
  }

  ghost predicate Fresh(units: map<string, Unit>, req: Request, k: nat) {
    && !OperationLive(units, req.operationID)
    && req.name !in units
    && k <= |req.mounts|
    && forall j :: 0 <= j < k ==> !MountedByOther(units, req.mounts[j], "")
  }

  /** A copy read earlier is still current if its resource version is. */
  predicate CopyOk(s: State, name: string, copy: Unit) {
    copy.version <= s.clock && (name in s.units && s.units[name].version == copy.version ==> s.units[name] == copy)
  }

  predicate StorageCopyOk(s: State, name: string, copy: Storage) {
    copy.version <= s.clock
    && (name in s.storages && s.storages[name].version == copy.version ==> s.storages[name] == copy)
  }

  ghost predicate PcOk(s: State, pc: Pc) {
    match pc
    case CreateExist(req, _) => req.name != ""
    case CreateLock(req) => req.name != ""
    case CreateFind(req) => req.name != ""
    case CreateExclusive(req, k) => req.name != "" && Fresh(s.units, req, k)
    case CreateStore(req) => req.name != "" && Fresh(s.units, req, |req.mounts|)
    case UpdateExist(name, instance, change, k) => CopyOk(s, name, instance) && k <= |NewMounts(change)|
    case UpdateExclusive(name, instance, change, k) =>
      && CopyOk(s, name, instance)
      && k <= |NewMounts(change)|
      && forall j :: 0 <= j < k ==> !MountedByOther(s.units, NewMounts(change)[j], name)
    case UpdateStore(name, instance, next) =>
      && CopyOk(s, name, instance)
      && (next.mounts == instance.spec.mounts || forall m :: m in next.mounts ==> !MountedByOther(s.units, m, name))
    case StorageUpdateStore(name, observed, next) =>
      StorageCopyOk(s, name, observed) && next.uid == observed.uid && next.spec.size >= observed.spec.size
    case _ => true
  }

  ghost predicate VersionsOk(s: State) {
    && (forall n :: n in s.units ==> s.units[n].version <= s.clock)
    && (forall n :: n in s.storages ==> s.storages[n].version <= s.clock && s.storages[n].uid <= s.clock)
    && (forall n :: n in s.claims ==> s.claims[n].owner <= s.clock && ClaimFits(s, n))
  }

  /** A claim never asks for more than the storage that owns it. */
  predicate ClaimFits(s: State, n: string)
    requires n in s.claims
  {
    n in s.storages && s.storages[n].uid == s.claims[n].owner ==> s.claims[n].request <= s.storages[n].spec.size
  }

  ghost predicate Inv(s: State) {
    && Exclusive(s.units)
    && DistinctOperations(s.units)
    && VersionsOk(s)
    && "" !in s.units
    && (forall c: nat :: InCriticalSection(PcOf(s, c)) <==> s.holder == Some(c))
    && (forall c: nat :: PcOk(s, PcOf(s, c)))
  }

  // -------------------------------------------------------------- preservation

  /** The store only lost units, or only moved versions of units forward. */
  ghost predicate Shrinks(s: State, s': State) {
    && s.clock <= s'.clock
    && (forall n :: n in s'.units ==>
          && n in s.units
          && s'.units[n].operationID == s.units[n].operationID
          && s'.units[n].spec == s.units[n].spec
          && (s'.units[n] == s.units[n] || s'.units[n].version > s.clock))
  }

  ghost predicate StoragesMove(s: State, s': State) {
    forall n :: n in s'.storages ==>
      (n in s.storages && s'.storages[n] == s.storages[n]) || s'.storages[n].version > s.clock
  }

  lemma MountedShrinks(s: State, s': State, m: string, except: string)
    requires Shrinks(s, s') && !MountedByOther(s.units, m, except)
    ensures !MountedByOther(s'.units, m, except)
  {
  }

  /** Steps outside the mutex never disturb what a client inside has checked. */
  lemma OthersKept(s: State, s': State, pc: Pc)
    requires Shrinks(s, s') && StoragesMove(s, s') && PcOk(s, pc)
    ensures PcOk(s', pc)
  {
    match pc {
      case CreateExclusive(req, k) => FreshShrinks(s, s', req, k);
      case CreateStore(req) => FreshShrinks(s, s', req, |req.mounts|);
      case UpdateExclusive(name, instance, change, k) =>
        forall j | 0 <= j < k ensures !MountedByOther(s'.units, NewMounts(change)[j], name) {
          MountedShrinks(s, s', NewMounts(change)[j], name);
        }
      case UpdateStore(name, instance, next) =>
        forall m | m in next.mounts && !MountedByOther(s.units, m, name) ensures !MountedByOther(s'.units, m, name) {
          MountedShrinks(s, s', m, name);
        }
      case _ =>
    }
  }

  lemma FreshShrinks(s: State, s': State, req: Request, k: nat)
    requires Shrinks(s, s') && Fresh(s.units, req, k)
    ensures Fresh(s'.units, req, k)
  {
    forall j | 0 <= j < k ensures !MountedByOther(s'.units, req.mounts[j], "") {
      MountedShrinks(s, s', req.mounts[j], "");
    }
  }

  /** Client c moved, the store at most shrank, and nobody else took part. */
  lemma Moved(s: State, s': State, c: nat)
    requires Inv(s) && Shrinks(s, s') && StoragesMove(s, s') && VersionsOk(s')
    requires forall d: nat :: d != c ==> PcOf(s', d) == PcOf(s, d)
    requires s'.holder == s.holder || s.holder == Some(c) || (s.holder.None? && s'.holder == Some(c))
    requires InCriticalSection(PcOf(s', c)) <==> s'.holder == Some(c)
    requires s.holder == Some(c) ==> s'.holder == Some(c) || s'.holder.None?
    requires PcOk(s', PcOf(s', c))
    ensures Inv(s')
  {
    assert Exclusive(s'.units) by {
      forall a, b, m | a in s'.units && b in s'.units && m in s'.units[a].spec.mounts && m in s'.units[b].spec.mounts
        ensures a == b
      {
        assert m in s.units[a].spec.mounts && m in s.units[b].spec.mounts;
      }
    }
    forall d: nat ensures PcOk(s', PcOf(s', d)) {
      if d != c {
        OthersKept(s, s', PcOf(s, d));
      }
    }
    forall d: nat ensures InCriticalSection(PcOf(s', d)) <==> s'.holder == Some(d) {
      assert InCriticalSection(PcOf(s, d)) <==> s.holder == Some(d);
    }
  }

  lemma ReturnKeeps(s: State, c: nat, r: Response)
    requires Inv(s)
    ensures Inv(Return(s, c, r))
  {
    Moved(s, Return(s, c, r), c);
  }

  lemma GotoKeeps(s: State, c: nat, pc: Pc)
    requires Inv(s) && PcOk(s, pc) && (InCriticalSection(pc) <==> InCriticalSection(PcOf(s, c)))
    ensures Inv(Goto(s, c, pc))
  {
    assert InCriticalSection(PcOf(s, c)) <==> s.holder == Some(c);
    assert PcOf(Goto(s, c, pc), c) == pc;
    assert PcOk(Goto(s, c, pc), pc);
    Moved(s, Goto(s, c, pc), c);
  }

  lemma LockKeeps(s: State, c: nat, pc: Pc)
    requires Inv(s) && s.holder.None? && InCriticalSection(pc) && PcOk(s, pc)
    ensures Inv(Goto(s, c, pc).(holder := Some(c)))
  {
    var s' := Goto(s, c, pc).(holder := Some(c));
    assert PcOf(s', c) == pc && PcOk(s', pc);
    Moved(s, s', c);
  }

  /** Everyone outside the critical section knows nothing about units, so a write inside it
      disturbs nobody. */
  lemma OutsideKept(s: State, s': State, pc: Pc)
    requires !InCriticalSection(pc) && PcOk(s, pc) && s'.storages == s.storages && s.clock <= s'.clock
    ensures PcOk(s', pc)
  {
  }

  lemma LockedWriteKeeps(s: State, s': State, c: nat)
    requires Inv(s) && s.holder == Some(c)
    requires s'.storages == s.storages && s'.claims == s.claims && s.clock <= s'.clock && s'.holder == None
    requires forall d: nat :: d != c ==> PcOf(s', d) == PcOf(s, d)
    requires PcOf(s', c).Returned?
    requires Exclusive(s'.units) && DistinctOperations(s'.units) && VersionsOk(s') && "" !in s'.units
    ensures Inv(s')
  {
    forall d: nat ensures PcOk(s', PcOf(s', d)) && !InCriticalSection(PcOf(s', d)) {
      assert InCriticalSection(PcOf(s, d)) <==> s.holder == Some(d);
      if d != c {
        OutsideKept(s, s', PcOf(s, d));
      }
    }
  }

  /** Every mount was looked at, so no live unit mounts any of them. */
  lemma FreshMounts(units: map<string, Unit>, req: Request)
    requires "" !in units && Fresh(units, req, |req.mounts|)
    ensures forall n, m :: n in units && m in units[n].spec.mounts ==> m !in req.mounts
  {
    forall n, j: nat | n in units && j < |req.mounts| ensures req.mounts[j] !in units[n].spec.mounts {
      assert !MountedByOther(units, req.mounts[j], "");
    }
  }

  /** The creating write: what was checked under the mutex still holds when it happens. */
  lemma CreateWriteKeeps(s: State, c: nat, req: Request, r: Response)
    requires Inv(s) && PcOf(s, c) == CreateStore(req)
    ensures Inv(Return(StoreCreateUnit(s, req), c, r))
  {
    assert PcOk(s, PcOf(s, c));
    assert InCriticalSection(PcOf(s, c)) <==> s.holder == Some(c);
    var s' := Return(StoreCreateUnit(s, req), c, r);
    FreshMounts(s.units, req);
    forall n | n in s.units ensures s.units[n].operationID != req.operationID {
      assert !OperationLive(s.units, req.operationID);
    }
    LockedWriteKeeps(s, s', c);
  }

  /** The updating write, when the resource version shows that the copy is current. */
  lemma UpdateWriteKeeps(s: State, c: nat, name: string, instance: Unit, next: Spec, r: Response)
    requires Inv(s) && PcOf(s, c) == UpdateStore(name, instance, next)
    requires name in s.units && s.units[name].version == instance.version
    ensures Inv(Return(StoreUpdateUnit(s, name, instance.(spec := next)), c, r))
  {
    assert PcOk(s, PcOf(s, c));
    assert InCriticalSection(PcOf(s, c)) <==> s.holder == Some(c);
    var s' := Return(StoreUpdateUnit(s, name, instance.(spec := next)), c, r);
    forall n, m | n in s.units && n != name && m in next.mounts ensures m !in s.units[n].spec.mounts {
      if next.mounts != instance.spec.mounts {
        assert !MountedByOther(s.units, m, name);
      }
    }
    LockedWriteKeeps(s, s', c);
  }

  /** A write to a storage: nobody's copy of another version becomes current by it. */
  lemma StorageWriteKeeps(s: State, c: nat, s1: State, r: Response)
    requires Inv(s) && !InCriticalSection(PcOf(s, c))
    requires s1.units == s.units && s1.holder == s.holder && s1.pcs == s.pcs && s.clock <= s1.clock
    requires StoragesMove(s, s1) && VersionsOk(s1)
    ensures Inv(Return(s1, c, r))
  {
    assert InCriticalSection(PcOf(s, c)) <==> s.holder == Some(c);
    Moved(s, Return(s1, c, r), c);
  }

  lemma CreateExistKeeps(s: State, c: nat, io: Io)
    requires Inv(s) && PcOf(s, c).CreateExist?
    ensures Inv(CreateStep(s, c, PcOf(s, c), io))
  {
    var CreateExist(req, k) := PcOf(s, c);
    assert PcOk(s, PcOf(s, c));
    if k >= |req.mounts| { GotoKeeps(s, c, CreateLock(req)); }
    else if !io.Done? { ReturnKeeps(s, c, Failed); }
    else if req.mounts[k] !in s.storages { ReturnKeeps(s, c, NotFound); }
    else { GotoKeeps(s, c, CreateExist(req, k + 1)); }
  }

  lemma CreateLockKeeps(s: State, c: nat, io: Io)
    requires Inv(s) && PcOf(s, c).CreateLock?
    ensures Inv(CreateStep(s, c, PcOf(s, c), io))
  {
    assert PcOk(s, PcOf(s, c));
    if s.holder.None? {
      LockKeeps(s, c, CreateFind(PcOf(s, c).request));
    }
  }

  lemma CreateFindKeeps(s: State, c: nat, io: Io)
    requires Inv(s) && PcOf(s, c).CreateFind?
    ensures Inv(CreateStep(s, c, PcOf(s, c), io))
  {
    var req := PcOf(s, c).request;
    assert PcOk(s, PcOf(s, c));
    var found := FindExisting(s.units, req);
    if !io.Done? { ReturnKeeps(s, c, Failed); }
    else if found.Some? { ReturnKeeps(s, c, found.value); }
    else {
      FindNothingMeansFresh(s.units, req);
      GotoKeeps(s, c, CreateExclusive(req, 0));
    }
  }

  lemma CreateExclusiveKeeps(s: State, c: nat, io: Io)
    requires Inv(s) && PcOf(s, c).CreateExclusive?
    ensures Inv(CreateStep(s, c, PcOf(s, c), io))
  {
    var CreateExclusive(req, k) := PcOf(s, c);
    assert PcOk(s, PcOf(s, c));
    if !io.Done? { ReturnKeeps(s, c, Failed); }
    else if k >= |req.mounts| { GotoKeeps(s, c, CreateStore(req)); }
    else if MountedByOther(s.units, req.mounts[k], "") { ReturnKeeps(s, c, Conflict); }
    else { GotoKeeps(s, c, CreateExclusive(req, k + 1)); }
  }

  lemma CreateStoreKeeps(s: State, c: nat, io: Io)
    requires Inv(s)
    requires var pc := PcOf(s, c); pc.CreateStore? || pc.CreateReread?
    ensures Inv(CreateStep(s, c, PcOf(s, c), io))
  {
    var pc := PcOf(s, c);
    var req := pc.request;
    if pc.CreateReread? {
      ReturnKeeps(s, c, PcOf(CreateStep(s, c, pc, io), c).response);
    }
    else if io.Refused? { ReturnKeeps(s, c, Failed); }
    else if req.name in s.units { GotoKeeps(s, c, CreateReread(req)); }
    else { CreateWriteKeeps(s, c, req, if io.Done? then Created else Failed); }
  }

  lemma FindNothingMeansFresh(units: map<string, Unit>, req: Request)
    requires FindExisting(units, req).None?
    ensures Fresh(units, req, 0)
  {
  }

  lemma UpdateReadKeeps(s: State, c: nat, io: Io)
    requires Inv(s)
    requires var pc := PcOf(s, c); pc.UpdateLock? || pc.UpdateGet? || pc.UpdateExist?
    ensures Inv(UpdateStep(s, c, PcOf(s, c), io))
  {
    var pc := PcOf(s, c);
    assert PcOk(s, pc);
    match pc {
      case UpdateLock(name, change) => if s.holder.None? { LockKeeps(s, c, UpdateGet(name, change)); }
      case UpdateGet(name, change) =>
        if !io.Done? { ReturnKeeps(s, c, Failed); }
        else if name !in s.units { ReturnKeeps(s, c, NotFound); }
        else { GotoKeeps(s, c, UpdateExist(name, s.units[name], change, 0)); }
      case UpdateExist(name, instance, change, k) =>
        var mounts := NewMounts(change);
        if k >= |mounts| { GotoKeeps(s, c, UpdateExclusive(name, instance, change, 0)); }
        else if !io.Done? { ReturnKeeps(s, c, Failed); }
        else if mounts[k] !in s.storages { ReturnKeeps(s, c, NotFound); }
        else { GotoKeeps(s, c, UpdateExist(name, instance, change, k + 1)); }
    }
  }

  lemma UpdateExclusiveKeeps(s: State, c: nat, io: Io)
    requires Inv(s) && PcOf(s, c).UpdateExclusive?
    ensures Inv(UpdateStep(s, c, PcOf(s, c), io))
  {
    var UpdateExclusive(name, instance, change, k) := PcOf(s, c);
    assert PcOk(s, PcOf(s, c));
    var mounts := NewMounts(change);
    if k >= |mounts| { AllExclusiveKeeps(s, c, io); }
    else if !io.Done? { ReturnKeeps(s, c, Failed); }
    else if MountedByOther(s.units, mounts[k], name) { ReturnKeeps(s, c, Conflict); }
    else { GotoKeeps(s, c, UpdateExclusive(name, instance, change, k + 1)); }
  }

  lemma AllExclusiveKeeps(s: State, c: nat, io: Io)
    requires Inv(s) && PcOf(s, c).UpdateExclusive? && PcOf(s, c).k >= |NewMounts(PcOf(s, c).change)|
    ensures Inv(UpdateStep(s, c, PcOf(s, c), io))
  {
    var UpdateExclusive(name, instance, change, k) := PcOf(s, c);
    assert PcOk(s, PcOf(s, c));
    if Next(instance, change) == instance.spec {
      ReturnKeeps(s, c, Accepted);
    } else {
      CheckedMountsFree(s, name, instance, change);
      GotoKeeps(s, c, UpdateStore(name, instance, Next(instance, change)));
    }
  }

  lemma UpdateStoreKeeps(s: State, c: nat, io: Io)
    requires Inv(s) && PcOf(s, c).UpdateStore?
    ensures Inv(UpdateStep(s, c, PcOf(s, c), io))
  {
    var UpdateStore(name, instance, next) := PcOf(s, c);
    if io.Refused? { ReturnKeeps(s, c, Failed); }
    else if name !in s.units { ReturnKeeps(s, c, NotFound); }
    else if s.units[name].version != instance.version { ReturnKeeps(s, c, Conflict); }
    else { UpdateWriteKeeps(s, c, name, instance, next, if io.Done? then Accepted else Failed); }
  }

  lemma CheckedMountsFree(s: State, name: string, instance: Unit, change: Change)
    requires PcOk(s, UpdateExclusive(name, instance, change, |NewMounts(change)|))
    ensures PcOk(s, UpdateStore(name, instance, Next(instance, change)))
  {
    if change.mounts.Some? {
      forall m | m in change.mounts.value ensures !MountedByOther(s.units, m, name) {
        var j :| 0 <= j < |NewMounts(change)| && NewMounts(change)[j] == m;
      }
    }
  }

  /** Removing objects invalidates nothing that anybody has checked. */
  lemma RemovalKeeps(s: State, c: nat, s1: State, r: Response)
    requires Inv(s) && !InCriticalSection(PcOf(s, c))
    requires s1.clock == s.clock && s1.holder == s.holder && s1.pcs == s.pcs && s1.claims == s.claims
    requires s1.units.Keys <= s.units.Keys && forall n :: n in s1.units ==> s1.units[n] == s.units[n]
    requires s1.storages.Keys <= s.storages.Keys && forall n :: n in s1.storages ==> s1.storages[n] == s.storages[n]
    ensures Inv(Return(s1, c, r))
  {
    assert InCriticalSection(PcOf(s, c)) <==> s.holder == Some(c);
    Moved(s, Return(s1, c, r), c);
  }

  lemma DeleteKeeps(s: State, c: nat, io: Io)
    requires Inv(s)
    requires var pc := PcOf(s, c);
             pc.DeleteGet? || pc.DeleteStore? || pc.StorageDeleteGet? || pc.StorageDeleteList? || pc.StorageDeleteStore?
    ensures Inv(UnlockedStep(s, c, PcOf(s, c), io))
  {
    var pc := PcOf(s, c);
    var name := pc.name;
    var done := if io.Done? then Accepted else Failed;
    match pc {
      case DeleteGet(_) =>
        if !io.Done? { ReturnKeeps(s, c, Failed); }
        else if name !in s.units { ReturnKeeps(s, c, NotFound); }
        else { GotoKeeps(s, c, DeleteStore(name)); }
      case DeleteStore(_) =>
        if io.Refused? { ReturnKeeps(s, c, Failed); }
        else if name !in s.units { ReturnKeeps(s, c, NotFound); }
        else { RemovalKeeps(s, c, s.(units := s.units - {name}), done); }
      case StorageDeleteGet(_) =>
        if !io.Done? { ReturnKeeps(s, c, Failed); }
        else if name !in s.storages { ReturnKeeps(s, c, NotFound); }
        else { GotoKeeps(s, c, StorageDeleteList(name)); }
      case StorageDeleteList(_) =>
        if !io.Done? { ReturnKeeps(s, c, Failed); }
        else if Mounted(s.units, name) { ReturnKeeps(s, c, Conflict); }
        else { GotoKeeps(s, c, StorageDeleteStore(name)); }
      case StorageDeleteStore(_) =>
        if io.Refused? { ReturnKeeps(s, c, Failed); }
        else if name !in s.storages { ReturnKeeps(s, c, NotFound); }
        else { RemovalKeeps(s, c, s.(storages := s.storages - {name}), done); }
    }
  }

  lemma StorageReadKeeps(s: State, c: nat, io: Io)
    requires Inv(s)
    requires var pc := PcOf(s, c); pc.StorageCreateSource? || pc.StorageCreateGet? || pc.StorageUpdateGet? || pc.StorageRecoverGet?
    ensures Inv(UnlockedStep(s, c, PcOf(s, c), io))
  {
    match PcOf(s, c) {
      case StorageCreateSource(name, draft) =>
        if !draft.prepare.FromStorage? { GotoKeeps(s, c, StorageCreateGet(name, draft)); }
        else if draft.prepare.source == name { ReturnKeeps(s, c, Invalid); }
        else if !io.Done? { ReturnKeeps(s, c, Failed); }
        else if draft.prepare.source !in s.storages { ReturnKeeps(s, c, NotFound); }
        else { GotoKeeps(s, c, StorageCreateGet(name, draft)); }
      case StorageCreateGet(name, draft) =>
        if !io.Done? { ReturnKeeps(s, c, Failed); }
        else if name in s.storages { ReturnKeeps(s, c, Conflict); }
        else { GotoKeeps(s, c, StorageCreateStore(name, draft)); }
      case StorageUpdateGet(name, size, accessor) =>
        if !io.Done? { ReturnKeeps(s, c, Failed); }
        else if name !in s.storages { ReturnKeeps(s, c, NotFound); }
        else {
          var current := s.storages[name];
          var next := NextStorage(current, size, accessor);
          if size < current.spec.size { ReturnKeeps(s, c, Invalid); }
          else if next == current { ReturnKeeps(s, c, Accepted); }
          else { GotoKeeps(s, c, StorageUpdateStore(name, current, next)); }
        }
      case StorageRecoverGet(name, nonce) =>
        if !io.Done? { ReturnKeeps(s, c, Failed); }
        else if name !in s.storages { ReturnKeeps(s, c, NotFound); }
        else if s.storages[name].spec.prepare.NoPrepare? { ReturnKeeps(s, c, Invalid); }
        else { GotoKeeps(s, c, StorageUpdateStore(name, s.storages[name], s.storages[name].(recoveryNonce := nonce))); }
    }
  }

  lemma StorageWriterKeeps(s: State, c: nat, io: Io)
    requires Inv(s)
    requires var pc := PcOf(s, c); pc.StorageCreateStore? || pc.StorageUpdateStore?
    ensures Inv(UnlockedStep(s, c, PcOf(s, c), io))
  {
    var pc := PcOf(s, c);
    assert PcOk(s, pc);
    match pc {
      case StorageCreateStore(name, draft) =>
        if io.Refused? { ReturnKeeps(s, c, Failed); }
        else if name in s.storages { ReturnKeeps(s, c, Conflict); }
        else { StorageWriteKeeps(s, c, StoreStorage(s, name, CreatedStorage(s, draft)), if io.Done? then Created else Failed); }
      case StorageUpdateStore(name, observed, changed) =>
        if io.Refused? { ReturnKeeps(s, c, Failed); }
        else if name !in s.storages { ReturnKeeps(s, c, NotFound); }
        else if s.storages[name].version != observed.version { ReturnKeeps(s, c, Conflict); }
        else { StorageWriteKeeps(s, c, StoreStorage(s, name, changed), if io.Done? then Accepted else Failed); }
    }
  }

  lemma AdvanceKeeps(s: State, c: nat, io: Io)
    requires Inv(s)
    ensures Inv(Apply(s, Advance(c, io)))
  {
    var pc := PcOf(s, c);
    if pc.Idle? || pc.Returned? {
    } else if pc.CreateExist? {
      CreateExistKeeps(s, c, io);
    } else if pc.CreateLock? {
      CreateLockKeeps(s, c, io);
    } else if pc.CreateFind? {
      CreateFindKeeps(s, c, io);
    } else if pc.CreateExclusive? {
      CreateExclusiveKeeps(s, c, io);
    } else if pc.CreateStore? || pc.CreateReread? {
      CreateStoreKeeps(s, c, io);
    } else if pc.UpdateLock? || pc.UpdateGet? || pc.UpdateExist? {
      UpdateReadKeeps(s, c, io);
    } else if pc.UpdateExclusive? {
      UpdateExclusiveKeeps(s, c, io);
    } else if pc.UpdateStore? {
      UpdateStoreKeeps(s, c, io);
    } else if pc.StorageCreateStore? || pc.StorageUpdateStore? {
      StorageWriterKeeps(s, c, io);
    } else if IsStorageWriter(pc) {
      StorageReadKeeps(s, c, io);
    } else {
      DeleteKeeps(s, c, io);
    }
  }

  lemma StepKeeps(s: State, step: Step)
    requires Inv(s)
    ensures Inv(Apply(s, step))
  {
    match step {
      case Invoke(c, call) =>
        var pc := PcOf(s, c);
        if pc.Idle? || pc.Returned? {
          GotoKeeps(s, c, Start(call));
        }
      case Advance(c, io) => AdvanceKeeps(s, c, io);
      case UnitStatusWrite(name) =>
        if name in s.units {
          StatusKeeps(s, name);
        }
      case _ => BackgroundStepKeeps(s, step);
    }
  }

  lemma BackgroundStepKeeps(s: State, step: Step)
    requires Inv(s) && (step.StorageStatusWrite? || step.ReconcileClaim? || step.CollectClaim?)
    ensures Inv(Apply(s, step))
  {
    BackgroundVersions(s, step);
    BackgroundKeeps(s, Apply(s, step));
  }

  lemma BackgroundVersions(s: State, step: Step)
    requires VersionsOk(s) && (step.StorageStatusWrite? || step.ReconcileClaim? || step.CollectClaim?)
    ensures var s' := Apply(s, step);
            && s'.units == s.units && s'.holder == s.holder && s'.pcs == s.pcs && s.clock <= s'.clock
            && StoragesMove(s, s') && VersionsOk(s')
  {
  }

  lemma StatusKeeps(s: State, name: string)
    requires Inv(s) && name in s.units
    ensures Inv(StoreUpdateUnit(s, name, s.units[name]))
  {
    var s' := StoreUpdateUnit(s, name, s.units[name]);
    forall d: nat ensures PcOk(s', PcOf(s', d)) {
      OthersKept(s, s', PcOf(s, d));
    }
    forall a, b, m | a in s'.units && b in s'.units && m in s'.units[a].spec.mounts && m in s'.units[b].spec.mounts
      ensures a == b
    {
      assert m in s.units[a].spec.mounts && m in s.units[b].spec.mounts;
    }
  }

  lemma BackgroundKeeps(s: State, s': State)
    requires Inv(s) && s'.units == s.units && s'.holder == s.holder && s'.pcs == s.pcs && s.clock <= s'.clock
    requires StoragesMove(s, s') && VersionsOk(s')
    ensures Inv(s')
  {
    forall d: nat ensures PcOk(s', PcOf(s', d)) {
      OthersKept(s, s', PcOf(s, d));
    }
  }

  lemma {:induction false} RunKeeps(steps: seq<Step>)
    ensures Inv(Run(Init(), steps))
  {
    if steps != [] {
      RunKeeps(steps[..|steps| - 1]);
      StepKeeps(Run(Init(), steps[..|steps| - 1]), steps[|steps| - 1]);
    }
  }

  // -------------------------------------------------------------- main results

  /** Under every interleaving of the store calls of any number of clients, no storage is
      mounted by two live units and no two live units share an operation ID (names are the
      store's keys). */
  lemma MountsAndOperationsStayDistinct(steps: seq<Step>)
    ensures var units := Run(Init(), steps).units; Exclusive(units) && DistinctOperations(units)
  {
    RunKeeps(steps);
  }

  /** Whenever a create call writes, no live unit has its operation ID, its name or any of
      its mounts: a replay, or a reuse of the operation ID with another payload, never
      creates a second unit. */
  lemma CreateWritesOnlyFresh(steps: seq<Step>, c: nat)
    requires PcOf(Run(Init(), steps), c).CreateStore?
    ensures var s := Run(Init(), steps);
            var req := PcOf(s, c).request;
            && !OperationLive(s.units, req.operationID)
            && req.name !in s.units
            && forall n, m :: n in s.units && m in s.units[n].spec.mounts ==> m !in req.mounts
  {
    RunKeeps(steps);
    var s := Run(Init(), steps);
    assert PcOk(s, PcOf(s, c));
    FreshMounts(s.units, PcOf(s, c).request);
  }

  /** No step of any run makes a storage smaller, although storage updates take no lock: a
      concurrent update makes the other one stale. */
  lemma StorageSizeNeverDecreases(steps: seq<Step>, step: Step, name: string)
    ensures var s := Run(Init(), steps);
            var s' := Apply(s, step);
            name in s.storages && name in s'.storages ==>
              && s'.storages[name].uid == s.storages[name].uid
              && s'.storages[name].spec.size >= s.storages[name].spec.size
  {
    RunKeeps(steps);
    var s := Run(Init(), steps);
    if step.Advance? {
      assert PcOk(s, PcOf(s, step.client));
      StorageStep(s, step.client, step.io, name);
    }
  }

  ghost predicate Grows(s: State, s': State, name: string) {
    name in s.storages && name in s'.storages ==>
      && s'.storages[name].uid == s.storages[name].uid
      && s'.storages[name].spec.size >= s.storages[name].spec.size
  }

  lemma UnlockedGrows(s: State, c: nat, pc: Pc, io: Io, name: string)
    requires PcOk(s, pc) && (pc.DeleteGet? || pc.DeleteStore? || pc.StorageDeleteGet? || pc.StorageDeleteList?
                             || pc.StorageDeleteStore? || IsStorageWriter(pc))
    ensures Grows(s, UnlockedStep(s, c, pc, io), name)
  {
  }

  lemma StorageStep(s: State, c: nat, io: Io, name: string)
    requires PcOk(s, PcOf(s, c))
    ensures Grows(s, Apply(s, Advance(c, io)), name)
  {
    var pc := PcOf(s, c);
    if pc.DeleteGet? || pc.DeleteStore? || pc.StorageDeleteGet? || pc.StorageDeleteList? || pc.StorageDeleteStore?
       || IsStorageWriter(pc)
    {
      UnlockedGrows(s, c, pc, io, name);
    }
  }

  /** Hence the claim's request never decreases while its owner lives. */
  lemma ClaimRequestNeverDecreases(steps: seq<Step>, step: Step, name: string)
    requires var s := Run(Init(), steps);
             name in s.claims && name in s.storages && s.storages[name].uid == s.claims[name].owner
    ensures var s := Run(Init(), steps);
            var s' := Apply(s, step);
            name in s'.claims && s'.claims[name].request >= s.claims[name].request
  {
    RunKeeps(steps);
    ClaimStep(Run(Init(), steps), step, name);
  }

  lemma ClaimStep(s: State, step: Step, name: string)
    requires name in s.claims && name in s.storages && s.storages[name].uid == s.claims[name].owner && ClaimFits(s, name)
    ensures var s' := Apply(s, step); name in s'.claims && s'.claims[name].request >= s.claims[name].request
  {
  }

  lemma Extend(steps: seq<Step>, step: Step)
    ensures Run(Init(), steps + [step]) == Apply(Run(Init(), steps), step)
  {
    assert (steps + [step])[..|steps|] == steps;
  }

  lemma RunThree(steps: seq<Step>, a: Step, b: Step, c: Step) returns (longer: seq<Step>)
    ensures Run(Init(), longer) == Apply(Apply(Apply(Run(Init(), steps), a), b), c)
  {
    Extend(steps, a);
    Extend(steps + [a], b);
    Extend(steps + [a] + [b], c);
    longer := steps + [a] + [b] + [c];
  }

  const DISK := StorageSpec(1, false, NoPrepare)

  /** Client 0 creates the storage "disk" without interference. */
  lemma DiskCreated(before: seq<Step>, draft: StorageSpec) returns (steps: seq<Step>)
    requires var s := Run(Init(), before);
             "disk" !in s.storages && draft.prepare.NoPrepare? && s.holder.None? && (PcOf(s, 0).Idle? || PcOf(s, 0).Returned?)
    ensures var s := Run(Init(), before);
            var s' := Run(Init(), steps);
            && s'.storages == s.storages["disk" := CreatedStorage(s, draft)]
            && s'.units == s.units && s'.claims == s.claims && s'.holder == s.holder
            && PcOf(s', 0).Returned? && PcOf(s', 1) == PcOf(s, 1)
  {
    steps := RunThree(before, Invoke(0, CreateStorage("disk", draft)), Advance(0, Done), Advance(0, Done));
    CreatingDisk(Run(Init(), before), draft);
    Extend(steps, Advance(0, Done));
    StoringDisk(Run(Init(), before), draft);
    steps := steps + [Advance(0, Done)];
  }

  lemma StoringDisk(s: State, draft: StorageSpec)
    requires "disk" !in s.storages && s.holder.None?
    ensures var s' := Apply(Goto(s, 0, StorageCreateStore("disk", draft)), Advance(0, Done));
            && s'.storages == s.storages["disk" := CreatedStorage(s, draft)]
            && s'.units == s.units && s'.claims == s.claims && s'.holder == s.holder
            && PcOf(s', 0).Returned? && PcOf(s', 1) == PcOf(s, 1)
  {
    var at := Goto(s, 0, StorageCreateStore("disk", draft));
    assert Apply(at, Advance(0, Done)) == Return(StoreStorage(at, "disk", CreatedStorage(at, draft)), 0, Created);
  }

  lemma CreatingDisk(s: State, draft: StorageSpec)
    requires "disk" !in s.storages && draft.prepare.NoPrepare? && (PcOf(s, 0).Idle? || PcOf(s, 0).Returned?)
    ensures Apply(Apply(Apply(s, Invoke(0, CreateStorage("disk", draft))), Advance(0, Done)), Advance(0, Done))
            == Goto(s, 0, StorageCreateStore("disk", draft))
  {
    var s1 := Goto(s, 0, StorageCreateSource("disk", draft));
    assert Apply(s, Invoke(0, CreateStorage("disk", draft))) == s1;
    var s2 := Goto(s1, 0, StorageCreateGet("disk", draft));
    assert Apply(s1, Advance(0, Done)) == s2;
    assert s2.pcs[0 := StorageCreateStore("disk", draft)] == s.pcs[0 := StorageCreateStore("disk", draft)];
  }

  /** Client 0 asks to delete "disk"; only the Delete call itself is still to come. */
  lemma DiskDeleting(before: seq<Step>) returns (steps: seq<Step>)
    requires var s := Run(Init(), before);
             "disk" in s.storages && !Mounted(s.units, "disk") && PcOf(s, 0).Returned?
    ensures var s := Run(Init(), before);
            var s' := Run(Init(), steps);
            && s'.storages == s.storages && s'.units == s.units && s'.claims == s.claims && s'.holder == s.holder
            && PcOf(s', 0) == StorageDeleteStore("disk") && PcOf(s', 1) == PcOf(s, 1)
  {
    steps := RunThree(before, Invoke(0, DeleteStorage("disk")), Advance(0, Done), Advance(0, Done));
    var s1 := Apply(Run(Init(), before), Invoke(0, DeleteStorage("disk")));
    assert PcOf(s1, 0) == StorageDeleteGet("disk") && s1.units == Run(Init(), before).units;
  }
}
