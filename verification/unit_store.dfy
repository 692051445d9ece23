/** The objects the unit and storage service keeps (pkg/service/unit_service.go,
    unit_inventory.go and storage.go), and what its calls look up in them. */
module UnitStore {
  import opened Text

  /** A normalised create request.  The request hash is injective on these, so the model
      stores the request where the program stores its hash. */
  datatype Request = Request(operationID: string, name: string, mounts: seq<string>, config: string)

  datatype Spec = Spec(mounts: seq<string>, config: string)

  datatype Unit = Unit(operationID: string, requestHash: Request, spec: Spec, version: nat)

  datatype Prepare = NoPrepare | FromImage(image: string) | FromStorage(source: string)

  datatype StorageSpec = StorageSpec(size: int, accessor: bool, prepare: Prepare)

  datatype Storage = Storage(uid: nat, spec: StorageSpec, recoveryNonce: string, version: nat)

  /** The persistent volume claim of a storage, with the storage object that owns it. */
  datatype Claim = Claim(owner: nat, request: int)

  /** A normalised update request: absent fields keep what the unit has. */
  datatype Change = Change(mounts: Option<seq<string>>, config: Option<string>)

  datatype Response = Created | Existing(name: string) | Accepted | Conflict | NotFound | Invalid | Failed

  datatype Call =
    | CreateUnit(request: Request)
    | UpdateUnit(name: string, change: Change)
    | DeleteUnit(name: string)
    | CreateStorage(name: string, spec: StorageSpec)
    | UpdateStorage(name: string, size: int, accessor: Option<bool>)
    | RecoverStorage(name: string, nonce: string)
    | DeleteStorage(name: string)

  /** Some unit other than `except` mounts the storage (storageMountIndex). */
  predicate MountedByOther(units: map<string, Unit>, storage: string, except: string) {
    exists n :: n in units && n != except && storage in units[n].spec.mounts
  }

  predicate Mounted(units: map<string, Unit>, storage: string) {
    exists n :: n in units && storage in units[n].spec.mounts
  }

  predicate OperationLive(units: map<string, Unit>, operationID: string) {
    exists n :: n in units && units[n].operationID == operationID
  }

  /** findExistingGPUUnitOperation on one listing: None means that nothing stands in the
      way of a new unit. */
  ghost function FindExisting(units: map<string, Unit>, req: Request): Option<Response> {
    if OperationLive(units, req.operationID) then
      var n :| n in units && units[n].operationID == req.operationID;
      if units[n].requestHash == req then Some(Existing(n)) else Some(Conflict)
    else if req.name in units then Some(Conflict)
    else None
  }

  /** An answer that a listing justifies: the unit of the operation if it was created from this
      request, a conflict if it was created from another or if the name is taken by a unit of
      another operation, and nothing only if neither is there. */
  ghost predicate Finds(units: map<string, Unit>, req: Request, found: Option<Response>) {
    match found
    case None => !OperationLive(units, req.operationID) && req.name !in units
    case Some(Existing(n)) => n in units && units[n].operationID == req.operationID && units[n].requestHash == req
    case Some(Conflict) =>
      || (exists n :: n in units && units[n].operationID == req.operationID && units[n].requestHash != req)
      || (!OperationLive(units, req.operationID) && req.name in units)
    case _ => false
  }

  function UnitFor(req: Request, version: nat): Unit {
    Unit(req.operationID, req, Spec(req.mounts, req.config), version)
  }

  function Next(instance: Unit, change: Change): Spec {
    Spec(
      if change.mounts.Some? then change.mounts.value else instance.spec.mounts,
      if change.config.Some? then change.config.value else instance.spec.config)
  }

  function NewMounts(change: Change): seq<string> {
    if change.mounts.Some? then change.mounts.value else []
  }

  /** applyGPUStorageAccessorSpec followed by the new size. */
  function NextStorage(storage: Storage, size: int, accessor: Option<bool>): Storage {
    var spec := if accessor.Some? then storage.spec.(accessor := accessor.value) else storage.spec;
    storage.(spec := spec.(size := size))
  }

  /** No storage is mounted by two live units. */
  ghost predicate Exclusive(units: map<string, Unit>) {
    forall a, b, m :: a in units && b in units && m in units[a].spec.mounts && m in units[b].spec.mounts ==> a == b
  }

  /** No two live units share an operation ID. */
  ghost predicate DistinctOperations(units: map<string, Unit>) {
    forall a, b :: a in units && b in units && units[a].operationID == units[b].operationID ==> a == b
  }
}
