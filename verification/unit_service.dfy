/** The unit and storage service with each call taken as one step
    (pkg/service/unit_service.go, unit_inventory.go and storage.go). */
module UnitService {
  import opened Text
  import opened UnitStore

  datatype Store = Store(units: map<string, Unit>, storages: map<string, Storage>, clock: nat)

  predicate AllExist(st: Store, mounts: seq<string>) {
    forall m :: m in mounts ==> m in st.storages
  }

  predicate AllFree(st: Store, mounts: seq<string>, except: string) {
    forall m :: m in mounts ==> !MountedByOther(st.units, m, except)
  }

  // ------------------------------------------------------------ what calls mean

  ghost function CreateUnitCall(st: Store, req: Request): (Store, Response) {
    if req.name == "" then (st, Invalid)
    else if !AllExist(st, req.mounts) then (st, NotFound)
    else
      var found := FindExisting(st.units, req);
      if found.Some? then (st, found.value)
      else if !AllFree(st, req.mounts, "") then (st, Conflict)
      else (st.(units := st.units[req.name := UnitFor(req, st.clock + 1)], clock := st.clock + 1), Created)
  }

  /** A create call whose search for an existing unit came to this. */
  function CreateAfter(st: Store, req: Request, found: Option<Response>): (Store, Response) {
    if req.name == "" then (st, Invalid)
    else if !AllExist(st, req.mounts) then (st, NotFound)
    else if found.Some? then (st, found.value)
    else if !AllFree(st, req.mounts, "") then (st, Conflict)
    else (st.(units := st.units[req.name := UnitFor(req, st.clock + 1)], clock := st.clock + 1), Created)
  }

  function UpdateUnitCall(st: Store, name: string, change: Change): (Store, Response) {
    if name !in st.units then (st, NotFound)
    else if !AllExist(st, NewMounts(change)) then (st, NotFound)
    else if !AllFree(st, NewMounts(change), name) then (st, Conflict)
    else
      var next := st.units[name].(spec := Next(st.units[name], change), version := st.clock + 1);
      if next.spec == st.units[name].spec then (st, Accepted)
      else (st.(units := st.units[name := next], clock := st.clock + 1), Accepted)
  }

  function DeleteUnitCall(st: Store, name: string): (Store, Response) {
    if name !in st.units then (st, NotFound) else (st.(units := st.units - {name}), Accepted)
  }

  function WriteStorage(st: Store, name: string, storage: Storage): Store {
    st.(storages := st.storages[name := storage.(version := st.clock + 1)], clock := st.clock + 1)
  }

  function CreateStorageCall(st: Store, name: string, draft: StorageSpec): (Store, Response) {
    if draft.prepare.FromStorage? && draft.prepare.source == name then (st, Invalid)
    else if draft.prepare.FromStorage? && draft.prepare.source !in st.storages then (st, NotFound)
    else if name in st.storages then (st, Conflict)
    else (WriteStorage(st, name, Storage(st.clock + 1, draft, "", 0)), Created)
  }

  function UpdateStorageCall(st: Store, name: string, size: int, accessor: Option<bool>): (Store, Response) {
    if name !in st.storages then (st, NotFound)
    else if size < st.storages[name].spec.size then (st, Invalid)
    else if NextStorage(st.storages[name], size, accessor) == st.storages[name] then (st, Accepted)
    else (WriteStorage(st, name, NextStorage(st.storages[name], size, accessor)), Accepted)
  }

  function RecoverStorageCall(st: Store, name: string, nonce: string): (Store, Response) {
    if name !in st.storages then (st, NotFound)
    else if st.storages[name].spec.prepare.NoPrepare? then (st, Invalid)
    else (WriteStorage(st, name, st.storages[name].(recoveryNonce := nonce)), Accepted)
  }

  function DeleteStorageCall(st: Store, name: string): (Store, Response) {
    if name !in st.storages then (st, NotFound)
    else if Mounted(st.units, name) then (st, Conflict)
    else (st.(storages := st.storages - {name}), Accepted)
  }

  ghost function Perform(st: Store, call: Call): (Store, Response) {
    match call
    case CreateUnit(req) => CreateUnitCall(st, req)
    case UpdateUnit(name, change) => UpdateUnitCall(st, name, change)
    case DeleteUnit(name) => DeleteUnitCall(st, name)
    case CreateStorage(name, draft) => CreateStorageCall(st, name, draft)
    case UpdateStorage(name, size, accessor) => UpdateStorageCall(st, name, size, accessor)
    case RecoverStorage(name, nonce) => RecoverStorageCall(st, name, nonce)
    case DeleteStorage(name) => DeleteStorageCall(st, name)
  }

  ghost function Run(st: Store, calls: seq<Call>): Store {
    if calls == [] then st else Perform(Run(st, calls[..|calls| - 1]), calls[|calls| - 1]).0
  }

  const EMPTY := Store(map[], map[], 0)

  // ------------------------------------------------------------- the program

  /** For every mounted storage, the sorted names of the units that mount it. */
  ghost predicate IsMountIndex(units: map<string, Unit>, index: map<string, seq<string>>) {
    && (forall k :: k in index <==> Mounted(units, k))
    && (forall k, n :: k in index ==> (n in index[k] <==> n in units && k in units[n].spec.mounts))
    && (forall k :: k in index ==> SortedBy(index[k], Itself))
  }

  /** The service over the object store it reads and writes. */
  class Service {
    var units: map<string, Unit>
    var storages: map<string, Storage>
    var clock: nat

    constructor ()
      ensures Contents() == EMPTY
    {
      units, storages, clock := map[], map[], 0;
    }

    function Contents(): Store
      reads this
    {
      Store(units, storages, clock)
    }

    method ListUnits() returns (items: seq<string>)
      ensures forall n :: n in items <==> n in units
    {
      items := [];
      var rest := units.Keys;
      while rest != {}
        invariant rest <= units.Keys
        invariant forall n :: n in items <==> n in units && n !in rest
      {
        var n :| n in rest;
        items := items + [n];
        rest := rest - {n};
      }
    }

    method StorageMountIndex() returns (index: map<string, seq<string>>)
      ensures IsMountIndex(units, index)
    {
      index := map[];
      var items := ListUnits();
      for i := 0 to |items|
        invariant forall k, n :: k in index ==> (n in index[k] <==> n in items[..i] && k in units[n].spec.mounts)
        invariant forall k, n :: n in items[..i] && k in units[n].spec.mounts ==> k in index
        invariant forall k :: k in index ==> index[k] != []
      {
        assert items[..i + 1] == items[..i] + [items[i]];
        index := AddUnit(index, items[i], units[items[i]].spec.mounts);
      }
      assert items[..|items|] == items;
      forall k ensures k in index <==> Mounted(units, k) {
        if k in index {
          var n := index[k][0];
          assert n in index[k] && n in units && k in units[n].spec.mounts;
        }
      }
      index := SortEntries(index);
    }

    /** Append one unit to the entries of everything it mounts. */
    static method AddUnit(before: map<string, seq<string>>, name: string, mounts: seq<string>)
      returns (index: map<string, seq<string>>)
      requires forall k :: k in before ==> before[k] != []
      ensures forall k :: k in index <==> k in before || k in mounts
      ensures forall k :: k in index ==> index[k] != []
      ensures forall k, n :: k in index ==> (n in index[k] <==> (k in before && n in before[k]) || (n == name && k in mounts))
    {
      index := before;
      for m := 0 to |mounts|
        invariant forall k :: k in index <==> k in before || k in mounts[..m]
        invariant forall k :: k in index ==> index[k] != []
        invariant forall k, n :: k in index ==>
                    (n in index[k] <==> (k in before && n in before[k]) || (n == name && k in mounts[..m]))
      {
        assert mounts[..m + 1] == mounts[..m] + [mounts[m]];
        index := Append(index, mounts[m], name);
      }
      assert mounts[..|mounts|] == mounts;
    }

    static function Append(index: map<string, seq<string>>, key: string, name: string): (r: map<string, seq<string>>)
      ensures r.Keys == index.Keys + {key}
      ensures r[key] != []
      ensures forall n :: n in r[key] <==> n == name || (key in index && n in index[key])
    {
      index[key := (if key in index then index[key] else []) + [name]]
    }

    static method SortEntries(entries: map<string, seq<string>>) returns (index: map<string, seq<string>>)
      ensures index.Keys == entries.Keys
      ensures forall k :: k in index ==> SortedBy(index[k], Itself) && multiset(index[k]) == multiset(entries[k])
      ensures forall k, n :: k in index ==> (n in index[k] <==> n in entries[k])
    {
      index := entries;
      var rest := entries.Keys;
      while rest != {}
        invariant index.Keys == entries.Keys && rest <= entries.Keys
        invariant forall k :: k in rest ==> index[k] == entries[k]
        invariant forall k :: k in index && k !in rest ==> SortedBy(index[k], Itself)
        invariant forall k :: k in index ==> multiset(index[k]) == multiset(entries[k])
      {
        var key :| key in rest;
        index := index[key := SortOn(index[key], Itself)];
        rest := rest - {key};
      }
      forall k | k in index ensures forall n :: n in index[k] <==> n in entries[k] {
        MembersOf(index[k], entries[k]);
      }
    }

    method EnsureStoragesExist(mounts: seq<string>) returns (ok: bool)
      ensures ok == AllExist(Contents(), mounts)
    {
      for i := 0 to |mounts|
        invariant forall j :: 0 <= j < i ==> mounts[j] in storages
      {
        if mounts[i] !in storages {
          return false;
        }
      }
      return true;
    }

    method EnsureExclusivelyMountable(unitName: string, mounts: seq<string>) returns (ok: bool)
      ensures ok == AllFree(Contents(), mounts, unitName)
    {
      for i := 0 to |mounts|
        invariant forall j :: 0 <= j < i ==> !MountedByOther(units, mounts[j], unitName)
      {
        var index := StorageMountIndex();
        var mountedBy := if mounts[i] in index then index[mounts[i]] else [];
        for j := 0 to |mountedBy|
          invariant forall l :: 0 <= l < j ==> mountedBy[l] == unitName
        {
          if mountedBy[j] == unitName {
            continue;
          }
          SomeOtherMounts(index, mounts[i], mountedBy[j], unitName);
          return false;
        }
        OnlyMounter(index, mounts[i], unitName);
      }
      return true;
    }

    lemma SomeOtherMounts(index: map<string, seq<string>>, storage: string, n: string, unitName: string)
      requires IsMountIndex(units, index) && storage in index && n in index[storage] && n != unitName
      ensures MountedByOther(units, storage, unitName)
    {
      assert n in units && storage in units[n].spec.mounts;
    }

    lemma OnlyMounter(index: map<string, seq<string>>, storage: string, unitName: string)
      requires IsMountIndex(units, index)
      requires storage in index ==> forall n :: n in index[storage] ==> n == unitName
      ensures !MountedByOther(units, storage, unitName)
    {
      forall n | n in units && storage in units[n].spec.mounts ensures n == unitName {
        assert Mounted(units, storage);
      }
    }

    /** findExistingGPUUnitOperation: first by operation ID, then by name. */
    method FindExistingOperation(req: Request) returns (found: Option<Response>)
      ensures Finds(units, req, found)
      ensures DistinctOperations(units) ==> found == FindExisting(units, req)
    {
      var items := ListUnits();
      for i := 0 to |items|
        invariant forall j :: 0 <= j < i ==> units[items[j]].operationID != req.operationID
      {
        var item := items[i];
        if units[item].operationID == req.operationID {
          return Some(if units[item].requestHash != req then Conflict else Existing(item));
        }
      }
      assert !OperationLive(units, req.operationID);
      for i := 0 to |items|
        invariant forall j :: 0 <= j < i ==> items[j] != req.name
      {
        if items[i] == req.name {
          return Some(Conflict);
        }
      }
      return None;
    }

    /** Whatever the listing holds, two live units of one operation included, the call does
        what its branches say with an answer that the listing justifies. */
    method CreateGPUUnit(req: Request) returns (response: Response)
      modifies this
      ensures exists found :: Finds(old(units), req, found) && (Contents(), response) == CreateAfter(old(Contents()), req, found)
      ensures DistinctOperations(old(units)) ==> (Contents(), response) == CreateUnitCall(old(Contents()), req)
    {
      assert Finds(units, req, FindExisting(units, req));
      if req.name == "" {
        return Invalid;
      }
      var exist := EnsureStoragesExist(req.mounts);
      if !exist {
        return NotFound;
      }
      var found := FindExistingOperation(req);
      assert Finds(old(units), req, found);
      if found.Some? {
        return found.value;
      }
      var free := EnsureExclusivelyMountable("", req.mounts);
      if !free {
        return Conflict;
      }
      clock := clock + 1;
      units := units[req.name := UnitFor(req, clock)];
      return Created;
    }

    method UpdateGPUUnit(name: string, change: Change) returns (response: Response)
      modifies this
      ensures (Contents(), response) == UpdateUnitCall(old(Contents()), name, change)
    {
      if name !in units {
        return NotFound;
      }
      var instance := units[name];
      var next := instance.spec;
      if change.config.Some? {
        next := next.(config := change.config.value);
      }
      if change.mounts.Some? {
        var exist := EnsureStoragesExist(change.mounts.value);
        if !exist {
          return NotFound;
        }
        var free := EnsureExclusivelyMountable(name, change.mounts.value);
        if !free {
          return Conflict;
        }
        next := next.(mounts := change.mounts.value);
      }
      if instance.spec == next {
        return Accepted;
      }
      clock := clock + 1;
      units := units[name := instance.(spec := next, version := clock)];
      return Accepted;
    }

    method DeleteGPUUnit(name: string) returns (response: Response)
      modifies this`units
      ensures (Contents(), response) == DeleteUnitCall(old(Contents()), name)
    {
      if name !in units {
        return NotFound;
      }
      units := units - {name};
      return Accepted;
    }

    method UpdateObject(name: string, storage: Storage)
      modifies this`storages, this`clock
      ensures Contents() == WriteStorage(old(Contents()), name, storage)
    {
      clock := clock + 1;
      storages := storages[name := storage.(version := clock)];
    }

    method CreateGPUStorage(name: string, draft: StorageSpec) returns (response: Response)
      modifies this`storages, this`clock
      ensures (Contents(), response) == CreateStorageCall(old(Contents()), name, draft)
    {
      if draft.prepare.FromStorage? {
        if draft.prepare.source == name {
          return Invalid;
        }
        if draft.prepare.source !in storages {
          return NotFound;
        }
      }
      if name in storages {
        return Conflict;
      }
      UpdateObject(name, Storage(clock + 1, draft, "", 0));
      return Created;
    }

    method UpdateGPUStorage(name: string, size: int, accessor: Option<bool>) returns (response: Response)
      modifies this`storages, this`clock
      ensures (Contents(), response) == UpdateStorageCall(old(Contents()), name, size, accessor)
    {
      if name !in storages {
        return NotFound;
      }
      var storage := storages[name];
      var current := storage.spec.size;
      var accessorChanged := accessor.Some? && storage.spec.accessor != accessor.value;
      if accessorChanged {
        storage := storage.(spec := storage.spec.(accessor := accessor.value));
      }
      if size < current {
        return Invalid;
      }
      if size == current {
        if accessorChanged {
          UpdateObject(name, storage);
        }
        return Accepted;
      }
      UpdateObject(name, storage.(spec := storage.spec.(size := size)));
      return Accepted;
    }

    method RecoverGPUStorage(name: string, nonce: string) returns (response: Response)
      modifies this`storages, this`clock
      ensures (Contents(), response) == RecoverStorageCall(old(Contents()), name, nonce)
    {
      if name !in storages {
        return NotFound;
      }
      if storages[name].spec.prepare.NoPrepare? {
        return Invalid;
      }
      UpdateObject(name, storages[name].(recoveryNonce := nonce));
      return Accepted;
    }

    method DeleteGPUStorage(name: string) returns (response: Response)
      modifies this`storages
      ensures (Contents(), response) == DeleteStorageCall(old(Contents()), name)
    {
      if name !in storages {
        return NotFound;
      }
      var index := StorageMountIndex();
      var mountedBy := if name in index then index[name] else [];
      if |mountedBy| > 0 {
        assert mountedBy[0] in mountedBy;
        return Conflict;
      }
      storages := storages - {name};
      return Accepted;
    }
  }
}
