/** What the unit and storage service keeps over every run of whole calls, and what becomes of
    a unit over such a run. */
module UnitTheorems {
  import opened Text
  import opened UnitStore
  import opened UnitService

  /** Every mount names a storage that exists. */
  ghost predicate MountsExist(st: Store) {
    forall n, m :: n in st.units && m in st.units[n].spec.mounts ==> m in st.storages
  }

  /** A unit remembers the request it was created from. */
  ghost predicate Remembered(st: Store) {
    forall n :: n in st.units ==> st.units[n].requestHash.name == n && st.units[n].requestHash.operationID == st.units[n].operationID
  }

  ghost predicate Inv(st: Store) {
    && MountsExist(st)
    && Exclusive(st.units)
    && DistinctOperations(st.units)
    && Remembered(st)
    && "" !in st.units
  }

  lemma FreeMounts(st: Store, mounts: seq<string>, except: string)
    requires AllFree(st, mounts, except)
    ensures forall n, m :: n in st.units && n != except && m in st.units[n].spec.mounts ==> m !in mounts
  {
    forall n, m | n in st.units && n != except && m in mounts ensures m !in st.units[n].spec.mounts {
      assert !MountedByOther(st.units, m, except);
    }
  }

  lemma CreateKeeps(st: Store, req: Request)
    requires Inv(st)
    ensures Inv(CreateUnitCall(st, req).0)
  {
    if CreateUnitCall(st, req).1.Created? {
      FreeMounts(st, req.mounts, "");
      assert forall n :: n in st.units ==> st.units[n].operationID != req.operationID;
    }
  }

  lemma UpdateKeeps(st: Store, name: string, change: Change)
    requires Inv(st)
    ensures Inv(UpdateUnitCall(st, name, change).0)
  {
    if UpdateUnitCall(st, name, change).0 != st {
      FreeMounts(st, NewMounts(change), name);
    }
  }

  lemma DeleteStorageKeeps(st: Store, name: string)
    requires Inv(st)
    ensures Inv(DeleteStorageCall(st, name).0)
  {
    if name in st.storages && !Mounted(st.units, name) {
      forall n, m | n in st.units && m in st.units[n].spec.mounts ensures m != name {
        assert name in st.units[n].spec.mounts ==> Mounted(st.units, name);
      }
    }
  }

  lemma PerformKeeps(st: Store, call: Call)
    requires Inv(st)
    ensures Inv(Perform(st, call).0)
  {
    match call {
      case CreateUnit(req) => CreateKeeps(st, req);
      case UpdateUnit(name, change) => UpdateKeeps(st, name, change);
      case DeleteStorage(name) => DeleteStorageKeeps(st, name);
      case _ =>
    }
  }

  lemma {:induction false} RunKeeps(st: Store, calls: seq<Call>)
    requires Inv(st)
    ensures Inv(Run(st, calls))
  {
    if calls != [] {
      RunKeeps(st, calls[..|calls| - 1]);
      PerformKeeps(Run(st, calls[..|calls| - 1]), calls[|calls| - 1]);
    }
  }

  // -------------------------------------------------------------- main results

  /** With each call taken as one step, in every run every mount of every unit names an
      existing storage, and no storage is mounted twice. */
  lemma MountsAlwaysExist(calls: seq<Call>)
    ensures MountsExist(Run(EMPTY, calls)) && Exclusive(Run(EMPTY, calls).units)
  {
    RunKeeps(EMPTY, calls);
  }

  /** A live unit of an operation: what any later create call with that operation ID gets. */
  lemma ReplayOfLiveUnit(st: Store, n: string, req: Request)
    requires Inv(st) && n in st.units && st.units[n].operationID == req.operationID && req.name != ""
    ensures CreateUnitCall(st, req) ==
            (st, if !AllExist(st, req.mounts) then NotFound
                 else if st.units[n].requestHash == req then Existing(n) else Conflict)
  {
    assert OperationLive(st.units, req.operationID);
  }

  /** While nobody deletes the unit, it stays the live unit of its operation and request,
      whatever else happens, updates of the unit itself included. */
  lemma {:induction false} UnitStays(st: Store, more: seq<Call>, req: Request)
    requires Inv(st) && req.name in st.units && st.units[req.name].requestHash == req
    requires DeleteUnit(req.name) !in more
    ensures var last := Run(st, more); req.name in last.units && last.units[req.name].requestHash == req
  {
    if more != [] {
      var before, call := more[..|more| - 1], more[|more| - 1];
      assert call in more;
      RunKeeps(st, before);
      UnitStays(st, before, req);
      UnitStaysOneCall(Run(st, before), call, req);
    }
  }

  lemma UnitStaysOneCall(st: Store, call: Call, req: Request)
    requires Inv(st) && req.name in st.units && st.units[req.name].requestHash == req && call != DeleteUnit(req.name)
    ensures var last := Perform(st, call).0; req.name in last.units && last.units[req.name].requestHash == req
  {
  }

  /** Create is idempotent over runs.  After a successful create and any further calls that
      do not delete the unit, replaying the request changes nothing and returns that unit,
      exactly when the storages of the request are still there; otherwise it reports the
      missing storage. */
  lemma ReplayIsIdempotent(calls: seq<Call>, more: seq<Call>, req: Request)
    requires CreateUnitCall(Run(EMPTY, calls), req).1 == Created
    requires DeleteUnit(req.name) !in more
    ensures var st := Run(CreateUnitCall(Run(EMPTY, calls), req).0, more);
            CreateUnitCall(st, req) == (st, if AllExist(st, req.mounts) then Existing(req.name) else NotFound)
  {
    var created := CreateUnitCall(Run(EMPTY, calls), req).0;
    RunKeeps(EMPTY, calls);
    PerformKeeps(Run(EMPTY, calls), CreateUnit(req));
    RunKeeps(created, more);
    UnitStays(created, more, req);
    ReplayOfLiveUnit(Run(created, more), req.name, req);
  }

  /** The same operation ID with any other request never creates a unit and changes
      nothing, as long as the first unit is live. */
  lemma OtherRequestNeverCreates(calls: seq<Call>, more: seq<Call>, req: Request, other: Request)
    requires CreateUnitCall(Run(EMPTY, calls), req).1 == Created
    requires DeleteUnit(req.name) !in more
    requires other != req && other.operationID == req.operationID
    ensures var st := Run(CreateUnitCall(Run(EMPTY, calls), req).0, more);
            CreateUnitCall(st, other) ==
            (st, if other.name == "" then Invalid else if AllExist(st, other.mounts) then Conflict else NotFound)
  {
    var created := CreateUnitCall(Run(EMPTY, calls), req).0;
    RunKeeps(EMPTY, calls);
    PerformKeeps(Run(EMPTY, calls), CreateUnit(req));
    RunKeeps(created, more);
    UnitStays(created, more, req);
    if other.name != "" {
      ReplayOfLiveUnit(Run(created, more), req.name, other);
    }
  }

  /** The condition of the replay theorem is needed: an update may drop a mount of the
      request, after which its storage can be deleted, and the replay of a live unit fails. */
  lemma ReplayFailsWithoutItsStorage(req: Request)
    requires req.name != "" && req.mounts == ["disk"]
    ensures var calls := [CreateStorage("disk", StorageSpec(1, false, NoPrepare)), CreateUnit(req),
                          UpdateUnit(req.name, Change(Some([]), None)), DeleteStorage("disk")];
            var st := Run(EMPTY, calls);
            req.name in st.units && CreateUnitCall(st, req) == (st, NotFound)
  {
    var calls := [CreateStorage("disk", StorageSpec(1, false, NoPrepare)), CreateUnit(req),
                  UpdateUnit(req.name, Change(Some([]), None)), DeleteStorage("disk")];
    assert calls[..3][..2] == calls[..2] && calls[..2][..1] == calls[..1] && calls[..1][..0] == [];
    var s1 := Run(EMPTY, calls[..1]);
    assert Run(EMPTY, calls[..0]) == EMPTY && s1 == CreateStorageCall(EMPTY, "disk", StorageSpec(1, false, NoPrepare)).0;
    assert s1.storages.Keys == {"disk"} && s1.units == map[];
    var s2 := Run(EMPTY, calls[..2]);
    assert FindExisting(s1.units, req) == None;
    assert s2 == CreateUnitCall(s1, req).0;
    assert AllFree(s1, req.mounts, "");
    assert s2.units.Keys == {req.name} && s2.storages.Keys == {"disk"} && s2.units[req.name].spec.mounts == ["disk"];
    var s3 := Run(EMPTY, calls[..3]);
    assert s3 == UpdateUnitCall(s2, req.name, Change(Some([]), None)).0;
    assert s3.units[req.name].spec.mounts == [] && s3.units.Keys == {req.name} && s3.storages.Keys == {"disk"};
    var s4 := Run(EMPTY, calls);
    assert s4 == DeleteStorageCall(s3, "disk").0 && !Mounted(s3.units, "disk");
    assert s4.storages.Keys == {} && "disk" in req.mounts;
  }

  /** A create call creates exactly if the name is given and free, the storages exist, no
      live unit has its operation ID, and no live unit mounts any of its storages. */
  lemma CreatedExactly(st: Store, req: Request)
    ensures CreateUnitCall(st, req).1 == Created <==>
            && req.name != "" && req.name !in st.units
            && !OperationLive(st.units, req.operationID)
            && (forall m :: m in req.mounts ==> m in st.storages && !MountedByOther(st.units, m, ""))
    ensures CreateUnitCall(st, req).1 != Created ==> CreateUnitCall(st, req).0 == st
  {
  }

  // ------------------------------------------------------- what a call carries over

  /** Everything but one unit is as before. */
  ghost predicate OnlyUnit(a: Store, b: Store, name: string) {
    b.storages == a.storages && b.units - {name} == a.units - {name}
  }

  /** A created unit is under the requested name, with the request's operation ID, mounts
      and configuration; nothing else changes. */
  lemma CreatedUnitCarriesRequest(st: Store, req: Request)
    requires CreateUnitCall(st, req).1 == Created
    ensures var st' := CreateUnitCall(st, req).0;
            && req.name !in st.units && req.name in st'.units
            && st'.units[req.name].operationID == req.operationID
            && st'.units[req.name].requestHash == req
            && st'.units[req.name].spec == Spec(req.mounts, req.config)
            && OnlyUnit(st, st', req.name)
  {
  }

  function Changed(spec: Spec, change: Change): Spec {
    Spec(
      if change.mounts.Some? then change.mounts.value else spec.mounts,
      if change.config.Some? then change.config.value else spec.config)
  }

  function AllChanged(spec: Spec, changes: seq<Change>): Spec {
    if changes == [] then spec else Changed(AllChanged(spec, changes[..|changes| - 1]), changes[|changes| - 1])
  }

  /** The changes to the unit that the calls got accepted, in order. */
  ghost function AcceptedChanges(st: Store, calls: seq<Call>, name: string): seq<Change> {
    if calls == [] then []
    else
      var before, last := calls[..|calls| - 1], calls[|calls| - 1];
      AcceptedChanges(st, before, name)
      + if last.UpdateUnit? && last.name == name && Perform(Run(st, before), last).1 == Accepted then [last.change] else []
  }

  /** Over every run: a created unit is what was requested, with the accepted changes applied
      in order and nothing else, until it is deleted; its operation ID and request stay. */
  lemma UnitIsRequestPlusChanges(calls: seq<Call>, more: seq<Call>, req: Request)
    requires CreateUnitCall(Run(EMPTY, calls), req).1 == Created
    requires DeleteUnit(req.name) !in more
    ensures var created := CreateUnitCall(Run(EMPTY, calls), req).0;
            var last := Run(created, more);
            && req.name in last.units
            && last.units[req.name].operationID == req.operationID && last.units[req.name].requestHash == req
            && last.units[req.name].spec == AllChanged(Spec(req.mounts, req.config), AcceptedChanges(created, more, req.name))
  {
    var created := CreateUnitCall(Run(EMPTY, calls), req).0;
    CreatedUnitCarriesRequest(Run(EMPTY, calls), req);
    UnitAfter(created, more, req.name);
  }

  lemma {:induction false} UnitAfter(st: Store, more: seq<Call>, name: string)
    requires name in st.units && DeleteUnit(name) !in more
    ensures var last := Run(st, more);
            && name in last.units
            && last.units[name].operationID == st.units[name].operationID
            && last.units[name].requestHash == st.units[name].requestHash
            && last.units[name].spec == AllChanged(st.units[name].spec, AcceptedChanges(st, more, name))
  {
    if more != [] {
      var before, call := more[..|more| - 1], more[|more| - 1];
      assert call in more;
      UnitAfter(st, before, name);
      UnitAfterOne(Run(st, before), call, name);
      AppendChange(st.units[name].spec, AcceptedChanges(st, before, name), call);
    }
  }

  lemma AppendChange(spec: Spec, changes: seq<Change>, call: Call)
    ensures call.UpdateUnit? ==> AllChanged(spec, changes + [call.change]) == Changed(AllChanged(spec, changes), call.change)
    ensures changes + [] == changes
  {
    if call.UpdateUnit? {
      assert (changes + [call.change])[..|changes|] == changes;
    }
  }

  lemma UnitAfterOne(st: Store, call: Call, name: string)
    requires name in st.units && call != DeleteUnit(name)
    ensures var (last, r) := Perform(st, call);
            && name in last.units
            && last.units[name].operationID == st.units[name].operationID
            && last.units[name].requestHash == st.units[name].requestHash
            && last.units[name].spec == (if call.UpdateUnit? && call.name == name && r == Accepted
                                         then Changed(st.units[name].spec, call.change) else st.units[name].spec)
  {
  }

  /** An accepted update sets what was asked for, keeps what was not, and touches only that
      unit; any other response means that nothing changed. */
  lemma UpdateAppliesChange(st: Store, name: string, change: Change)
    ensures var (st', r) := UpdateUnitCall(st, name, change);
            && (r != Accepted ==> st' == st)
            && (r == Accepted ==>
                  && name in st.units && name in st'.units && OnlyUnit(st, st', name)
                  && var u, u' := st.units[name], st'.units[name];
                     && u'.operationID == u.operationID && u'.requestHash == u.requestHash
                     && u'.spec.mounts == (if change.mounts.Some? then change.mounts.value else u.spec.mounts)
                     && u'.spec.config == (if change.config.Some? then change.config.value else u.spec.config))
  {
    var (st', r) := UpdateUnitCall(st, name, change);
    if r == Accepted {
      assert st'.units - {name} == st.units - {name};
    }
  }

  /** A storage update is refused exactly when the storage is missing or would shrink; an
      accepted one leaves the requested size and accessor, and keeps everything else. */
  lemma StorageUpdateApplies(st: Store, name: string, size: int, accessor: Option<bool>)
    ensures var (st', r) := UpdateStorageCall(st, name, size, accessor);
            && (r == Accepted <==> name in st.storages && st.storages[name].spec.size <= size)
            && (r != Accepted ==> st' == st)
            && (r == Accepted ==>
                  && name in st'.storages && st'.units == st.units && st'.storages - {name} == st.storages - {name}
                  && var a, b := st.storages[name], st'.storages[name];
                     && b.uid == a.uid && b.recoveryNonce == a.recoveryNonce && b.spec.prepare == a.spec.prepare
                     && b.spec.size == size
                     && b.spec.accessor == (if accessor.Some? then accessor.value else a.spec.accessor))
  {
    var (st', r) := UpdateStorageCall(st, name, size, accessor);
    if r == Accepted {
      assert st'.storages - {name} == st.storages - {name};
    }
  }
}
