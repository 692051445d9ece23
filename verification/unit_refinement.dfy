/** A call that runs without interference does exactly what the one-step call does: the
    interleaved machine of UnitInterleaving refines the calls of UnitService. */
module UnitRefinement {
  import opened Text
  import opened UnitStore
  import opened UnitService
  import opened UnitInterleaving

  function StoreOf(s: State): Store {
    Store(s.units, s.storages, s.clock)
  }

  ghost function Alone(s: State, c: nat, n: nat): State
    decreases n
  {
    if n == 0 then s else Alone(Apply(s, Advance(c, Done)), c, n - 1)
  }

  lemma {:induction false} AloneAppend(s: State, c: nat, a: nat, b: nat)
    ensures Alone(s, c, a + b) == Alone(Alone(s, c, a), c, b)
    decreases a
  {
    if a > 0 {
      AloneAppend(Apply(s, Advance(c, Done)), c, a - 1, b);
    }
  }

  /** Alone reaches the state t. */
  ghost predicate Reaches(s: State, c: nat, t: State) {
    exists n: nat :: Alone(s, c, n) == t
  }

  lemma ReachesStep(s: State, c: nat, t: State)
    requires Reaches(Apply(s, Advance(c, Done)), c, t)
    ensures Reaches(s, c, t)
  {
    var n: nat :| Alone(Apply(s, Advance(c, Done)), c, n) == t;
    assert Alone(s, c, n + 1) == t;
  }

  lemma ReachesSelf(s: State, c: nat)
    ensures Reaches(s, c, s)
  {
    assert Alone(s, c, 0) == s;
  }

  lemma ReachesTransitive(s: State, c: nat, t: State, u: State)
    requires Reaches(s, c, t) && Reaches(t, c, u)
    ensures Reaches(s, c, u)
  {
    var a: nat :| Alone(s, c, a) == t;
    var b: nat :| Alone(t, c, b) == u;
    AloneAppend(s, c, a, b);
  }

  lemma GotoGoto(s: State, c: nat, a: Pc, b: Pc)
    ensures Goto(Goto(s, c, a), c, b) == Goto(s, c, b)
  {
    assert s.pcs[c := a][c := b] == s.pcs[c := b];
  }

  /** One step of a client that is at `pc` and moves to `next`. */
  lemma Moves(s: State, c: nat, pc: Pc, next: Pc, t: State)
    requires Apply(Goto(s, c, pc), Advance(c, Done)) == Goto(Goto(s, c, pc), c, next)
    requires Reaches(Goto(s, c, next), c, t)
    ensures Reaches(Goto(s, c, pc), c, t)
  {
    GotoGoto(s, c, pc, next);
    ReachesStep(Goto(s, c, pc), c, t);
  }

  // ------------------------------------------------------------------- create

  lemma {:induction false} ExistenceChecks(s: State, c: nat, req: Request, k: nat)
    requires k <= |req.mounts| && forall j :: 0 <= j < k ==> req.mounts[j] in s.storages
    requires s.holder != Some(c)
    ensures Reaches(Goto(s, c, CreateExist(req, k)), c,
              Goto(s, c, if AllExist(StoreOf(s), req.mounts) then CreateLock(req) else Returned(NotFound)))
    decreases |req.mounts| - k
  {
    var t := Goto(s, c, if AllExist(StoreOf(s), req.mounts) then CreateLock(req) else Returned(NotFound));
    if k == |req.mounts| {
      ReachesSelf(t, c);
      Moves(s, c, CreateExist(req, k), CreateLock(req), t);
    } else if req.mounts[k] !in s.storages {
      assert req.mounts[k] in req.mounts;
      ReachesSelf(t, c);
      Moves(s, c, CreateExist(req, k), Returned(NotFound), t);
    } else {
      ExistenceChecks(s, c, req, k + 1);
      Moves(s, c, CreateExist(req, k), CreateExist(req, k + 1), t);
    }
  }

  /** Inside the mutex: the exclusivity checks from mount k on. */
  lemma {:induction false} ExclusiveChecks(s: State, c: nat, req: Request, k: nat)
    requires k <= |req.mounts| && forall j :: 0 <= j < k ==> !MountedByOther(s.units, req.mounts[j], "")
    requires s.holder == Some(c)
    ensures Reaches(Goto(s, c, CreateExclusive(req, k)), c,
              if AllFree(StoreOf(s), req.mounts, "") then Goto(s, c, CreateStore(req)) else Return(s, c, Conflict))
    decreases |req.mounts| - k
  {
    var t := if AllFree(StoreOf(s), req.mounts, "") then Goto(s, c, CreateStore(req)) else Return(s, c, Conflict);
    if k == |req.mounts| {
      ReachesSelf(t, c);
      Moves(s, c, CreateExclusive(req, k), CreateStore(req), t);
    } else if MountedByOther(s.units, req.mounts[k], "") {
      assert req.mounts[k] in req.mounts;
      GotoGoto(s, c, CreateExclusive(req, k), Returned(Conflict));
      ReachesSelf(t, c);
      ReachesStep(Goto(s, c, CreateExclusive(req, k)), c, t);
    } else {
      ExclusiveChecks(s, c, req, k + 1);
      Moves(s, c, CreateExclusive(req, k), CreateExclusive(req, k + 1), t);
    }
  }

  /** The state in which a call has returned `result`. */
  function Finished(s: State, c: nat, result: (Store, Response)): State {
    Goto(s, c, Returned(result.1)).(units := result.0.units, storages := result.0.storages, clock := result.0.clock)
  }

  lemma CreateInside(s: State, c: nat, req: Request)
    requires s.holder.None? && req.name != "" && AllExist(StoreOf(s), req.mounts)
    ensures Reaches(Goto(s, c, CreateLock(req)), c, Finished(s, c, CreateUnitCall(StoreOf(s), req)))
  {
    var t := Finished(s, c, CreateUnitCall(StoreOf(s), req));
    var h := s.(holder := Some(c));
    var found := FindExisting(s.units, req);
    if found.Some? {
      GotoGoto(s, c, CreateFind(req), Returned(found.value));
      ReachesSelf(t, c);
      ReachesStep(Goto(h, c, CreateFind(req)), c, t);
    } else {
      CreateAfterFind(s, c, req);
      GotoGoto(h, c, CreateFind(req), CreateExclusive(req, 0));
      ReachesStep(Goto(h, c, CreateFind(req)), c, t);
    }
    GotoGoto(s, c, CreateLock(req), CreateFind(req));
    ReachesStep(Goto(s, c, CreateLock(req)), c, t);
  }

  lemma CreateAfterFind(s: State, c: nat, req: Request)
    requires s.holder.None? && req.name != "" && AllExist(StoreOf(s), req.mounts) && FindExisting(s.units, req).None?
    ensures Reaches(Goto(s.(holder := Some(c)), c, CreateExclusive(req, 0)), c, Finished(s, c, CreateUnitCall(StoreOf(s), req)))
  {
    var t := Finished(s, c, CreateUnitCall(StoreOf(s), req));
    var h := s.(holder := Some(c));
    ExclusiveChecks(h, c, req, 0);
    if AllFree(StoreOf(s), req.mounts, "") {
      GotoGoto(s, c, CreateStore(req), Returned(Created));
      ReachesSelf(t, c);
      ReachesStep(Goto(h, c, CreateStore(req)), c, t);
      ReachesTransitive(Goto(h, c, CreateExclusive(req, 0)), c, Goto(h, c, CreateStore(req)), t);
    } else {
      assert Return(h, c, Conflict) == t;
    }
  }

  lemma CreateAlone(s: State, c: nat, req: Request)
    requires s.holder.None?
    ensures Reaches(Goto(s, c, Start(CreateUnit(req))), c, Finished(s, c, CreateUnitCall(StoreOf(s), req)))
  {
    var t := Finished(s, c, CreateUnitCall(StoreOf(s), req));
    if req.name == "" {
      ReachesSelf(t, c);
    } else {
      ExistenceChecks(s, c, req, 0);
      if AllExist(StoreOf(s), req.mounts) {
        CreateInside(s, c, req);
        ReachesTransitive(Goto(s, c, CreateExist(req, 0)), c, Goto(s, c, CreateLock(req)), t);
      }
    }
  }

  // ------------------------------------------------------------------- update

  lemma {:induction false} UpdateExistence(s: State, c: nat, name: string, u: Unit, change: Change, k: nat)
    requires k <= |NewMounts(change)| && forall j :: 0 <= j < k ==> NewMounts(change)[j] in s.storages
    requires s.holder == Some(c)
    ensures Reaches(Goto(s, c, UpdateExist(name, u, change, k)), c,
              if AllExist(StoreOf(s), NewMounts(change)) then Goto(s, c, UpdateExclusive(name, u, change, 0))
              else Return(s, c, NotFound))
    decreases |NewMounts(change)| - k
  {
    var mounts := NewMounts(change);
    var t := if AllExist(StoreOf(s), mounts) then Goto(s, c, UpdateExclusive(name, u, change, 0)) else Return(s, c, NotFound);
    if k == |mounts| {
      ReachesSelf(t, c);
      Moves(s, c, UpdateExist(name, u, change, k), UpdateExclusive(name, u, change, 0), t);
    } else if mounts[k] !in s.storages {
      assert mounts[k] in mounts;
      GotoGoto(s, c, UpdateExist(name, u, change, k), Returned(NotFound));
      ReachesSelf(t, c);
      ReachesStep(Goto(s, c, UpdateExist(name, u, change, k)), c, t);
    } else {
      UpdateExistence(s, c, name, u, change, k + 1);
      Moves(s, c, UpdateExist(name, u, change, k), UpdateExist(name, u, change, k + 1), t);
    }
  }

  /** From the exclusivity checks to the end of the call. */
  lemma {:induction false} UpdateRest(s: State, c: nat, name: string, change: Change, k: nat)
    requires k <= |NewMounts(change)| && forall j :: 0 <= j < k ==> !MountedByOther(s.units, NewMounts(change)[j], name)
    requires s.holder.None? && name in s.units && AllExist(StoreOf(s), NewMounts(change))
    ensures Reaches(Goto(s.(holder := Some(c)), c, UpdateExclusive(name, s.units[name], change, k)), c,
              Finished(s, c, UpdateUnitCall(StoreOf(s), name, change)))
    decreases |NewMounts(change)| - k
  {
    var mounts := NewMounts(change);
    var u := s.units[name];
    var h := s.(holder := Some(c));
    var at := UpdateExclusive(name, u, change, k);
    var t := Finished(s, c, UpdateUnitCall(StoreOf(s), name, change));
    if k < |mounts| && !MountedByOther(s.units, mounts[k], name) {
      UpdateRest(s, c, name, change, k + 1);
      UpdateMovesOn(h, c, name, u, change, k);
      Moves(h, c, at, UpdateExclusive(name, u, change, k + 1), t);
    } else if k < |mounts| {
      UpdateRefused(s, c, name, change, k);
    } else {
      assert AllFree(StoreOf(s), mounts, name);
      UpdateWrite(s, c, name, change);
    }
  }

  lemma UpdateMovesOn(s: State, c: nat, name: string, u: Unit, change: Change, k: nat)
    requires k < |NewMounts(change)| && !MountedByOther(s.units, NewMounts(change)[k], name)
    ensures var at := Goto(s, c, UpdateExclusive(name, u, change, k));
            Apply(at, Advance(c, Done)) == Goto(at, c, UpdateExclusive(name, u, change, k + 1))
  {
  }

  lemma UpdateRefused(s: State, c: nat, name: string, change: Change, k: nat)
    requires k < |NewMounts(change)| && MountedByOther(s.units, NewMounts(change)[k], name)
    requires s.holder.None? && name in s.units && AllExist(StoreOf(s), NewMounts(change))
    ensures Reaches(Goto(s.(holder := Some(c)), c, UpdateExclusive(name, s.units[name], change, k)), c,
              Finished(s, c, UpdateUnitCall(StoreOf(s), name, change)))
  {
    var at := UpdateExclusive(name, s.units[name], change, k);
    var t := Finished(s, c, UpdateUnitCall(StoreOf(s), name, change));
    assert NewMounts(change)[k] in NewMounts(change);
    GotoGoto(s, c, at, Returned(Conflict));
    ReachesSelf(t, c);
    ReachesStep(Goto(s.(holder := Some(c)), c, at), c, t);
  }

  lemma UpdateWrite(s: State, c: nat, name: string, change: Change)
    requires s.holder.None? && name in s.units
    requires AllExist(StoreOf(s), NewMounts(change)) && AllFree(StoreOf(s), NewMounts(change), name)
    ensures Reaches(Goto(s.(holder := Some(c)), c, UpdateExclusive(name, s.units[name], change, |NewMounts(change)|)), c,
              Finished(s, c, UpdateUnitCall(StoreOf(s), name, change)))
  {
    var u := s.units[name];
    var h := s.(holder := Some(c));
    var at := UpdateExclusive(name, u, change, |NewMounts(change)|);
    var t := Finished(s, c, UpdateUnitCall(StoreOf(s), name, change));
    if Next(u, change) == u.spec {
      GotoGoto(s, c, at, Returned(Accepted));
      ReachesSelf(t, c);
      ReachesStep(Goto(h, c, at), c, t);
    } else {
      var store := UpdateStore(name, u, Next(u, change));
      GotoGoto(s, c, store, Returned(Accepted));
      ReachesSelf(t, c);
      ReachesStep(Goto(h, c, store), c, t);
      Moves(h, c, at, store, t);
    }
  }

  lemma UpdateAlone(s: State, c: nat, name: string, change: Change)
    requires s.holder.None?
    ensures Reaches(Goto(s, c, Start(UpdateUnit(name, change))), c, Finished(s, c, UpdateUnitCall(StoreOf(s), name, change)))
  {
    var t := Finished(s, c, UpdateUnitCall(StoreOf(s), name, change));
    var h := s.(holder := Some(c));
    if name in s.units {
      UpdateFound(s, c, name, change);
      Moves(h, c, UpdateGet(name, change), UpdateExist(name, s.units[name], change, 0), t);
    } else {
      GotoGoto(s, c, UpdateGet(name, change), Returned(NotFound));
      ReachesSelf(t, c);
      ReachesStep(Goto(h, c, UpdateGet(name, change)), c, t);
    }
    GotoGoto(s, c, UpdateLock(name, change), UpdateGet(name, change));
    ReachesStep(Goto(s, c, UpdateLock(name, change)), c, t);
  }

  lemma UpdateFound(s: State, c: nat, name: string, change: Change)
    requires s.holder.None? && name in s.units
    ensures Reaches(Goto(s.(holder := Some(c)), c, UpdateExist(name, s.units[name], change, 0)), c,
              Finished(s, c, UpdateUnitCall(StoreOf(s), name, change)))
  {
    var t := Finished(s, c, UpdateUnitCall(StoreOf(s), name, change));
    var h := s.(holder := Some(c));
    UpdateExistence(h, c, name, s.units[name], change, 0);
    if AllExist(StoreOf(s), NewMounts(change)) {
      UpdateRest(s, c, name, change, 0);
      ReachesTransitive(Goto(h, c, UpdateExist(name, s.units[name], change, 0)), c,
        Goto(h, c, UpdateExclusive(name, s.units[name], change, 0)), t);
    }
  }

  // ------------------------------------------------------- calls without a lock

  predicate Unlocked(pc: Pc) {
    pc.DeleteGet? || pc.DeleteStore? || pc.StorageDeleteGet? || pc.StorageDeleteList? || pc.StorageDeleteStore?
    || IsStorageWriter(pc)
  }

  /** The last step of an unlocked call. */
  lemma Ends(s: State, c: nat, pc: Pc, result: (Store, Response))
    requires Unlocked(pc)
    requires UnlockedStep(Goto(s, c, pc), c, pc, Done) == Finished(Goto(s, c, pc), c, result)
    ensures Reaches(Goto(s, c, pc), c, Finished(s, c, result))
  {
    GotoGoto(s, c, pc, Returned(result.1));
    ReachesSelf(Finished(s, c, result), c);
    ReachesStep(Goto(s, c, pc), c, Finished(s, c, result));
  }

  /** A step of an unlocked call that only moves on. */
  lemma Proceeds(s: State, c: nat, pc: Pc, next: Pc, t: State)
    requires Unlocked(pc) && UnlockedStep(Goto(s, c, pc), c, pc, Done) == Goto(Goto(s, c, pc), c, next)
    requires Reaches(Goto(s, c, next), c, t)
    ensures Reaches(Goto(s, c, pc), c, t)
  {
    Moves(s, c, pc, next, t);
  }

  lemma DeleteUnitAlone(s: State, c: nat, name: string)
    requires s.holder != Some(c)
    ensures Reaches(Goto(s, c, Start(DeleteUnit(name))), c, Finished(s, c, DeleteUnitCall(StoreOf(s), name)))
  {
    var result := DeleteUnitCall(StoreOf(s), name);
    if name in s.units {
      Ends(s, c, UnitInterleaving.DeleteStore(name), result);
      Proceeds(s, c, DeleteGet(name), UnitInterleaving.DeleteStore(name), Finished(s, c, result));
    } else {
      Ends(s, c, DeleteGet(name), result);
    }
  }

  lemma DeleteStorageAlone(s: State, c: nat, name: string)
    requires s.holder != Some(c)
    ensures Reaches(Goto(s, c, Start(DeleteStorage(name))), c, Finished(s, c, DeleteStorageCall(StoreOf(s), name)))
  {
    var result := DeleteStorageCall(StoreOf(s), name);
    if name !in s.storages {
      Ends(s, c, StorageDeleteGet(name), result);
    } else {
      if Mounted(s.units, name) {
        Ends(s, c, StorageDeleteList(name), result);
      } else {
        Ends(s, c, StorageDeleteStore(name), result);
        Proceeds(s, c, StorageDeleteList(name), StorageDeleteStore(name), Finished(s, c, result));
      }
      Proceeds(s, c, StorageDeleteGet(name), StorageDeleteList(name), Finished(s, c, result));
    }
  }

  lemma CreateStorageAlone(s: State, c: nat, name: string, draft: StorageSpec)
    requires s.holder != Some(c)
    ensures Reaches(Goto(s, c, Start(CreateStorage(name, draft))), c, Finished(s, c, CreateStorageCall(StoreOf(s), name, draft)))
  {
    var result := CreateStorageCall(StoreOf(s), name, draft);
    if draft.prepare.FromStorage? && (draft.prepare.source == name || draft.prepare.source !in s.storages) {
      Ends(s, c, StorageCreateSource(name, draft), result);
    } else {
      if name in s.storages {
        Ends(s, c, StorageCreateGet(name, draft), result);
      } else {
        Ends(s, c, StorageCreateStore(name, draft), result);
        Proceeds(s, c, StorageCreateGet(name, draft), StorageCreateStore(name, draft), Finished(s, c, result));
      }
      Proceeds(s, c, StorageCreateSource(name, draft), StorageCreateGet(name, draft), Finished(s, c, result));
    }
  }

  lemma UpdateStorageAlone(s: State, c: nat, name: string, size: int, accessor: Option<bool>)
    requires s.holder != Some(c)
    ensures Reaches(Goto(s, c, Start(UpdateStorage(name, size, accessor))), c,
              Finished(s, c, UpdateStorageCall(StoreOf(s), name, size, accessor)))
  {
    var result := UpdateStorageCall(StoreOf(s), name, size, accessor);
    var at := StorageUpdateGet(name, size, accessor);
    if result.0 == StoreOf(s) {
      Ends(s, c, at, result);
    } else {
      var write := StorageUpdateStore(name, s.storages[name], NextStorage(s.storages[name], size, accessor));
      Ends(s, c, write, result);
      Proceeds(s, c, at, write, Finished(s, c, result));
    }
  }

  lemma RecoverStorageAlone(s: State, c: nat, name: string, nonce: string)
    requires s.holder != Some(c)
    ensures Reaches(Goto(s, c, Start(RecoverStorage(name, nonce))), c,
              Finished(s, c, RecoverStorageCall(StoreOf(s), name, nonce)))
  {
    var result := RecoverStorageCall(StoreOf(s), name, nonce);
    if name !in s.storages || s.storages[name].spec.prepare.NoPrepare? {
      Ends(s, c, StorageRecoverGet(name, nonce), result);
    } else {
      var write := StorageUpdateStore(name, s.storages[name], s.storages[name].(recoveryNonce := nonce));
      Ends(s, c, write, result);
      Proceeds(s, c, StorageRecoverGet(name, nonce), write, Finished(s, c, result));
    }
  }

  // -------------------------------------------------------------- main result

  /** Invoked by an idle client while nobody holds the mutex, and left alone until it
      returns, any call leaves the store and gives the response that the one-step call
      does, and disturbs nothing else. */
  lemma CallAloneIsOneStep(s: State, c: nat, call: Call)
    requires s.holder.None? && (PcOf(s, c).Idle? || PcOf(s, c).Returned?)
    ensures Reaches(Apply(s, Invoke(c, call)), c, Finished(s, c, Perform(StoreOf(s), call)))
  {
    match call {
      case CreateUnit(req) => CreateAlone(s, c, req);
      case UpdateUnit(name, change) => UpdateAlone(s, c, name, change);
      case DeleteUnit(name) => DeleteUnitAlone(s, c, name);
      case CreateStorage(name, draft) => CreateStorageAlone(s, c, name, draft);
      case UpdateStorage(name, size, accessor) => UpdateStorageAlone(s, c, name, size, accessor);
      case RecoverStorage(name, nonce) => RecoverStorageAlone(s, c, name, nonce);
      case DeleteStorage(name) => DeleteStorageAlone(s, c, name);
    }
  }
}
