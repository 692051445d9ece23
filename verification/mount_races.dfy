/** Do the storages that live units mount exist?  Creating a unit checks its mounts before it
    takes unitMu, updating one checks them under it, and deleting a storage takes no lock
    (pkg/service/unit_service.go, unit_inventory.go and storage.go), so over interleaved runs
    the answer can be no.  This module says exactly which steps make it so, and which
    overlaps of calls have to be absent for it never to happen. */
module MountRaces {
  import opened Text
  import opened UnitStore
  import opened UnitInterleaving

  ghost predicate MountsExist(s: State) {
    forall n, m :: n in s.units && m in s.units[n].spec.mounts ==> m in s.storages
  }

  /** The mounts of the unit that the step writes, if it writes one with mounts of its own:
      a Create of a free name, or an Update of the version that was read. */
  function WrittenMounts(s: State, step: Step): Option<seq<string>> {
    if step.Advance? && !step.io.Refused? then
      match PcOf(s, step.client)
      case CreateStore(req) => if req.name !in s.units then Some(req.mounts) else None
      case UpdateStore(name, instance, next) =>
        if name in s.units && s.units[name].version == instance.version then Some(next.mounts) else None
      case _ => None
    else None
  }

  /** The storage that the step deletes. */
  function DeletedStorage(s: State, step: Step): Option<string> {
    if step.Advance? && !step.io.Refused? then
      match PcOf(s, step.client)
      case StorageDeleteStore(name) => if name in s.storages then Some(name) else None
      case _ => None
    else None
  }

  /** A unit is written with a mount that does not exist, or a mounted storage is deleted. */
  ghost predicate Breaks(s: State, step: Step) {
    || (WrittenMounts(s, step).Some? && exists m :: m in WrittenMounts(s, step).value && m !in s.storages)
    || (DeletedStorage(s, step).Some? && Mounted(s.units, DeletedStorage(s, step).value))
  }

  // ------------------------------------------------------------ the exact steps

  /** What a step leaves of the units and storages. */
  ghost predicate Quiet(s: State, s': State) {
    && (forall n :: n in s'.units ==> n in s.units && s'.units[n].spec == s.units[n].spec)
    && (forall m :: m in s.storages ==> m in s'.storages)
  }

  lemma CreateEffect(s: State, c: nat, io: Io)
    requires var pc := PcOf(s, c);
             pc.CreateExist? || pc.CreateLock? || pc.CreateFind? || pc.CreateExclusive? || pc.CreateStore? || pc.CreateReread?
    requires WrittenMounts(s, Advance(c, io)).None?
    ensures Quiet(s, CreateStep(s, c, PcOf(s, c), io))
  {
  }

  lemma UpdateEffect(s: State, c: nat, io: Io)
    requires var pc := PcOf(s, c);
             pc.UpdateLock? || pc.UpdateGet? || pc.UpdateExist? || pc.UpdateExclusive? || pc.UpdateStore?
    requires WrittenMounts(s, Advance(c, io)).None?
    ensures Quiet(s, UpdateStep(s, c, PcOf(s, c), io))
  {
  }

  lemma StorageWriteEffect(s: State, c: nat, io: Io)
    requires IsStorageWriter(PcOf(s, c))
    ensures Quiet(s, UnlockedStep(s, c, PcOf(s, c), io))
  {
  }

  lemma DeleteEffect(s: State, c: nat, io: Io)
    requires var pc := PcOf(s, c);
             pc.DeleteGet? || pc.DeleteStore? || pc.StorageDeleteGet? || pc.StorageDeleteList? || pc.StorageDeleteStore?
    requires DeletedStorage(s, Advance(c, io)).None?
    ensures Quiet(s, UnlockedStep(s, c, PcOf(s, c), io))
  {
  }

  /** A step that neither writes a unit with mounts nor deletes a storage at most removes
      units, adds storages and moves versions. */
  lemma QuietStep(s: State, step: Step)
    requires WrittenMounts(s, step).None? && DeletedStorage(s, step).None?
    ensures Quiet(s, Apply(s, step))
  {
    if step.Advance? {
      var pc := PcOf(s, step.client);
      if pc.Idle? || pc.Returned? {
      } else if pc.CreateExist? || pc.CreateLock? || pc.CreateFind? || pc.CreateExclusive? || pc.CreateStore? || pc.CreateReread? {
        CreateEffect(s, step.client, step.io);
      } else if pc.UpdateLock? || pc.UpdateGet? || pc.UpdateExist? || pc.UpdateExclusive? || pc.UpdateStore? {
        UpdateEffect(s, step.client, step.io);
      } else if IsStorageWriter(pc) {
        StorageWriteEffect(s, step.client, step.io);
      } else {
        DeleteEffect(s, step.client, step.io);
      }
    }
  }

  /** The unit that is written carries the written mounts, and no other unit changes. */
  lemma WriteEffect(s: State, step: Step) returns (name: string)
    requires WrittenMounts(s, step).Some?
    ensures var s' := Apply(s, step);
            && s'.storages == s.storages
            && name in s'.units && s'.units[name].spec.mounts == WrittenMounts(s, step).value
            && s'.units - {name} == s.units - {name}
  {
    var pc := PcOf(s, step.client);
    name := if pc.CreateStore? then pc.request.name else pc.name;
  }

  /** In any state whose mounts all exist, those steps and no others make one vanish. */
  lemma BreaksExactly(s: State, step: Step)
    requires MountsExist(s)
    ensures MountsExist(Apply(s, step)) <==> !Breaks(s, step)
  {
    var s' := Apply(s, step);
    if WrittenMounts(s, step).Some? {
      var name := WriteEffect(s, step);
      forall n | n in s'.units && n != name ensures n in s.units && s'.units[n] == s.units[n] {
        assert n in s'.units - {name};
        assert (s'.units - {name})[n] == (s.units - {name})[n];
      }
      if Breaks(s, step) {
        var m :| m in WrittenMounts(s, step).value && m !in s.storages;
        assert m in s'.units[name].spec.mounts && m !in s'.storages;
      }
    } else if DeletedStorage(s, step).Some? {
      var gone := DeletedStorage(s, step).value;
      if Mounted(s.units, gone) {
        var n :| n in s.units && gone in s.units[n].spec.mounts;
        assert n in s'.units && gone in s'.units[n].spec.mounts && gone !in s'.storages;
      }
    } else {
      QuietStep(s, step);
    }
  }

  /** Hence mounts exist after every step of a run exactly if none of its steps is one of
      those. */
  lemma {:induction false} MountsExistThroughoutExactly(steps: seq<Step>)
    ensures (forall k: nat :: k <= |steps| ==> MountsExistAt(steps, k)) <==> (forall k: nat :: k < |steps| ==> !BreaksAt(steps, k))
  {
    if forall k: nat :: k < |steps| ==> !BreaksAt(steps, k) {
      forall k: nat | k <= |steps| ensures MountsExistAt(steps, k) {
        MountsExistUpTo(steps, k);
      }
    }
    if forall k: nat :: k <= |steps| ==> MountsExistAt(steps, k) {
      forall k: nat | k < |steps| ensures !BreaksAt(steps, k) {
        assert MountsExistAt(steps, k) && MountsExistAt(steps, k + 1);
        BreaksExactlyAt(steps, k);
      }
    }
  }

  ghost predicate MountsExistAt(steps: seq<Step>, k: nat)
    requires k <= |steps|
  {
    MountsExist(Run(Init(), steps[..k]))
  }

  ghost predicate BreaksAt(steps: seq<Step>, k: nat)
    requires k < |steps|
  {
    Breaks(Run(Init(), steps[..k]), steps[k])
  }

  lemma BreaksExactlyAt(steps: seq<Step>, k: nat)
    requires k < |steps| && MountsExistAt(steps, k)
    ensures MountsExistAt(steps, k + 1) <==> !BreaksAt(steps, k)
  {
    RunOneMore(steps, k);
    BreaksExactly(Run(Init(), steps[..k]), steps[k]);
  }

  lemma {:induction false} MountsExistUpTo(steps: seq<Step>, k: nat)
    requires k <= |steps| && forall j: nat :: j < |steps| ==> !BreaksAt(steps, j)
    ensures MountsExistAt(steps, k)
  {
    if k > 0 {
      MountsExistUpTo(steps, k - 1);
      BreaksExactlyAt(steps, k - 1);
    }
  }

  lemma RunOneMore(steps: seq<Step>, k: nat)
    requires k < |steps|
    ensures Run(Init(), steps[..k + 1]) == Apply(Run(Init(), steps[..k]), steps[k])
  {
    assert steps[..k + 1] == steps[..k] + [steps[k]];
    Extend(steps[..k], steps[k]);
  }

  // --------------------------------------------------------- overlaps of calls

  predicate AmongFirst(mounts: seq<string>, k: nat, m: string) {
    exists j :: 0 <= j < k && j < |mounts| && mounts[j] == m
  }

  /** The client has found storage m to exist and has yet to write the unit that mounts it. */
  predicate Checked(pc: Pc, m: string) {
    match pc
    case CreateExist(req, k) => AmongFirst(req.mounts, k, m)
    case CreateLock(req) => m in req.mounts
    case CreateFind(req) => m in req.mounts
    case CreateExclusive(req, _) => m in req.mounts
    case CreateStore(req) => m in req.mounts
    case UpdateExist(_, _, change, k) => AmongFirst(NewMounts(change), k, m)
    case UpdateExclusive(_, _, change, _) => m in NewMounts(change)
    case UpdateStore(_, instance, next) => next.mounts != instance.spec.mounts && m in next.mounts
    case _ => false
  }

  /** A storage is deleted while a client relies on having seen it, or a unit is written while
      a client that saw one of its mounts unmounted is about to delete that storage. */
  ghost predicate Races(s: State, step: Step) {
    || (DeletedStorage(s, step).Some? && exists c: nat :: Checked(PcOf(s, c), DeletedStorage(s, step).value))
    || (WrittenMounts(s, step).Some?
        && exists c: nat :: PcOf(s, c).StorageDeleteStore? && PcOf(s, c).name in WrittenMounts(s, step).value)
  }

  ghost predicate RaceFree(steps: seq<Step>) {
    forall k: nat :: k < |steps| ==> !Races(Run(Init(), steps[..k]), steps[k])
  }

  /** What a client has looked at is still so. */
  ghost predicate StillSo(s: State, pc: Pc) {
    && (forall m :: Checked(pc, m) ==> m in s.storages)
    && (pc.StorageDeleteStore? ==> !Mounted(s.units, pc.name))
  }

  ghost predicate AllStillSo(s: State) {
    && MountsExist(s)
    && forall c: nat :: StillSo(s, PcOf(s, c))
  }

  lemma QuietKeepsOthers(s: State, s': State, pc: Pc)
    requires Quiet(s, s') && StillSo(s, pc)
    ensures StillSo(s', pc)
  {
  }

  /** What the moving client has looked at after its step was so when it looked. */
  lemma OwnCheckCreate(s: State, c: nat, io: Io)
    requires StillSo(s, PcOf(s, c))
    requires var pc := PcOf(s, c);
             pc.CreateExist? || pc.CreateLock? || pc.CreateFind? || pc.CreateExclusive? || pc.CreateStore? || pc.CreateReread?
    ensures StillSo(s, PcOf(CreateStep(s, c, PcOf(s, c), io), c))
  {
    var pc := PcOf(s, c);
    var pc' := PcOf(CreateStep(s, c, pc, io), c);
    assert !pc'.StorageDeleteStore?;
    if pc.CreateExist? {
      OwnExistenceCheck(s, pc.request.mounts, pc.k);
    } else {
      assert forall m :: Checked(pc', m) ==> Checked(pc, m);
    }
  }

  lemma OwnCheckUpdate(s: State, c: nat, io: Io)
    requires StillSo(s, PcOf(s, c))
    requires var pc := PcOf(s, c);
             pc.UpdateLock? || pc.UpdateGet? || pc.UpdateExist? || pc.UpdateExclusive? || pc.UpdateStore?
    ensures StillSo(s, PcOf(UpdateStep(s, c, PcOf(s, c), io), c))
  {
    var pc := PcOf(s, c);
    var pc' := PcOf(UpdateStep(s, c, pc, io), c);
    assert !pc'.StorageDeleteStore?;
    if pc.UpdateExist? {
      OwnExistenceCheck(s, NewMounts(pc.change), pc.k);
    } else {
      assert forall m :: Checked(pc', m) ==> Checked(pc, m);
    }
  }

  lemma OwnCheckUnlocked(s: State, c: nat, io: Io)
    requires StillSo(s, PcOf(s, c))
    requires var pc := PcOf(s, c);
             pc.DeleteGet? || pc.DeleteStore? || pc.StorageDeleteGet? || pc.StorageDeleteList? || pc.StorageDeleteStore?
             || IsStorageWriter(pc)
    ensures StillSo(s, PcOf(UnlockedStep(s, c, PcOf(s, c), io), c))
  {
    var pc := PcOf(s, c);
    var pc' := PcOf(UnlockedStep(s, c, pc, io), c);
    assert forall m :: !Checked(pc', m);
    assert pc'.StorageDeleteStore? ==> pc.StorageDeleteList? && pc'.name == pc.name && !Mounted(s.units, pc.name);
  }

  lemma OwnExistenceCheck(s: State, mounts: seq<string>, k: nat)
    requires forall m :: AmongFirst(mounts, k, m) ==> m in s.storages
    ensures k < |mounts| && mounts[k] in s.storages ==> forall m :: AmongFirst(mounts, k + 1, m) ==> m in s.storages
    ensures k >= |mounts| ==> forall m :: m in mounts ==> m in s.storages
  {
    if k < |mounts| && mounts[k] in s.storages {
      forall m | AmongFirst(mounts, k + 1, m) ensures m in s.storages {
        assert m == mounts[k] || AmongFirst(mounts, k, m);
      }
    }
    if k >= |mounts| {
      forall m | m in mounts ensures m in s.storages {
        assert AmongFirst(mounts, k, m);
      }
    }
  }

  lemma OthersStayCreate(s: State, c: nat, io: Io, d: nat)
    requires d != c
    requires var pc := PcOf(s, c);
             pc.CreateExist? || pc.CreateLock? || pc.CreateFind? || pc.CreateExclusive? || pc.CreateStore? || pc.CreateReread?
    ensures PcOf(CreateStep(s, c, PcOf(s, c), io), d) == PcOf(s, d)
  {
  }

  lemma OthersStayStorageWrite(s: State, c: nat, io: Io, d: nat)
    requires d != c
    requires var pc := PcOf(s, c); pc.StorageCreateStore? || pc.StorageUpdateStore?
    ensures PcOf(UnlockedStep(s, c, PcOf(s, c), io), d) == PcOf(s, d)
  {
  }

  lemma OthersStayStorageRead(s: State, c: nat, io: Io, d: nat)
    requires d != c
    requires var pc := PcOf(s, c); IsStorageWriter(pc) && !pc.StorageCreateStore? && !pc.StorageUpdateStore?
    ensures PcOf(UnlockedStep(s, c, PcOf(s, c), io), d) == PcOf(s, d)
  {
  }

  lemma OthersStayDelete(s: State, c: nat, io: Io, d: nat)
    requires d != c
    requires var pc := PcOf(s, c);
             pc.DeleteGet? || pc.DeleteStore? || pc.StorageDeleteGet? || pc.StorageDeleteList? || pc.StorageDeleteStore?
    ensures PcOf(UnlockedStep(s, c, PcOf(s, c), io), d) == PcOf(s, d)
  {
  }

  lemma OthersStay(s: State, c: nat, io: Io, d: nat)
    requires d != c
    ensures PcOf(Apply(s, Advance(c, io)), d) == PcOf(s, d)
  {
    var pc := PcOf(s, c);
    if pc.Idle? || pc.Returned? {
    } else if pc.CreateExist? || pc.CreateLock? || pc.CreateFind? || pc.CreateExclusive? || pc.CreateStore? || pc.CreateReread? {
      OthersStayCreate(s, c, io, d);
    } else if pc.UpdateLock? || pc.UpdateGet? || pc.UpdateExist? || pc.UpdateExclusive? || pc.UpdateStore? {
      assert PcOf(UpdateStep(s, c, pc, io), d) == PcOf(s, d);
    } else if pc.StorageCreateStore? || pc.StorageUpdateStore? {
      OthersStayStorageWrite(s, c, io, d);
    } else if IsStorageWriter(pc) {
      OthersStayStorageRead(s, c, io, d);
    } else {
      OthersStayDelete(s, c, io, d);
    }
  }

  lemma OwnCheck(s: State, c: nat, io: Io)
    requires StillSo(s, PcOf(s, c))
    ensures StillSo(s, PcOf(Apply(s, Advance(c, io)), c))
  {
    var pc := PcOf(s, c);
    if pc.Idle? || pc.Returned? {
    } else if pc.CreateExist? || pc.CreateLock? || pc.CreateFind? || pc.CreateExclusive? || pc.CreateStore? || pc.CreateReread? {
      OwnCheckCreate(s, c, io);
    } else if pc.UpdateLock? || pc.UpdateGet? || pc.UpdateExist? || pc.UpdateExclusive? || pc.UpdateStore? {
      OwnCheckUpdate(s, c, io);
    } else {
      OwnCheckUnlocked(s, c, io);
    }
  }

  /** Reads, removals of units and additions of storages disturb nobody. */
  lemma QuietKeeps(s: State, step: Step)
    requires AllStillSo(s) && WrittenMounts(s, step).None? && DeletedStorage(s, step).None?
    ensures AllStillSo(Apply(s, step))
  {
    var s' := Apply(s, step);
    QuietStep(s, step);
    BreaksExactly(s, step);
    forall d: nat ensures StillSo(s', PcOf(s', d)) {
      if step.Advance? {
        if d == step.client { OwnCheck(s, d, step.io); } else { OthersStay(s, step.client, step.io, d); }
        QuietKeepsOthers(s, s', PcOf(s', d));
      } else if step.Invoke? && d == step.client {
        assert PcOf(s', d) == PcOf(s, d) || PcOf(s', d) == Start(step.call);
        assert forall m :: !Checked(Start(step.call), m);
        QuietKeepsOthers(s, s', PcOf(s', d));
      } else {
        QuietKeepsOthers(s, s', PcOf(s, d));
      }
    }
  }

  /** Nobody who relies on the storage: deleting it disturbs nobody. */
  lemma DeletionKeeps(s: State, step: Step)
    requires AllStillSo(s) && DeletedStorage(s, step).Some? && !Races(s, step)
    ensures AllStillSo(Apply(s, step))
  {
    var s' := Apply(s, step);
    var gone := DeletedStorage(s, step).value;
    assert StillSo(s, PcOf(s, step.client));
    BreaksExactly(s, step);
    forall d: nat ensures StillSo(s', PcOf(s', d)) {
      if d != step.client {
        OthersStay(s, step.client, step.io, d);
        assert StillSo(s, PcOf(s, d)) && !Checked(PcOf(s, d), gone);
      }
    }
  }

  /** What a unit is written with was seen to exist, or is what the unit already mounts. */
  lemma WrittenMountsExist(s: State, step: Step)
    requires Inv(s) && AllStillSo(s) && WrittenMounts(s, step).Some?
    ensures forall m :: m in WrittenMounts(s, step).value ==> m in s.storages
  {
    var pc := PcOf(s, step.client);
    assert StillSo(s, pc) && PcOk(s, pc);
    forall m | m in WrittenMounts(s, step).value ensures m in s.storages {
      if pc.UpdateStore? && pc.next.mounts == pc.instance.spec.mounts {
        assert s.units[pc.name] == pc.instance;
      } else {
        assert Checked(pc, m);
      }
    }
  }

  /** Nobody about to delete one of the mounts: writing the unit disturbs nobody. */
  lemma WriteKeeps(s: State, step: Step)
    requires Inv(s) && AllStillSo(s) && WrittenMounts(s, step).Some? && !Races(s, step)
    ensures AllStillSo(Apply(s, step))
  {
    var s' := Apply(s, step);
    WrittenMountsExist(s, step);
    BreaksExactly(s, step);
    var name := WriteEffect(s, step);
    forall d: nat ensures StillSo(s', PcOf(s', d)) {
      if d != step.client {
        OthersStay(s, step.client, step.io, d);
        WriteKeepsOther(s, s', name, PcOf(s, d));
      } else {
        assert PcOf(s', d).Returned?;
      }
    }
  }

  lemma WriteKeepsOther(s: State, s': State, name: string, pc: Pc)
    requires StillSo(s, pc) && s'.storages == s.storages && name in s'.units && s'.units - {name} == s.units - {name}
    requires pc.StorageDeleteStore? ==> pc.name !in s'.units[name].spec.mounts
    ensures StillSo(s', pc)
  {
    if pc.StorageDeleteStore? {
      forall n | n in s'.units && n != name ensures pc.name !in s'.units[n].spec.mounts {
        assert n in s'.units - {name};
        assert (s'.units - {name})[n] == (s.units - {name})[n];
      }
    }
  }

  /** Over every interleaved run in which no storage is deleted between a client's check of it
      and that client's write, and no unit is written between the moment a deletion saw its
      storage unmounted and the deletion, every mount exists after every step, and what a
      client has looked at is still so when it acts on it. */
  lemma {:induction false} RaceFreeMountsExist(steps: seq<Step>)
    requires RaceFree(steps)
    ensures AllStillSo(Run(Init(), steps))
  {
    if steps != [] {
      var k := |steps| - 1;
      RaceFreePrefix(steps);
      RaceFreeMountsExist(steps[..k]);
      var s := Run(Init(), steps[..k]);
      RunKeeps(steps[..k]);
      assert !Races(s, steps[k]);
      if WrittenMounts(s, steps[k]).Some? {
        WriteKeeps(s, steps[k]);
      } else if DeletedStorage(s, steps[k]).Some? {
        DeletionKeeps(s, steps[k]);
      } else {
        QuietKeeps(s, steps[k]);
      }
    }
  }

  lemma RaceFreePrefix(steps: seq<Step>)
    requires RaceFree(steps) && steps != []
    ensures RaceFree(steps[..|steps| - 1])
  {
    var prefix := steps[..|steps| - 1];
    forall k: nat | k < |prefix| ensures !Races(Run(Init(), prefix[..k]), prefix[k]) {
      assert prefix[..k] == steps[..k] && prefix[k] == steps[k];
    }
  }

  /** Conversely, in every state in which one client is about to delete a storage and
      another about to write a unit mounting it, either order of the two steps leaves a unit
      whose mount does not exist. */
  lemma RaceBreaks(s: State, writer: nat, deleter: nat, m: string)
    requires PcOf(s, deleter) == StorageDeleteStore(m) && m in s.storages
    requires WrittenMounts(s, Advance(writer, Done)).Some? && m in WrittenMounts(s, Advance(writer, Done)).value
    ensures !MountsExist(Apply(Apply(s, Advance(deleter, Done)), Advance(writer, Done)))
    ensures !MountsExist(Apply(Apply(s, Advance(writer, Done)), Advance(deleter, Done)))
  {
    var deleted := Apply(s, Advance(deleter, Done));
    OthersStay(s, deleter, Done, writer);
    assert WrittenMounts(deleted, Advance(writer, Done)) == WrittenMounts(s, Advance(writer, Done));
    var name := WriteEffect(deleted, Advance(writer, Done));
    var both := Apply(deleted, Advance(writer, Done));
    assert m in both.units[name].spec.mounts && m !in both.storages;
    var written := Apply(s, Advance(writer, Done));
    OthersStay(s, writer, Done, deleter);
    var name' := WriteEffect(s, Advance(writer, Done));
    var both' := Apply(written, Advance(deleter, Done));
    assert both'.units == written.units && m !in both'.storages;
    assert m in both'.units[name'].spec.mounts;
  }

  // ------------------------------------------------------------ concrete runs

  const DISK_UNIT := Request("op", "unit", ["disk"], "")
  const PLAIN_UNIT := Request("op", "unit", [], "")
  const MOUNT_DISK := Change(Some(["disk"]), None)

  /** Client 1 is at pc, the units are these, and the rest is as in s. */
  ghost predicate OnlyMoved(s: State, s': State, pc: Pc, units: map<string, Unit>) {
    && PcOf(s', 1) == pc && PcOf(s', 0) == PcOf(s, 0)
    && s'.units == units && s'.storages == s.storages
  }

  /** Client 1 begins to create the unit without mounts. */
  lemma PlainUnitLocked(s: State)
    requires s.units == map[] && s.holder == None && PcOf(s, 1).Idle?
    ensures var s' := Apply(Apply(Apply(s, Invoke(1, CreateUnit(PLAIN_UNIT))), Advance(1, Done)), Advance(1, Done));
            OnlyMoved(s, s', CreateFind(PLAIN_UNIT), map[]) && s'.holder == Some(1) && s'.clock == s.clock
  {
    var s1 := Goto(s, 1, CreateExist(PLAIN_UNIT, 0));
    assert Apply(s, Invoke(1, CreateUnit(PLAIN_UNIT))) == s1;
    var s2 := Goto(s1, 1, CreateLock(PLAIN_UNIT));
    assert Apply(s1, Advance(1, Done)) == s2;
  }

  lemma CreatingPlain(s: State)
    requires PcOf(s, 1) == CreateFind(PLAIN_UNIT) && s.units == map[] && s.holder == Some(1)
    ensures var s' := Apply(Apply(Apply(s, Advance(1, Done)), Advance(1, Done)), Advance(1, Done));
            && OnlyMoved(s, s', Returned(Created), map["unit" := UnitFor(PLAIN_UNIT, s.clock + 1)])
            && s'.holder == None
  {
    assert FindExisting(s.units, PLAIN_UNIT) == None;
    var s1 := Apply(s, Advance(1, Done));
    assert s1 == Goto(s, 1, CreateExclusive(PLAIN_UNIT, 0));
    var s2 := Apply(s1, Advance(1, Done));
    assert s2 == Goto(s1, 1, CreateStore(PLAIN_UNIT));
    StoringPlain(s2);
  }

  lemma StoringPlain(s: State)
    requires PcOf(s, 1) == CreateStore(PLAIN_UNIT) && s.units == map[] && s.holder == Some(1)
    ensures var s' := Apply(s, Advance(1, Done));
            && OnlyMoved(s, s', Returned(Created), map["unit" := UnitFor(PLAIN_UNIT, s.clock + 1)])
            && s'.holder == None
  {
    assert Apply(s, Advance(1, Done)) == Return(StoreCreateUnit(s, PLAIN_UNIT), 1, Created);
  }

  /** Client 1 creates the unit without mounts. */
  lemma PlainUnitCreated(before: seq<Step>) returns (steps: seq<Step>)
    requires var s := Run(Init(), before); s.units == map[] && s.holder == None && PcOf(s, 1).Idle?
    ensures var s := Run(Init(), before);
            var s' := Run(Init(), steps);
            && OnlyMoved(s, s', Returned(Created), map["unit" := UnitFor(PLAIN_UNIT, s.clock + 1)])
            && s'.holder == None
  {
    var locked := PlainUnitLocking(before);
    steps := PlainUnitWriting(locked);
  }

  lemma PlainUnitLocking(before: seq<Step>) returns (steps: seq<Step>)
    requires var s := Run(Init(), before); s.units == map[] && s.holder == None && PcOf(s, 1).Idle?
    ensures var s := Run(Init(), before);
            var s' := Run(Init(), steps);
            OnlyMoved(s, s', CreateFind(PLAIN_UNIT), map[]) && s'.holder == Some(1) && s'.clock == s.clock
  {
    steps := RunThree(before, Invoke(1, CreateUnit(PLAIN_UNIT)), Advance(1, Done), Advance(1, Done));
    PlainUnitLocked(Run(Init(), before));
  }

  lemma PlainUnitWriting(before: seq<Step>) returns (steps: seq<Step>)
    requires var s := Run(Init(), before); PcOf(s, 1) == CreateFind(PLAIN_UNIT) && s.units == map[] && s.holder == Some(1)
    ensures var s := Run(Init(), before);
            var s' := Run(Init(), steps);
            && OnlyMoved(s, s', Returned(Created), map["unit" := UnitFor(PLAIN_UNIT, s.clock + 1)])
            && s'.holder == None
  {
    steps := RunThree(before, Advance(1, Done), Advance(1, Done), Advance(1, Done));
    CreatingPlain(Run(Init(), before));
  }

  lemma ReadingUnit(s: State, u: Unit)
    requires s.units == map["unit" := u] && s.holder == None && PcOf(s, 1).Returned?
    ensures var s' := Apply(Apply(Apply(s, Invoke(1, UpdateUnit("unit", MOUNT_DISK))), Advance(1, Done)), Advance(1, Done));
            OnlyMoved(s, s', UpdateExist("unit", u, MOUNT_DISK, 0), s.units)
  {
    var s1 := Goto(s, 1, UpdateLock("unit", MOUNT_DISK));
    assert Apply(s, Invoke(1, UpdateUnit("unit", MOUNT_DISK))) == s1;
    var s2 := Goto(s1, 1, UpdateGet("unit", MOUNT_DISK)).(holder := Some(1));
    assert Apply(s1, Advance(1, Done)) == s2;
    assert Apply(s2, Advance(1, Done)) == Goto(s2, 1, UpdateExist("unit", u, MOUNT_DISK, 0));
  }

  lemma ExistenceChecked(s: State, u: Unit)
    requires PcOf(s, 1) == UpdateExist("unit", u, MOUNT_DISK, 0) && "disk" in s.storages
    ensures Apply(s, Advance(1, Done)) == Goto(s, 1, UpdateExist("unit", u, MOUNT_DISK, 1))
  {
  }

  lemma AllExistenceChecked(s: State, u: Unit)
    requires PcOf(s, 1) == UpdateExist("unit", u, MOUNT_DISK, 1)
    ensures Apply(s, Advance(1, Done)) == Goto(s, 1, UpdateExclusive("unit", u, MOUNT_DISK, 0))
  {
  }

  lemma ExclusionChecked(s: State, u: Unit)
    requires PcOf(s, 1) == UpdateExclusive("unit", u, MOUNT_DISK, 0) && s.units == map["unit" := u]
    ensures Apply(s, Advance(1, Done)) == Goto(s, 1, UpdateExclusive("unit", u, MOUNT_DISK, 1))
  {
    assert !MountedByOther(s.units, "disk", "unit");
  }

  lemma AllExclusionChecked(s: State, u: Unit)
    requires PcOf(s, 1) == UpdateExclusive("unit", u, MOUNT_DISK, 1) && u.spec.mounts == []
    ensures Apply(s, Advance(1, Done)) == Goto(s, 1, UpdateStore("unit", u, Next(u, MOUNT_DISK)))
  {
    assert Next(u, MOUNT_DISK).mounts == ["disk"];
  }

  lemma CheckingUpdate(s: State, u: Unit)
    requires PcOf(s, 1) == UpdateExist("unit", u, MOUNT_DISK, 0) && "disk" in s.storages
    requires s.units == map["unit" := u] && u.spec.mounts == []
    ensures var s' := Apply(Apply(Apply(Apply(s, Advance(1, Done)), Advance(1, Done)), Advance(1, Done)), Advance(1, Done));
            OnlyMoved(s, s', UpdateStore("unit", u, Next(u, MOUNT_DISK)), s.units)
  {
    ExistenceChecked(s, u);
    var s1 := Goto(s, 1, UpdateExist("unit", u, MOUNT_DISK, 1));
    AllExistenceChecked(s1, u);
    var s2 := Goto(s1, 1, UpdateExclusive("unit", u, MOUNT_DISK, 0));
    ExclusionChecked(s2, u);
    var s3 := Goto(s2, 1, UpdateExclusive("unit", u, MOUNT_DISK, 1));
    AllExclusionChecked(s3, u);
  }

  /** Client 1 has checked, for an update of that unit, that "disk" exists and that nobody else
      mounts it: the write is all that is left. */
  lemma UpdateReady(before: seq<Step>, u: Unit) returns (steps: seq<Step>)
    requires var s := Run(Init(), before);
             s.units == map["unit" := u] && s.holder == None && PcOf(s, 1).Returned? && "disk" in s.storages && u.spec.mounts == []
    ensures var s := Run(Init(), before);
            OnlyMoved(s, Run(Init(), steps), UpdateStore("unit", u, Next(u, MOUNT_DISK)), s.units)
  {
    var read := RunThree(before, Invoke(1, UpdateUnit("unit", MOUNT_DISK)), Advance(1, Done), Advance(1, Done));
    ReadingUnit(Run(Init(), before), u);
    var checked := RunThree(read, Advance(1, Done), Advance(1, Done), Advance(1, Done));
    Extend(checked, Advance(1, Done));
    CheckingUpdate(Run(Init(), read), u);
    steps := checked + [Advance(1, Done)];
  }

  lemma CreateChecked(s: State)
    requires PcOf(s, 1).Idle? && "disk" in s.storages
    ensures Apply(Apply(Apply(s, Invoke(1, CreateUnit(DISK_UNIT))), Advance(1, Done)), Advance(1, Done))
            == Goto(s, 1, CreateLock(DISK_UNIT))
  {
    var s1 := Goto(s, 1, CreateExist(DISK_UNIT, 0));
    assert Apply(s, Invoke(1, CreateUnit(DISK_UNIT))) == s1;
    var s2 := Goto(s1, 1, CreateExist(DISK_UNIT, 1));
    assert Apply(s1, Advance(1, Done)) == s2;
    assert Apply(s2, Advance(1, Done)) == Goto(s2, 1, CreateLock(DISK_UNIT));
    assert s2.pcs[1 := CreateLock(DISK_UNIT)] == s.pcs[1 := CreateLock(DISK_UNIT)];
  }

  lemma LockedCreate(s: State)
    requires PcOf(s, 1) == CreateLock(DISK_UNIT) && s.units == map[] && s.holder == None
    ensures OnlyMoved(s, Apply(Apply(Apply(s, Advance(1, Done)), Advance(1, Done)), Advance(1, Done)),
                      CreateExclusive(DISK_UNIT, 1), map[])
  {
    var s1 := Goto(s, 1, CreateFind(DISK_UNIT)).(holder := Some(1));
    assert Apply(s, Advance(1, Done)) == s1;
    assert FindExisting(s1.units, DISK_UNIT) == None;
    var s2 := Goto(s1, 1, CreateExclusive(DISK_UNIT, 0));
    assert Apply(s1, Advance(1, Done)) == s2;
    assert !MountedByOther(s2.units, "disk", "");
  }

  lemma AllCreateChecked(s: State)
    requires PcOf(s, 1) == CreateExclusive(DISK_UNIT, 1)
    ensures Apply(s, Advance(1, Done)) == Goto(s, 1, CreateStore(DISK_UNIT))
  {
  }

  /** Client 1 has checked for a create that "disk" exists and that nobody mounts it. */
  lemma CreateReady(before: seq<Step>) returns (steps: seq<Step>)
    requires var s := Run(Init(), before);
             s.units == map[] && s.holder == None && PcOf(s, 1).Idle? && "disk" in s.storages
    ensures var s := Run(Init(), before);
            OnlyMoved(s, Run(Init(), steps), CreateStore(DISK_UNIT), map[])
  {
    var checked := RunThree(before, Invoke(1, CreateUnit(DISK_UNIT)), Advance(1, Done), Advance(1, Done));
    CreateChecked(Run(Init(), before));
    var locked := RunThree(checked, Advance(1, Done), Advance(1, Done), Advance(1, Done));
    LockedCreate(Run(Init(), checked));
    Extend(locked, Advance(1, Done));
    AllCreateChecked(Run(Init(), locked));
    steps := locked + [Advance(1, Done)];
  }

  /** With client 1 about to write a unit that mounts "disk", client 0 deletes it first. */
  lemma DeleteThenWrite(before: seq<Step>) returns (steps: seq<Step>)
    requires var s := Run(Init(), before);
             && "disk" in s.storages && !Mounted(s.units, "disk") && PcOf(s, 0).Returned?
             && WrittenMounts(s, Advance(1, Done)) == Some(["disk"])
    ensures !MountsExist(Run(Init(), steps))
  {
    var deleting := DiskDeleting(before);
    var s := Run(Init(), deleting);
    assert WrittenMounts(s, Advance(1, Done)) == Some(["disk"]) && "disk" in ["disk"];
    RaceBreaks(s, 1, 0, "disk");
    Extend(deleting, Advance(0, Done));
    Extend(deleting + [Advance(0, Done)], Advance(1, Done));
    steps := deleting + [Advance(0, Done)] + [Advance(1, Done)];
  }

  /** Runs from the empty store that leave a unit with a mount that does not exist: the
      existence check of a create precedes the mutex ... */
  lemma CreateRace() returns (steps: seq<Step>)
    ensures !MountsExist(Run(Init(), steps))
  {
    assert Run(Init(), []) == Init();
    var created := DiskCreated([], DISK);
    var ready := CreateReady(created);
    steps := DeleteThenWrite(ready);
  }

  /** ... and that of an update is made under the mutex, which deleting a storage ignores. */
  lemma UpdateRace() returns (steps: seq<Step>)
    ensures !MountsExist(Run(Init(), steps))
  {
    assert Run(Init(), []) == Init();
    var created := DiskCreated([], DISK);
    var u := UnitFor(PLAIN_UNIT, Run(Init(), created).clock + 1);
    var plain := PlainUnitCreated(created);
    var ready := UpdateReady(plain, u);
    steps := DeleteThenWrite(ready);
  }
}
