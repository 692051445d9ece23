/** The volume claims behind the storages over interleaved runs (pkg/service/storage.go and the
    claim step of internal/controller/gpustorage_controller.go): exactly when a claim's
    request is lowered, and how a run gets there. */
module ClaimRuns {
  import opened Text
  import opened UnitStore
  import opened UnitInterleaving
  import opened MountRaces

  /** The claim is there before and after the step, and asks for less after it. */
  predicate Lowered(s: State, s': State, name: string) {
    name in s.claims && name in s'.claims && s'.claims[name].request < s.claims[name].request
  }

  /** The controller finds a storage that is smaller than the claim of its name. */
  predicate FindsSmaller(s: State, step: Step, name: string) {
    && step == ReconcileClaim(name) && name in s.claims && name in s.storages
    && s.storages[name].spec.size < s.claims[name].request
  }

  /** The storage that the claim was made for is still there. */
  predicate OwnerLives(s: State, name: string) {
    name in s.claims && name in s.storages && s.storages[name].uid == s.claims[name].owner
  }

  lemma StepLowersExactly(s: State, step: Step, name: string)
    ensures Lowered(s, Apply(s, step), name) <==> FindsSmaller(s, step, name)
  {
    if step.Advance? {
      ClaimsStay(s, step.client, step.io);
    }
  }

  /** The service never touches a claim. */
  lemma ClaimsStay(s: State, c: nat, io: Io)
    ensures Apply(s, Advance(c, io)).claims == s.claims
  {
  }

  /** In every reachable state, a step lowers a claim's request if and only if it is the
      controller's claim step and finds a smaller storage of that name; and that storage is
      then not the one the claim was made for. */
  lemma LoweredExactly(steps: seq<Step>, step: Step, name: string)
    ensures var s := Run(Init(), steps);
            && (Lowered(s, Apply(s, step), name) <==> FindsSmaller(s, step, name))
            && (FindsSmaller(s, step, name) ==> !OwnerLives(s, name))
  {
    StepLowersExactly(Run(Init(), steps), step, name);
    RunKeeps(steps);
  }

  ghost predicate LoweredAt(steps: seq<Step>, k: nat, name: string)
    requires k < |steps|
  {
    Lowered(Run(Init(), steps[..k]), Run(Init(), steps[..k + 1]), name)
  }

  ghost predicate FindsSmallerAt(steps: seq<Step>, k: nat, name: string)
    requires k < |steps|
  {
    FindsSmaller(Run(Init(), steps[..k]), steps[k], name)
  }

  lemma LoweredAtExactly(steps: seq<Step>, k: nat, name: string)
    requires k < |steps|
    ensures LoweredAt(steps, k, name) <==> FindsSmallerAt(steps, k, name)
  {
    RunOneMore(steps, k);
    StepLowersExactly(Run(Init(), steps[..k]), steps[k], name);
  }

  /** Hence a claim's request never decreases throughout a run if and only if no claim step of
      the run finds a storage smaller than the claim. */
  lemma NeverLoweredThroughoutExactly(steps: seq<Step>, name: string)
    ensures (forall k: nat :: k < |steps| ==> !LoweredAt(steps, k, name))
            <==> (forall k: nat :: k < |steps| ==> !FindsSmallerAt(steps, k, name))
  {
    forall k: nat | k < |steps| ensures LoweredAt(steps, k, name) <==> FindsSmallerAt(steps, k, name) {
      LoweredAtExactly(steps, k, name);
    }
  }

  // ------------------------------------------------------------ how a run gets there

  /** Some step deleted the storage that the claim was made for, and the claim has been there
      ever since. */
  ghost predicate OwnerDeleted(steps: seq<Step>, name: string) {
    && steps != []
    && name in Run(Init(), steps).claims
    && var before, last := steps[..|steps| - 1], steps[|steps| - 1];
       var s := Run(Init(), before);
       || (DeletedStorage(s, last) == Some(name) && OwnerLives(s, name))
       || OwnerDeleted(before, name)
  }

  lemma DeletionTakesOwner(s: State, step: Step, name: string)
    requires DeletedStorage(s, step) == Some(name) && name in s.claims
    ensures !OwnerLives(Apply(s, step), name)
  {
  }

  /** A claim that is kept keeps its owner. */
  lemma OwnerStays(s: State, step: Step, name: string)
    requires name in s.claims && name in Apply(s, step).claims
    ensures Apply(s, step).claims[name].owner == s.claims[name].owner
  {
    if step.Advance? {
      ClaimsStay(s, step.client, step.io);
    }
  }

  /** A new claim is made for the storage that is there. */
  lemma NewClaimHasOwner(s: State, step: Step, name: string)
    requires name !in s.claims && name in Apply(s, step).claims
    ensures OwnerLives(Apply(s, step), name)
  {
    if step.Advance? {
      ClaimsStay(s, step.client, step.io);
    }
  }

  /** Only the deletion of its storage takes a claim's owner away, and for good: a storage
      created anew is another object. */
  lemma OwnerStep(s: State, step: Step, name: string)
    requires Inv(s) && name in s.claims && name in Apply(s, step).claims
    ensures OwnerLives(Apply(s, step), name) <==> OwnerLives(s, name) && DeletedStorage(s, step) != Some(name)
  {
    OwnerStays(s, step, name);
    if DeletedStorage(s, step) == Some(name) {
      DeletionTakesOwner(s, step, name);
    } else {
      ObjectStep(s, step, name);
    }
  }

  lemma ObjectStep(s: State, step: Step, name: string)
    requires Inv(s) && DeletedStorage(s, step) != Some(name)
    ensures var s' := Apply(s, step);
            && (name in s.storages ==> name in s'.storages && s'.storages[name].uid == s.storages[name].uid)
            && (name !in s.storages && name in s'.storages ==> s'.storages[name].uid > s.clock)
  {
    if step.Advance? {
      assert PcOk(s, PcOf(s, step.client));
      ObjectAdvance(s, step.client, step.io, name);
    }
  }

  lemma ObjectAdvance(s: State, c: nat, io: Io, name: string)
    requires PcOk(s, PcOf(s, c)) && DeletedStorage(s, Advance(c, io)) != Some(name)
    ensures var s' := Apply(s, Advance(c, io));
            && (name in s.storages ==> name in s'.storages && s'.storages[name].uid == s.storages[name].uid)
            && (name !in s.storages && name in s'.storages ==> s'.storages[name].uid > s.clock)
  {
    var pc := PcOf(s, c);
    if pc.StorageCreateStore? || pc.StorageUpdateStore? {
      ObjectWrite(s, c, io, name);
    } else if IsStorageWriter(pc) {
      ObjectRead(s, c, io);
    } else if pc.DeleteGet? || pc.DeleteStore? || pc.StorageDeleteGet? || pc.StorageDeleteList? || pc.StorageDeleteStore? {
      ObjectDelete(s, c, io, name);
    }
  }

  lemma ObjectWrite(s: State, c: nat, io: Io, name: string)
    requires PcOk(s, PcOf(s, c))
    requires var pc := PcOf(s, c); pc.StorageCreateStore? || pc.StorageUpdateStore?
    ensures var s' := UnlockedStep(s, c, PcOf(s, c), io);
            && (name in s.storages ==> name in s'.storages && s'.storages[name].uid == s.storages[name].uid)
            && (name !in s.storages && name in s'.storages ==> s'.storages[name].uid > s.clock)
  {
  }

  lemma ObjectRead(s: State, c: nat, io: Io)
    requires var pc := PcOf(s, c); IsStorageWriter(pc) && !pc.StorageCreateStore? && !pc.StorageUpdateStore?
    ensures UnlockedStep(s, c, PcOf(s, c), io).storages == s.storages
  {
  }

  lemma ObjectDelete(s: State, c: nat, io: Io, name: string)
    requires var pc := PcOf(s, c);
             pc.DeleteGet? || pc.DeleteStore? || pc.StorageDeleteGet? || pc.StorageDeleteList? || pc.StorageDeleteStore?
    requires DeletedStorage(s, Advance(c, io)) != Some(name)
    ensures var s' := UnlockedStep(s, c, PcOf(s, c), io);
            && (name in s.storages ==> name in s'.storages && s'.storages[name] == s.storages[name])
            && (name in s'.storages ==> name in s.storages)
  {
  }

  /** Over every run: a claim has lost its owner if and only if that storage was deleted while
      the claim was there and the claim has not been collected since.  So a claim is lowered
      only after its storage was deleted and a smaller one created under its name before the
      collector came by. */
  lemma {:induction false} OwnerDeletedExactly(steps: seq<Step>, name: string)
    requires name in Run(Init(), steps).claims
    ensures OwnerLives(Run(Init(), steps), name) <==> !OwnerDeleted(steps, name)
  {
    if steps != [] {
      var before, last := steps[..|steps| - 1], steps[|steps| - 1];
      var s := Run(Init(), before);
      RunKeeps(before);
      if name in s.claims {
        OwnerDeletedExactly(before, name);
        OwnerStep(s, last, name);
      } else {
        NewClaimHasOwner(s, last, name);
        NoClaimNoDeletion(before, name);
      }
    }
  }

  lemma NoClaimNoDeletion(steps: seq<Step>, name: string)
    requires name !in Run(Init(), steps).claims
    ensures !OwnerDeleted(steps, name)
  {
  }

  /** The two together, at the step that lowers a claim. */
  lemma LoweredAfterDeletion(steps: seq<Step>, step: Step, name: string)
    requires var s := Run(Init(), steps); Lowered(s, Apply(s, step), name)
    ensures OwnerDeleted(steps, name)
  {
    LoweredExactly(steps, step, name);
    OwnerDeletedExactly(steps, name);
  }

  /** It does happen, for any two sizes: the storage is created, reconciled, deleted and created
      again smaller, and the claim step lowers the old claim's request to the new size. */
  lemma RecreatedStorageLowersOldClaim(large: int, small: int) returns (steps: seq<Step>)
    requires small < large
    ensures var s := Run(Init(), steps);
            var s' := Apply(s, ReconcileClaim("disk"));
            && "disk" in s.claims && s.claims["disk"].request == large
            && "disk" in s'.claims && s'.claims["disk"].request == small
  {
    assert Run(Init(), []) == Init();
    var created := DiskCreated([], DISK.(size := large));
    Extend(created, ReconcileClaim("disk"));
    var deleting := DiskDeleting(created + [ReconcileClaim("disk")]);
    assert Run(Init(), deleting).claims["disk"].request == large;
    Extend(deleting, Advance(0, Done));
    steps := DiskCreated(deleting + [Advance(0, Done)], DISK.(size := small));
  }
}
