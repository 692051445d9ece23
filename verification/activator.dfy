/** What the activator's steps do to the units of a cluster over whole runs
    (pkg/activator/service.go and lifecycle.go). */
module Activator {
  import opened Text
  import opened Names
  import opened Workers
  import opened Registry
  import opened Lifecycle
  import US = UnitStore
  import UV = UnitService
  import UT = UnitTheorems

  // -------------------------------------------------------------------- the machine

  /** A worker as buildCreateRequest makes it from a template of some request ID. */
  ghost predicate Generated(u: Unit) {
    exists template: Unit, source: string :: template.serverless.requestID != "" && u == NewWorker(template, source)
  }

  /** What the activator does to units: create a worker (for an invocation or to prewarm), or
      delete one. */
  datatype Action =
    | CreateWorker(worker: Unit)
    | DeleteWorker(name: string)

  ghost predicate Possible(world: map<string, Unit>, a: Action) {
    match a
    case CreateWorker(worker) => Generated(worker)
    case DeleteWorker(name) => name in world && IsManaged(world[name])
  }

  /** A create under a taken name changes nothing. */
  function Act(world: map<string, Unit>, a: Action): map<string, Unit> {
    match a
    case CreateWorker(worker) => if worker.name in world then world else world[worker.name := worker]
    case DeleteWorker(name) => world - {name}
  }

  ghost predicate PossibleRun(world: map<string, Unit>, actions: seq<Action>) {
    actions == [] || (PossibleRun(world, actions[..|actions| - 1]) && Possible(ActAll(world, actions[..|actions| - 1]), actions[|actions| - 1]))
  }

  function ActAll(world: map<string, Unit>, actions: seq<Action>): map<string, Unit> {
    if actions == [] then world else Act(ActAll(world, actions[..|actions| - 1]), actions[|actions| - 1])
  }

  /** Some run of possible actions leads from one world to the other. */
  ghost predicate Performed(before: map<string, Unit>, after: map<string, Unit>) {
    exists actions :: PossibleRun(before, actions) && ActAll(before, actions) == after
  }

  lemma OneMore(world: map<string, Unit>, actions: seq<Action>, a: Action)
    requires PossibleRun(world, actions) && Possible(ActAll(world, actions), a)
    ensures PossibleRun(world, actions + [a]) && ActAll(world, actions + [a]) == Act(ActAll(world, actions), a)
  {
    assert (actions + [a])[..|actions|] == actions;
  }

  lemma SplitLast(a: seq<Action>, b: seq<Action>)
    requires b != []
    ensures a + b[..|b| - 1] + [b[|b| - 1]] == a + b
  {
  }

  lemma {:induction false} RunConcat(world: map<string, Unit>, a: seq<Action>, b: seq<Action>)
    requires PossibleRun(world, a) && PossibleRun(ActAll(world, a), b)
    ensures PossibleRun(world, a + b) && ActAll(world, a + b) == ActAll(ActAll(world, a), b)
  {
    if b == [] {
      assert a + b == a;
    } else {
      var before, last := b[..|b| - 1], b[|b| - 1];
      RunConcat(world, a, before);
      OneMore(world, a + before, last);
      SplitLast(a, b);
    }
  }

  lemma PerformedThen(a: map<string, Unit>, b: map<string, Unit>, c: map<string, Unit>)
    requires Performed(a, b) && Performed(b, c)
    ensures Performed(a, c)
  {
    var first :| PossibleRun(a, first) && ActAll(a, first) == b;
    var second :| PossibleRun(b, second) && ActAll(b, second) == c;
    RunConcat(a, first, second);
  }

  lemma NothingPerformed(world: map<string, Unit>)
    ensures Performed(world, world)
  {
    assert PossibleRun(world, []) && ActAll(world, []) == world;
  }

  lemma OnePerformed(world: map<string, Unit>, a: Action)
    requires Possible(world, a)
    ensures Performed(world, Act(world, a))
  {
    assert PossibleRun(world, []) && ActAll(world, []) == world;
    OneMore(world, [], a);
  }

  // ------------------------------------------------- what a run leaves untouched

  /** Same unmanaged units, unchanged. */
  ghost predicate SameUnmanaged(a: map<string, Unit>, b: map<string, Unit>) {
    && (forall n :: (n in a && !IsManaged(a[n])) <==> (n in b && !IsManaged(b[n])))
    && (forall n :: n in a && n in b && !IsManaged(a[n]) ==> b[n] == a[n])
  }

  lemma GeneratedIsManaged(u: Unit)
    requires Generated(u)
    ensures IsManaged(u)
  {
    var template: Unit, source: string :| template.serverless.requestID != "" && u == NewWorker(template, source);
    GeneratedNameValidAndManaged(template.serverless.requestID, source);
  }

  lemma AddingManaged(world: map<string, Unit>, worker: Unit)
    requires IsManaged(worker) && worker.name !in world
    ensures SameUnmanaged(world, world[worker.name := worker])
  {
  }

  lemma ActKeepsUnmanaged(world: map<string, Unit>, a: Action)
    requires Possible(world, a)
    ensures SameUnmanaged(world, Act(world, a))
  {
    if a.CreateWorker? {
      GeneratedIsManaged(a.worker);
      if a.worker.name !in world {
        AddingManaged(world, a.worker);
      }
    }
  }

  lemma {:induction false} RunKeepsUnmanaged(world: map<string, Unit>, actions: seq<Action>)
    requires PossibleRun(world, actions)
    ensures SameUnmanaged(world, ActAll(world, actions))
  {
    if actions != [] {
      RunKeepsUnmanaged(world, actions[..|actions| - 1]);
      ActKeepsUnmanaged(ActAll(world, actions[..|actions| - 1]), actions[|actions| - 1]);
    }
  }

  /** No step of the activator changes a unit it does not manage; so as long as a pool has
      such a unit, every listing after any run gives the same template. */
  lemma TemplateStaysTheSame(world: map<string, Unit>, listing: seq<Unit>, world': map<string, Unit>, later: seq<Unit>, requestID: string)
    requires Performed(world, world')
    requires IsListing(listing, world) && IsListing(later, world')
    requires exists u :: u in listing && InPool(u, requestID) && !IsManaged(u)
    ensures SameUnmanaged(world, world')
    ensures Pool(listing, requestID) != [] && Pool(later, requestID) != []
    ensures Template(Pool(later, requestID)) == Template(Pool(listing, requestID))
  {
    PerformedKeepsUnmanaged(world, world');
    TemplateDependsOnUnmanaged(listing, world, later, world', requestID);
  }

  // --------------------------------------------- what the program does is such a run

  ghost predicate MadeFrom(template: Unit, u: Unit) {
    exists source :: u == NewWorker(template, source)
  }

  lemma ExtendedByNothing(before: map<string, Unit>, after: map<string, Unit>)
    requires Extended(before, after, [])
    ensures after == before
  {
  }

  lemma SplitLastUnit(units: seq<Unit>)
    requires units != []
    ensures units == units[..|units| - 1] + [units[|units| - 1]] && units[|units| - 1] in units
  {
  }

  lemma PutBack(world: map<string, Unit>, u: Unit)
    requires u.name in world && world[u.name] == u
    ensures (world - {u.name})[u.name := u] == world
  {
  }

  lemma RemoveOneMore(world: map<string, Unit>, names: set<string>, n: string)
    requires n in names
    ensures (world - (names - {n})) - {n} == world - names
  {
  }

  lemma {:induction false} CreationsPerformed(before: map<string, Unit>, after: map<string, Unit>, created: seq<Unit>)
    requires Extended(before, after, created) && DistinctNames(created)
    requires forall u :: u in created ==> Generated(u)
    ensures Performed(before, after)
  {
    if created == [] {
      ExtendedByNothing(before, after);
      NothingPerformed(before);
    } else {
      var first, u := created[..|created| - 1], created[|created| - 1];
      var middle := after - {u.name};
      SplitLastUnit(created);
      ExtendedWithoutLast(before, after, first, u);
      CreationsPerformed(before, middle, first);
      OnePerformed(middle, CreateWorker(u));
      PutBack(after, u);
      PerformedThen(before, middle, after);
    }
  }

  lemma ExtendedWithoutLast(before: map<string, Unit>, after: map<string, Unit>, first: seq<Unit>, u: Unit)
    requires Extended(before, after, first + [u]) && DistinctNames(first + [u])
    ensures Extended(before, after - {u.name}, first) && DistinctNames(first)
  {
    var created := first + [u];
    assert created[|first|] == u && u in created;
    forall v | v in first ensures v.name != u.name && v in created {
      var i :| 0 <= i < |first| && first[i] == v;
      assert created[i] == v;
    }
    assert forall v :: v in created ==> v in first || v == u;
    assert DistinctNames(first) by {
      assert forall i :: 0 <= i < |first| ==> created[i] == first[i];
    }
  }

  lemma {:induction false} DeletionsPerformed(world: map<string, Unit>, names: set<string>)
    requires forall n :: n in names ==> n in world && IsManaged(world[n])
    ensures Performed(world, world - names)
  {
    if names == {} {
      assert world - names == world;
      NothingPerformed(world);
    } else {
      var n :| n in names;
      DeletionsPerformed(world, names - {n});
      var middle := world - (names - {n});
      OnePerformed(middle, DeleteWorker(n));
      RemoveOneMore(world, names, n);
      PerformedThen(world, middle, world - names);
    }
  }

  /** The units are in the store as they were listed. */
  ghost predicate SeenLive(units: seq<Unit>, world: map<string, Unit>) {
    forall u :: u in units ==> u.name in world && world[u.name] == u
  }

  ghost predicate AllInPool(units: seq<Unit>, requestID: string) {
    forall u :: u in units ==> InPool(u, requestID)
  }

  /** What one pass over a pool leaves: the units created, and the names deleted, all of
      managed ready workers of the pool. */
  ghost predicate PoolChange(requestID: string, units: seq<Unit>, before: map<string, Unit>, after: map<string, Unit>,
                             created: seq<Unit>, deleted: set<string>)
  {
    && (created == [] || deleted == {})
    && DistinctNames(created)
    && (exists middle :: Extended(before, middle, created) && after == middle - deleted)
    && (forall u :: u in created ==> units != [] && MadeFrom(Template(units), u))
    && (forall n :: n in deleted ==> exists u :: u in units && u.name == n && IsManaged(u) && IsReadyWorker(u, requestID))
  }

  lemma PoolWorkerGenerated(units: seq<Unit>, requestID: string, u: Unit)
    requires units != [] && requestID != "" && AllInPool(units, requestID) && MadeFrom(Template(units), u)
    ensures Generated(u)
  {
    assert Template(units).serverless.requestID == requestID;
  }

  lemma PoolChangePerformed(requestID: string, units: seq<Unit>, before: map<string, Unit>, after: map<string, Unit>,
                            created: seq<Unit>, deleted: set<string>)
    requires PoolChange(requestID, units, before, after, created, deleted)
    requires requestID != "" && AllInPool(units, requestID) && SeenLive(units, before)
    ensures Performed(before, after)
  {
    var middle :| Extended(before, middle, created) && after == middle - deleted;
    if deleted == {} {
      assert after == middle;
      if created == [] {
        ExtendedByNothing(before, middle);
        NothingPerformed(before);
      } else {
        forall u | u in created ensures Generated(u) {
          PoolWorkerGenerated(units, requestID, u);
        }
        CreationsPerformed(before, after, created);
      }
    } else {
      ExtendedByNothing(before, middle);
      DeletionsPerformed(before, deleted);
    }
  }

  lemma PoolChanged(requestID: string, units: seq<Unit>, clock: nat -> string, failing: set<string>,
                    before: map<string, Unit>, middle: map<string, Unit>, created: seq<Unit>, deleted: set<string>)
    requires created == [] || deleted == {}
    requires units == [] ==> created == [] && middle == before
    requires units != [] ==> CreatedExactly(Asked(Template(units), clock), Missing(units), failing, before, middle, created)
    requires forall n :: n in deleted ==> exists u :: u in units && u.name == n && IsManaged(u) && IsReadyWorker(u, requestID)
    ensures PoolChange(requestID, units, before, middle - deleted, created, deleted)
  {
    assert Extended(before, middle, created);
    forall u | u in created ensures MadeFrom(Template(units), u) {
      AskedIsMade(Template(units), clock, Missing(units), u);
    }
  }

  lemma AskedIsMade(template: Unit, clock: nat -> string, n: nat, u: Unit)
    requires exists k: nat :: k < n && u == Asked(template, clock)(k)
    ensures MadeFrom(template, u)
  {
    var k: nat :| k < n && u == Asked(template, clock)(k);
    assert u == NewWorker(template, PrewarmSource(clock(k)));
  }

  /** One pool in one lifecycle pass.  It is a run of the machine whenever the pool is in the
      store as listed; the minimum and the deletions are as ensureMinAvailable and
      deleteIdleWorkers promise. */
  method ReconcilePool(manager: LifecycleManager, registry: WorkerRegistry, requestID: string, units: seq<Unit>,
                       now: nat, clock: nat -> string, failing: set<string>)
    returns (created: seq<Unit>, deleted: set<string>)
    requires DistinctNames(units)
    modifies manager`live, registry
    ensures registry.entries == Synced(old(registry.entries), requestID, units)
    ensures PoolChange(requestID, units, old(manager.live), manager.live, created, deleted)
    ensures |deleted| <= Excess(units, requestID)
    ensures units != [] ==> KeepsMinimum(units, requestID, deleted)
    ensures units != [] ==> exists middle ::
              Replenished(Template(units), clock, Missing(units), failing, old(manager.live), middle, created)
              && manager.live == middle - deleted
    ensures requestID != "" && AllInPool(units, requestID) && SeenLive(units, old(manager.live)) ==>
              Performed(old(manager.live), manager.live)
  {
    registry.Sync(requestID, units);
    NeverBoth(units, requestID);
    created := manager.EnsureMinAvailable(units, clock, failing);
    ghost var middle := manager.live;
    var candidates, chosen;
    candidates, chosen, deleted := manager.DeleteIdleWorkers(units, requestID, now, failing);
    assert forall c :: c in chosen ==> c in candidates;
    PoolChanged(requestID, units, clock, failing, old(manager.live), middle, created, deleted);
    assert manager.live == middle - deleted;
    if requestID != "" && AllInPool(units, requestID) && SeenLive(units, old(manager.live)) {
      PoolChangePerformed(requestID, units, old(manager.live), manager.live, created, deleted);
    }
  }

  /** The request IDs a lifecycle pass works through (groupServerlessUnits). */
  function RequestIDs(listing: seq<Unit>): set<string> {
    set u | u in listing && u.serverless.enabled && u.serverless.requestID != "" :: u.serverless.requestID
  }

  /** A pass over one pool leaves the units of another as they are. */
  lemma OtherPoolStays(requestID: string, units: seq<Unit>, before: map<string, Unit>, after: map<string, Unit>,
                       created: seq<Unit>, deleted: set<string>, other: seq<Unit>)
    requires PoolChange(requestID, units, before, after, created, deleted) && SeenLive(other, before)
    requires forall u, v :: u in units && v in other ==> u.name != v.name
    ensures SeenLive(other, after)
  {
  }

  lemma PoolsApart(listing: seq<Unit>, a: string, b: string)
    requires DistinctNames(listing) && a != b
    ensures forall u, v :: u in Pool(listing, a) && v in Pool(listing, b) ==> u.name != v.name
  {
    PoolMembers(listing, a);
    PoolMembers(listing, b);
    forall u, v | u in Pool(listing, a) && v in Pool(listing, b) ensures u.name != v.name {
      var i :| 0 <= i < |listing| && listing[i] == u;
      var j :| 0 <= j < |listing| && listing[j] == v;
      assert u.serverless.requestID == a && v.serverless.requestID == b;
    }
  }

  lemma PoolSeen(listing: seq<Unit>, requestID: string, world: map<string, Unit>)
    ensures AllInPool(Pool(listing, requestID), requestID)
    ensures SeenLive(listing, world) ==> SeenLive(Pool(listing, requestID), world)
  {
    PoolMembers(listing, requestID);
  }

  /** Reconcile: every pool of one listing, in any order.  If the store is as listed when the
      pass starts, the whole pass is a run of the machine, so it leaves every unmanaged unit
      as it is, however many pools it works through. */
  method Reconcile(manager: LifecycleManager, registry: WorkerRegistry, listing: seq<Unit>,
                   now: string -> nat, clock: string -> nat -> string, failing: set<string>)
    requires DistinctNames(listing)
    modifies manager`live, registry
    ensures SeenLive(listing, old(manager.live)) ==>
              Performed(old(manager.live), manager.live) && SameUnmanaged(old(manager.live), manager.live)
  {
    ghost var start, asListed := manager.live, SeenLive(listing, manager.live);
    var remaining := RequestIDs(listing);
    NothingPerformed(start);
    forall r | r in remaining && asListed ensures SeenLive(Pool(listing, r), manager.live) {
      PoolSeen(listing, r, manager.live);
    }
    while remaining != {}
      invariant "" !in remaining
      invariant asListed ==> Performed(start, manager.live)
      invariant asListed ==> forall r :: r in remaining ==> SeenLive(Pool(listing, r), manager.live)
      decreases remaining
    {
      var requestID :| requestID in remaining;
      var units := Pool(listing, requestID);
      PoolDistinct(listing, requestID);
      PoolSeen(listing, requestID, manager.live);
      ghost var before := manager.live;
      var created, deleted := ReconcilePool(manager, registry, requestID, units, now(requestID), clock(requestID), failing);
      remaining := remaining - {requestID};
      if asListed {
        PerformedThen(start, before, manager.live);
        forall r | r in remaining ensures SeenLive(Pool(listing, r), manager.live) {
          PoolsApart(listing, requestID, r);
          OtherPoolStays(requestID, units, before, manager.live, created, deleted, Pool(listing, r));
        }
      }
    }
    if asListed {
      PerformedKeepsUnmanaged(start, manager.live);
    }
  }

  lemma PerformedKeepsUnmanaged(before: map<string, Unit>, after: map<string, Unit>)
    requires Performed(before, after)
    ensures SameUnmanaged(before, after)
  {
    var actions :| PossibleRun(before, actions) && ActAll(before, actions) == after;
    RunKeepsUnmanaged(before, actions);
  }

  // ---------------------------------------------------- no deleting and recreating

  /** The two halves of the lifecycle argument together: over a pool with an unmanaged unit,
      a pass that deletes is not followed by one that creates, the phases being the same. */
  lemma DeletingPassNotFollowedByCreating(units: seq<Unit>, requestID: string, deleted: set<string>)
    requires DistinctNames(units) && units != [] && 0 < |deleted| <= Excess(units, requestID)
    requires forall u :: u in units && u.name in deleted ==> IsManaged(u)
    requires exists u :: u in units && !IsManaged(u)
    ensures Missing(Without(units, deleted)) == 0
  {
    TemplateSurvivesDeletion(units, deleted);
    NoCreateAfterDelete(units, requestID, deleted);
  }

  /** A pool without unmanaged units is as safe if all its units ask for the same minimum,
      whichever of them is the template before and after. */
  lemma SameMinimumNotFollowedByCreating(units: seq<Unit>, requestID: string, deleted: set<string>)
    requires DistinctNames(units) && units != [] && 0 < |deleted| <= Excess(units, requestID)
    requires forall u, v :: u in units && v in units ==> u.serverless.minAvailable == v.serverless.minAvailable
    ensures Missing(Without(units, deleted)) == 0
  {
    var left := Without(units, deleted);
    if left != [] {
      assert Template(left) in left && Template(units) in units;
    }
    NoCreateAfterDelete(units, requestID, deleted);
  }

  /** The units of a request ID all ask for this minimum. */
  ghost predicate AskFor(world: map<string, Unit>, requestID: string, minimum: int) {
    forall n :: n in world && world[n].serverless.requestID == requestID ==> world[n].serverless.minAvailable == minimum
  }

  ghost predicate MadeAsking(u: Unit, minimum: int) {
    exists template: Unit, source: string :: template.serverless.minAvailable == minimum && u == NewWorker(template, source)
  }

  /** The action creates no worker of the pool, or one made from a template that asks for the
      minimum. */
  ghost predicate CreatesAsking(a: Action, requestID: string, minimum: int) {
    a.CreateWorker? && a.worker.serverless.requestID == requestID ==> MadeAsking(a.worker, minimum)
  }

  lemma CreatesAsks(a: Action, requestID: string, minimum: int)
    requires CreatesAsking(a, requestID, minimum)
    ensures a.CreateWorker? && a.worker.serverless.requestID == requestID ==> a.worker.serverless.minAvailable == minimum
  {
    if a.CreateWorker? && a.worker.serverless.requestID == requestID {
      var template: Unit, source: string :| template.serverless.minAvailable == minimum && a.worker == NewWorker(template, source);
      assert a.worker.serverless == template.serverless;
    }
  }

  lemma AgreementStep(world: map<string, Unit>, a: Action, requestID: string, minimum: int)
    requires AskFor(world, requestID, minimum)
    requires a.CreateWorker? && a.worker.serverless.requestID == requestID ==> a.worker.serverless.minAvailable == minimum
    ensures AskFor(Act(world, a), requestID, minimum)
  {
  }

  /** Workers are made with the settings of their template, so a pool whose units agree stays
      so as long as its workers are made from it. */
  lemma {:induction false} AgreementStays(world: map<string, Unit>, actions: seq<Action>, requestID: string, minimum: int)
    requires AskFor(world, requestID, minimum)
    requires forall i :: 0 <= i < |actions| ==> CreatesAsking(actions[i], requestID, minimum)
    ensures AskFor(ActAll(world, actions), requestID, minimum)
  {
    if actions != [] {
      var before, a := actions[..|actions| - 1], actions[|actions| - 1];
      AgreementStays(world, before, requestID, minimum);
      CreatesAsks(a, requestID, minimum);
      AgreementStep(ActAll(world, before), a, requestID, minimum);
    }
  }

  /** Where they do not agree, the template itself can be deleted, and the next one may ask
      for more: here the pass deletes a worker, and the very next one creates. */
  lemma DeletedTemplateLeadsToCreating(a: Unit, b: Unit, requestID: string)
    requires a.name != b.name && IsManaged(a) && IsManaged(b) && IsReadyWorker(a, requestID) && IsReadyWorker(b, requestID)
    requires a.serverless.minAvailable == 0 && a.serverless.idleTimeoutSeconds > 0 && b.serverless.minAvailable == 2
    ensures Excess([a, b], requestID) == 2 && Without([a, b], {a.name}) == [b] && Missing([b]) == 1
  {
    ManagedTemplate(a, [b]);
    ManagedTemplate(b, []);
    assert [a] + [b] == [a, b] && [b] + [] == [b];
    PairReady(a, b, requestID);
    PairWithout(a, b);
    OneAvailable(b);
  }

  lemma ManagedTemplate(a: Unit, rest: seq<Unit>)
    requires IsManaged(a) && forall u :: u in rest ==> IsManaged(u)
    ensures Template([a] + rest) == a
  {
    FirstUnmanagedIn([a] + rest);
  }

  lemma PairReady(a: Unit, b: Unit, requestID: string)
    requires IsReadyWorker(a, requestID) && IsReadyWorker(b, requestID)
    ensures |ReadyUnits([a, b], requestID)| == 2
  {
    assert [a, b][..1] == [a] && [a][..0] == [];
    assert |ReadyUnits([a], requestID)| == 1;
  }

  lemma PairWithout(a: Unit, b: Unit)
    requires a.name != b.name
    ensures Without([a, b], {a.name}) == [b]
  {
    assert [a, b][..1] == [a] && [a][..0] == [];
    assert Without([a], {a.name}) == [];
  }

  lemma OneAvailable(b: Unit)
    requires b.phase.Ready?
    ensures Available([b]) == 1
  {
    assert [b][..0] == [];
  }

  // ---------------------------------------------------- what the runtime answers

  /** A second prewarm request in the same pass carries another operation ID but normally
      the same name (PrewarmNamesCoincide): once the first one exists, it never creates a
      worker. */
  lemma SecondPrewarmRefused(st: UV.Store, first: US.Request, second: US.Request)
    requires UT.Inv(st) && UV.CreateUnitCall(st, first).1 == US.Created
    requires second.name == first.name && second.operationID != first.operationID
    ensures var st' := UV.CreateUnitCall(st, first).0;
            UV.CreateUnitCall(st', second).0 == st' && UV.CreateUnitCall(st', second).1 != US.Created
  {
  }

  /** A worker request copies the template's storage mounts, and mounts are exclusive: while
      the template is live, a request yields a worker exactly if the template mounts nothing,
      the name is free and the operation new. */
  lemma TemplateYieldsWorkerExactly(st: UV.Store, template: string, req: US.Request)
    requires UT.Inv(st) && template in st.units && req.mounts == st.units[template].spec.mounts
    ensures UV.CreateUnitCall(st, req).1 == US.Created <==>
              req.mounts == [] && req.name != "" && req.name !in st.units && !US.OperationLive(st.units, req.operationID)
    ensures UV.CreateUnitCall(st, req).1 != US.Created ==> UV.CreateUnitCall(st, req).0 == st
  {
    UT.CreatedExactly(st, req);
    if req.mounts != [] {
      assert req.mounts[0] in req.mounts && template != "";
      assert US.MountedByOther(st.units, req.mounts[0], "");
    }
  }
}
