/** `migrate`: ensure the world (unless guest), sync the resources (unless the
    diff is synced), sync permissions, initialize contracts and sync external
    contracts, in that order; the first failing step ends the migration, and
    the migration has changes when any step had. */
module Migrate {
  import opened Base
  import opened Diff
  import opened Config
  import opened Chain
  import opened Declare
  import opened World
  import opened Resources
  import opened Permissions
  import opened Init
  import opened External

  /** A step that is not run. */
  const NotRun: Step := Step([], Ok(false))

  /** `b` after `a`, unless `a` failed; the changes of both are or-ed. */
  function Then(a: Step, b: Step): Step {
    if a.result.Err? then a
    else Step(a.ops + b.ops, match b.result case Err(err) => Err(err) case Ok(v) => Ok(a.result.value || v))
  }

  /** A step reports a change exactly when it sends an invoke transaction. */
  ghost predicate HonestChange(s: Step) {
    s.result.Ok? ==> (s.result.value <==> AnyInvokes(s.ops))
  }

  /** Chaining keeps steps honest about their changes, and a failure hides
      every later step. */
  lemma ThenSpec(a: Step, b: Step)
    ensures HonestChange(a) && HonestChange(b) ==> HonestChange(Then(a, b))
    ensures a.result.Err? ==> Then(a, b) == a
    ensures a.result.Ok? ==> Then(a, b).ops == a.ops + b.ops
    ensures Then(a, b).result.Ok? <==> a.result.Ok? && b.result.Ok?
  {
    if a.result.Ok? {
      AnyInvokesAppend(a.ops, b.ops);
    }
  }

  function WorldStep(m: Migration, env: Env): Step {
    if !m.guest then EnsureWorldSpec(m, env) else NotRun
  }

  function ResourcesStep(m: Migration, env: Env): Step {
    if !IsSynced(m.diff) then SyncResourcesSpec(m, env) else NotRun
  }

  /** What `migrate` submits and returns (`has_changes`, or the first error). */
  function MigrateSpec(m: Migration, env: Env): Step {
    Then(WorldStep(m, env),
      Then(ResourcesStep(m, env),
        Then(SyncPermissionsSpec(m, env),
          Then(InitializeContractsSpec(m, env), SyncExternalSpec(m, env)))))
  }

  /** `has_changes` is true exactly when the migration sent at least one
      invoke transaction (a deployment, an upgrade, a registration, a grant,
      an initialization or an external deployment); declarations alone are
      not changes. */
  lemma MigrateHasChanges(m: Migration, env: Env)
    ensures var s := MigrateSpec(m, env);
      s.result.Ok? ==> (s.result.value <==> AnyInvokes(s.ops))
  {
    EnsureWorldChanges(m, env);
    SyncResourcesChanges(m, env);
    SyncPermissionsChanges(m, env);
    InitializeChanges(m, env);
    SyncExternalChanges(m, env);
    var x, i, p := SyncExternalSpec(m, env), InitializeContractsSpec(m, env), SyncPermissionsSpec(m, env);
    var r, w := ResourcesStep(m, env), WorldStep(m, env);
    assert HonestChange(NotRun);
    ThenSpec(i, x);
    ThenSpec(p, Then(i, x));
    ThenSpec(r, Then(p, Then(i, x)));
    ThenSpec(w, Then(r, Then(p, Then(i, x))));
  }

  /** The operation leaves the world contract alone: it neither deploys
      through the migrator nor calls the world's upgrade entrypoint. */
  predicate LeavesWorld(o: Op) {
    !o.Deploy? && (o.Execute? ==> forall c :: c in o.calls ==> !c.UpgradeWorld?)
  }

  /** Declarations followed by one batch leave the world alone when the
      batch does not upgrade it. */
  lemma FlushLeavesWorld(classes: map<Felt, LabeledClass>, mode: ExecMode, batch: seq<Call>, env: Env)
    requires forall c :: c in batch ==> !c.UpgradeWorld?
    ensures forall o :: o in DeclareThenFlush(classes, mode, batch, env).ops ==> LeavesWorld(o)
  {
    DeclareCoversClasses(classes, env);
  }

  lemma ResourcesLeaveWorld(m: Migration, env: Env)
    ensures forall o :: o in SyncResourcesSpec(m, env).ops ==> LeavesWorld(o)
  {
    var d := m.diff;
    var ns := NamespaceCalls(d.namespaces, d.resources);
    var plan := CollectResources(d.resources, m.profile);
    if ns.Ok? && plan.Ok? {
      NamespaceCallsFailIff(d.namespaces, d.resources);
      PlanCounts(d.resources, m.profile);
      var batch := ns.value + plan.value.calls;
      assert forall c :: c in batch ==> c in ns.value || c in plan.value.calls;
      FlushLeavesWorld(plan.value.classes, ModeOf(DoMulticall(m.profile)), batch, env);
    }
  }

  lemma PermissionsLeaveWorld(m: Migration, env: Env)
    ensures forall o :: o in SyncPermissionsSpec(m, env).ops ==> LeavesWorld(o)
  {
    SyncPermissionsChanges(m, env);
  }

  lemma InitLeavesWorld(m: Migration, env: Env)
    ensures forall o :: o in InitializeContractsSpec(m, env).ops ==> LeavesWorld(o)
  {
    InitializeChanges(m, env);
  }

  lemma ExternalLeavesWorld(m: Migration, env: Env)
    ensures forall o :: o in SyncExternalSpec(m, env).ops ==> LeavesWorld(o)
  {
    var classes := ExternalClasses(m.diff.externalContractClasses);
    DeclareCoversClasses(classes, env);
    DeployCallsSpec(m.diff.externalContracts, env);
  }

  /** A guest migration never deploys or upgrades the world. */
  lemma GuestLeavesWorld(m: Migration, env: Env)
    requires m.guest
    ensures forall o :: o in MigrateSpec(m, env).ops ==> LeavesWorld(o)
  {
    ResourcesLeaveWorld(m, env);
    PermissionsLeaveWorld(m, env);
    InitLeavesWorld(m, env);
    ExternalLeavesWorld(m, env);
    var x, i, p := SyncExternalSpec(m, env), InitializeContractsSpec(m, env), SyncPermissionsSpec(m, env);
    var r := ResourcesStep(m, env);
    ThenSpec(i, x);
    ThenSpec(p, Then(i, x));
    ThenSpec(r, Then(p, Then(i, x)));
    ThenSpec(NotRun, Then(r, Then(p, Then(i, x))));
  }

  /** A migration with nothing to do reports no changes: the world is synced
      (or not managed), every resource is synced, no permission is local-only,
      no contract awaits initialization and every external contract is
      already deployed. */
  lemma NothingToDo(m: Migration, env: Env)
    requires m.guest || m.diff.world.status.Synced?
    requires IsSynced(m.diff)
    requires forall i :: 0 <= i < |m.diff.resources| ==> !HasGrants(m.diff, m.profile, m.diff.resources[i])
    requires forall i :: 0 <= i < |m.diff.resources| ==> !IsCandidate(m.diff.resources[i], m.profile)
    requires forall i :: (0 <= i < |m.diff.externalContracts| && m.diff.externalContracts[i].ExternalContractCreated?
                          ==> env.udcDeployed(m.diff.externalContracts[i].request) != Ok(false))
    ensures MigrateSpec(m, env).result.Ok? ==> MigrateSpec(m, env).result.value == false
  {
    EnsureWorldChanges(m, env);
    SyncPermissionsChanges(m, env);
    InitializeChanges(m, env);
    SyncExternalChanges(m, env);
  }

  /** The three steps that run for every migration. */
  function LaterSteps(m: Migration, env: Env): Step {
    Then(SyncPermissionsSpec(m, env), Then(InitializeContractsSpec(m, env), SyncExternalSpec(m, env)))
  }

  method MigrateLater(m: Migration, remote: Remote) returns (r: Result<bool, MigrationError>)
    modifies remote
    ensures remote.log == old(remote.log) + LaterSteps(m, remote.env).ops
    ensures r == LaterSteps(m, remote.env).result
  {
    ghost var env := remote.env;
    ghost var p, i, x := SyncPermissionsSpec(m, env), InitializeContractsSpec(m, env), SyncExternalSpec(m, env);
    var permissions := SyncPermissions(m, remote);
    if permissions.Err? {
      ThenStops(p, Then(i, x));
      return Err(permissions.error);
    }
    ghost var afterPermissions := remote.log;
    var contracts := InitializeContracts(m, remote);
    if contracts.Err? {
      ThenStops(i, x);
      ThenLog(p, Then(i, x), old(remote.log), afterPermissions, remote.log);
      ThenFails(p, Then(i, x));
      return Err(contracts.error);
    }
    ghost var afterContracts := remote.log;
    var external := SyncExternalContracts(m, remote);
    ThenLog(i, x, afterPermissions, afterContracts, remote.log);
    ThenLog(p, Then(i, x), old(remote.log), afterPermissions, remote.log);
    if external.Err? {
      ThenFails(i, x);
      ThenFails(p, Then(i, x));
      return Err(external.error);
    }
    ThenResult(i, x, contracts.value, external.value);
    ThenResult(p, Then(i, x), permissions.value, contracts.value || external.value);
    return Ok(permissions.value || contracts.value || external.value);
  }

  /** `ensure_world`, skipped for a guest migration. */
  method MigrateWorld(m: Migration, remote: Remote) returns (r: Result<bool, MigrationError>)
    modifies remote
    ensures remote.log == old(remote.log) + WorldStep(m, remote.env).ops
    ensures r == WorldStep(m, remote.env).result
  {
    if m.guest {
      return Ok(false);
    }
    r := EnsureWorld(m, remote);
  }

  /** `sync_resources`, skipped when the diff is synced. */
  method MigrateResources(m: Migration, remote: Remote) returns (r: Result<bool, MigrationError>)
    modifies remote
    ensures remote.log == old(remote.log) + ResourcesStep(m, remote.env).ops
    ensures r == ResourcesStep(m, remote.env).result
  {
    if IsSynced(m.diff) {
      return Ok(false);
    }
    r := SyncResources(m, remote);
  }

  /** Logs of two consecutive steps, the first of which succeeded, add up to
      the log of the chained step. */
  lemma ThenLog(a: Step, b: Step, start: seq<Op>, mid: seq<Op>, end: seq<Op>)
    requires a.result.Ok? && mid == start + a.ops && end == mid + b.ops
    ensures end == start + Then(a, b).ops
  {
  }

  /** A failed step ends the chain. */
  lemma ThenStops(a: Step, b: Step)
    requires a.result.Err?
    ensures Then(a, b) == a
  {
  }

  /** A later step's failure is the chain's failure. */
  lemma ThenFails(a: Step, b: Step)
    requires a.result.Ok? && b.result.Err?
    ensures Then(a, b).result == b.result
  {
  }

  /** Both steps succeeded: the changes are or-ed. */
  lemma ThenResult(a: Step, b: Step, x: bool, y: bool)
    requires a.result == Ok(x) && b.result == Ok(y)
    ensures Then(a, b).result == Ok(x || y)
  {
  }

  method Migrate(m: Migration, remote: Remote) returns (r: Result<bool, MigrationError>)
    modifies remote
    ensures remote.log == old(remote.log) + MigrateSpec(m, remote.env).ops
    ensures r == MigrateSpec(m, remote.env).result
  {
    ghost var env := remote.env;
    ghost var w, rs, later := WorldStep(m, env), ResourcesStep(m, env), LaterSteps(m, env);
    ghost var spec := Then(w, Then(rs, later));
    assert MigrateSpec(m, env) == spec;
    var world := MigrateWorld(m, remote);
    if world.Err? {
      ThenStops(w, Then(rs, later));
      return Err(world.error);
    }
    ghost var afterWorld := remote.log;
    var resources := MigrateResources(m, remote);
    if resources.Err? {
      ThenStops(rs, later);
      ThenLog(w, Then(rs, later), old(remote.log), afterWorld, remote.log);
      return Err(resources.error);
    }
    ghost var afterResources := remote.log;
    var rest := MigrateLater(m, remote);
    ThenLog(rs, later, afterWorld, afterResources, remote.log);
    ThenLog(w, Then(rs, later), old(remote.log), afterWorld, remote.log);
    if rest.Err? {
      ThenFails(rs, later);
      ThenFails(w, Then(rs, later));
      return Err(rest.error);
    }
    ThenResult(rs, later, resources.value, rest.value);
    ThenResult(w, Then(rs, later), world.value, resources.value || rest.value);
    return Ok(world.value || resources.value || rest.value);
  }
}
