/** `ensure_world`: the world contract itself is deployed when absent,
    upgraded when its class changed, and left alone when in sync. */
module World {
  import opened Base
  import opened Diff
  import opened Config
  import opened Chain

  /** The world class to declare, labelled "world". */
  function WorldClass(w: WorldInfo): LabeledClass {
    LabeledClass("world", w.casmClassHash, w.classHash)
  }

  /** The deployment of a first world: its class, the configured salt, and its
      own class hash as the constructor argument. */
  function WorldDeployment(m: Migration): UdcRequest {
    UdcRequest(m.diff.world.classHash, m.profile.worldSalt, [m.diff.world.classHash])
  }

  /** What `ensure_world` submits and returns. */
  function EnsureWorldSpec(m: Migration, env: Env): Step {
    var w := m.diff.world;
    var declare := Declare(Migrator, [WorldClass(w)]);
    match w.status
    case Synced => Step([], Ok(false))
    case NotDeployed =>
      if env.verdict(declare).Some? then Step([declare], Err(DeclarerError(env.verdict(declare).value)))
      else
        var deploy := Deploy(WorldDeployment(m));
        if env.verdict(deploy).Some? then Step([declare, deploy], Err(TransactionError(env.verdict(deploy).value)))
        else Step([declare, deploy], Ok(true))
    case NewVersion =>
      if env.verdict(declare).Some? then Step([declare], Err(DeclarerError(env.verdict(declare).value)))
      else
        var upgrade := Execute(Multicall, [UpgradeWorld(w.classHash)]);
        match Flushed(env, Multicall, [UpgradeWorld(w.classHash)])
        case Some(e) => Step([declare, upgrade], Err(e))
        case None => Step([declare, upgrade], Ok(true))
  }

  /** The world step reports a change exactly when the world is not in sync,
      which is exactly when it sends a transaction; a world that needs work
      always has its class declared first, and is then deployed (first
      version) or upgraded in a single multicall (new version). */
  lemma EnsureWorldChanges(m: Migration, env: Env)
    ensures var s := EnsureWorldSpec(m, env);
      s.result.Ok? ==> (s.result.value <==> !m.diff.world.status.Synced?)
    ensures var s := EnsureWorldSpec(m, env);
      s.result.Ok? ==> (s.result.value <==> AnyInvokes(s.ops))
    ensures var s := EnsureWorldSpec(m, env);
      !m.diff.world.status.Synced? ==> s.ops[0] == Declare(Migrator, [WorldClass(m.diff.world)])
    ensures var s := EnsureWorldSpec(m, env);
      m.diff.world.status == NotDeployed && s.result.Ok? ==> s.ops[1] == Deploy(WorldDeployment(m))
    ensures var s := EnsureWorldSpec(m, env);
      m.diff.world.status == NewVersion && s.result.Ok? ==>
        s.ops[1] == Execute(Multicall, [UpgradeWorld(m.diff.world.classHash)])
  {
    var s := EnsureWorldSpec(m, env);
    if s.result.Ok? && !m.diff.world.status.Synced? {
      assert Invokes(s.ops[1]);
    }
  }

  method EnsureWorld(m: Migration, remote: Remote) returns (r: Result<bool, MigrationError>)
    modifies remote
    ensures remote.log == old(remote.log) + EnsureWorldSpec(m, remote.env).ops
    ensures r == EnsureWorldSpec(m, remote.env).result
  {
    var w := m.diff.world;
    match w.status {
      case Synced =>
        return Ok(false);
      case NotDeployed =>
        var e := remote.Submit(Declare(Migrator, [WorldClass(w)]));
        if e.Some? {
          return Err(DeclarerError(e.value));
        }
        e := remote.Submit(Deploy(WorldDeployment(m)));
        if e.Some? {
          return Err(TransactionError(e.value));
        }
        return Ok(true);
      case NewVersion =>
        var e := remote.Submit(Declare(Migrator, [WorldClass(w)]));
        if e.Some? {
          return Err(DeclarerError(e.value));
        }
        var invoker := new Invoker();
        invoker.AddCall(UpgradeWorld(w.classHash));
        assert invoker.calls == [UpgradeWorld(w.classHash)];
        ghost var before := remote.log;
        var f := invoker.Flush(remote, Multicall);
        if f.Some? {
          return Err(f.value);
        }
        assert remote.log == before + [Execute(Multicall, [UpgradeWorld(w.classHash)])];
        return Ok(true);
    }
  }
}
