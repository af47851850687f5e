/** `sync_external_contracts`: declare the classes of external contracts that
    are new, then deploy through the UDC every Created external contract that
    is not already at its deterministic address. */
module External {
  import opened Base
  import opened Diff
  import opened Config
  import opened Chain
  import opened Declare

  /** `external_contract_classes`: a Created class is declared under its CASM
      class hash, labelled with its contract name. */
  function ExternalClassEntry(c: ExternalContractClassDiff): Option<(Felt, LabeledClass)> {
    match c
    case ExternalClassCreated(k) => Some((k.casmClassHash, LabeledClass(k.contractName, k.casmClassHash, k.classHash)))
    case ExternalClassSynced(_) => None
  }

  /** The class map collected from the entries in order; a later entry
      replaces an earlier one with the same key. */
  function ExternalClasses(cs: seq<ExternalContractClassDiff>): map<Felt, LabeledClass>
    decreases |cs|
  {
    if cs == [] then map[]
    else
      var acc := ExternalClasses(cs[..|cs| - 1]);
      match ExternalClassEntry(cs[|cs| - 1])
      case None => acc
      case Some(kv) => acc[kv.0 := kv.1]
  }

  /** Exactly the Created classes are declared, each under its CASM class hash. */
  lemma {:induction false} ExternalClassesKeys(cs: seq<ExternalContractClassDiff>)
    ensures forall k :: k in ExternalClasses(cs) <==>
      exists i :: 0 <= i < |cs| && cs[i].ExternalClassCreated? && cs[i].contractClass.casmClassHash == k
    decreases |cs|
  {
    if cs != [] {
      var prefix, last := cs[..|cs| - 1], cs[|cs| - 1];
      ExternalClassesKeys(prefix);
      forall k ensures k in ExternalClasses(cs) <==>
        exists i :: 0 <= i < |cs| && cs[i].ExternalClassCreated? && cs[i].contractClass.casmClassHash == k
      {
        if exists i :: 0 <= i < |cs| && cs[i].ExternalClassCreated? && cs[i].contractClass.casmClassHash == k {
          var i :| 0 <= i < |cs| && cs[i].ExternalClassCreated? && cs[i].contractClass.casmClassHash == k;
          if i < |prefix| {
            assert prefix[i] == cs[i];
          } else {
            assert i == |cs| - 1;
          }
        }
        if k in ExternalClasses(prefix) {
          var i :| 0 <= i < |prefix| && prefix[i].ExternalClassCreated? && prefix[i].contractClass.casmClassHash == k;
          assert prefix[i] == cs[i];
        }
      }
    }
  }

  /** The class kept under a key is the last Created entry with that key. */
  lemma {:induction false} ExternalClassesValues(cs: seq<ExternalContractClassDiff>)
    ensures forall k :: k in ExternalClasses(cs) ==>
      exists i :: 0 <= i < |cs| && cs[i].ExternalClassCreated? && cs[i].contractClass.casmClassHash == k
        && ExternalClasses(cs)[k] == LabeledClass(cs[i].contractClass.contractName, k, cs[i].contractClass.classHash)
        && forall j :: i < j < |cs| && cs[j].ExternalClassCreated? ==> cs[j].contractClass.casmClassHash != k
    decreases |cs|
  {
    if cs != [] {
      var prefix, last := cs[..|cs| - 1], cs[|cs| - 1];
      ExternalClassesValues(prefix);
      assert forall i :: 0 <= i < |prefix| ==> prefix[i] == cs[i];
      assert cs[|cs| - 1] == last;
    }
  }

  /** The UDC calls for the external contracts in order: a Created contract
      that is not yet deployed gets one; a failed lookup fails the step. */
  function DeployCalls(xs: seq<ExternalContractDiff>, env: Env): Result<seq<Call>, MigrationError>
    decreases |xs|
  {
    if xs == [] then Ok([])
    else match DeployCalls(xs[..|xs| - 1], env)
      case Err(err) => Err(err)
      case Ok(acc) =>
        match xs[|xs| - 1]
        case ExternalContractSynced(_) => Ok(acc)
        case ExternalContractCreated(req) =>
          match env.udcDeployed(req)
          case Err(msg) => Err(TransactionError(msg))
          case Ok(true) => Ok(acc)
          case Ok(false) => Ok(acc + [UdcDeploy(req)])
  }

  lemma {:induction false} DeployErrPersists(xs: seq<ExternalContractDiff>, env: Env, j: nat)
    requires j <= |xs| && DeployCalls(xs[..j], env).Err?
    ensures DeployCalls(xs, env) == DeployCalls(xs[..j], env)
    decreases |xs|
  {
    if j < |xs| {
      var prefix := xs[..|xs| - 1];
      assert prefix[..j] == xs[..j];
      DeployErrPersists(prefix, env, j);
    } else {
      assert xs[..j] == xs;
    }
  }

  /** The deployment of external contracts fails exactly when the UDC lookup
      of some Created contract fails; otherwise a deploy call is sent exactly
      for the Created contracts that are not deployed yet, and nothing else. */
  lemma {:induction false} DeployCallsSpec(xs: seq<ExternalContractDiff>, env: Env)
    ensures DeployCalls(xs, env).Err? <==>
      exists i :: 0 <= i < |xs| && xs[i].ExternalContractCreated? && env.udcDeployed(xs[i].request).Err?
    ensures var r := DeployCalls(xs, env);
      r.Ok? ==> forall c :: c in r.value ==> c.UdcDeploy?
    ensures var r := DeployCalls(xs, env);
      r.Ok? ==> forall q :: UdcDeploy(q) in r.value <==>
        exists i :: 0 <= i < |xs| && xs[i] == ExternalContractCreated(q) && env.udcDeployed(q) == Ok(false)
    decreases |xs|
  {
    if xs != [] {
      var prefix, last := xs[..|xs| - 1], xs[|xs| - 1];
      DeployCallsSpec(prefix, env);
      assert forall i :: 0 <= i < |prefix| ==> prefix[i] == xs[i];
      assert xs[|xs| - 1] == last;
    }
  }

  /** How many Created external contracts request `q` while it is not yet deployed. */
  function UndeployedCount(xs: seq<ExternalContractDiff>, env: Env, q: UdcRequest): nat
    decreases |xs|
  {
    if xs == [] then 0
    else
      UndeployedCount(xs[..|xs| - 1], env, q)
      + (if xs[|xs| - 1] == ExternalContractCreated(q) && env.udcDeployed(q) == Ok(false) then 1 else 0)
  }

  /** How many Created external contracts are not yet deployed at all. */
  function Undeployed(xs: seq<ExternalContractDiff>, env: Env): nat
    decreases |xs|
  {
    if xs == [] then 0
    else
      var x := xs[|xs| - 1];
      Undeployed(xs[..|xs| - 1], env) + (if x.ExternalContractCreated? && env.udcDeployed(x.request) == Ok(false) then 1 else 0)
  }

  /** One deploy call per Created external contract not yet deployed: there are
      as many calls as such contracts, and each request is deployed as often
      as it is listed among them. */
  lemma {:induction false} DeployCallsCount(xs: seq<ExternalContractDiff>, env: Env)
    ensures var r := DeployCalls(xs, env);
      r.Ok? ==> |r.value| == Undeployed(xs, env)
    ensures var r := DeployCalls(xs, env);
      r.Ok? ==> forall q :: multiset(r.value)[UdcDeploy(q)] == UndeployedCount(xs, env, q)
    decreases |xs|
  {
    if xs != [] {
      var prefix, last := xs[..|xs| - 1], xs[|xs| - 1];
      DeployCallsCount(prefix, env);
      var r := DeployCalls(xs, env);
      if r.Ok? {
        var acc := DeployCalls(prefix, env).value;
        if last.ExternalContractCreated? && env.udcDeployed(last.request) == Ok(false) {
          assert r.value == acc + [UdcDeploy(last.request)];
        } else {
          assert r.value == acc;
        }
      }
    }
  }

  /** What `sync_external_contracts` submits and returns. */
  function SyncExternalSpec(m: Migration, env: Env): Step {
    var declared := DeclareSpec(ExternalClasses(m.diff.externalContractClasses), env);
    if declared.error.Some? then Step(declared.ops, Err(declared.error.value))
    else match DeployCalls(m.diff.externalContracts, env)
      case Err(err) => Step(declared.ops, Err(err))
      case Ok(calls) =>
        var mode := ModeOf(DoMulticall(m.profile));
        Step(declared.ops + [Execute(mode, calls)],
             match Flushed(env, mode, calls) case Some(err) => Err(err) case None => Ok(calls != []))
  }

  /** The classes are declared before the deployments, and exactly the
      classes collected from the diff are declared. */
  lemma SyncExternalOrder(m: Migration, env: Env)
    ensures var s := SyncExternalSpec(m, env);
      forall i :: 0 <= i < |s.ops| - 1 ==> s.ops[i].Declare?
    ensures DeclaredIn(SyncExternalSpec(m, env).ops) == multiset(ClassOrder(ExternalClasses(m.diff.externalContractClasses), env))
  {
    var classes := ExternalClasses(m.diff.externalContractClasses);
    DeclareCoversClasses(classes, env);
    var declared := DeclareSpec(classes, env);
    var r := DeployCalls(m.diff.externalContracts, env);
    if declared.error.None? && r.Ok? {
      var ops := declared.ops + [Execute(ModeOf(DoMulticall(m.profile)), r.value)];
      assert ops[..|ops| - 1] == declared.ops;
    }
  }

  /** The collected classes are keyed by their own CASM class hash. */
  lemma ExternalKeyedByCasm(cs: seq<ExternalContractClassDiff>)
    ensures KeyedByCasm(ExternalClasses(cs))
  {
    ExternalClassesValues(cs);
  }

  /** When class maps are iterated as a `HashMap` iterates them, every
      collected external class is declared exactly once, and each declared
      class is the labelled class of a Created entry of the diff. */
  lemma SyncExternalDeclaresEachOnce(m: Migration, env: Env)
    requires IteratesMaps(env)
    ensures var classes := ExternalClasses(m.diff.externalContractClasses);
      forall k :: k in classes ==> DeclaredIn(SyncExternalSpec(m, env).ops)[classes[k]] == 1
    ensures var cs := m.diff.externalContractClasses;
      forall c :: c in DeclaredIn(SyncExternalSpec(m, env).ops) ==>
        exists i :: 0 <= i < |cs| && cs[i].ExternalClassCreated?
          && c == LabeledClass(cs[i].contractClass.contractName, cs[i].contractClass.casmClassHash, cs[i].contractClass.classHash)
  {
    var cs := m.diff.externalContractClasses;
    var classes := ExternalClasses(cs);
    SyncExternalOrder(m, env);
    ExternalKeyedByCasm(cs);
    ExternalClassesValues(cs);
    assert ListsKeys(classes, env.iterationOrder(classes));
    DeclareEachClassOnce(classes, env);
    DeclareCoversClasses(classes, env);
    forall c | c in DeclaredIn(SyncExternalSpec(m, env).ops)
      ensures
        exists i :: 0 <= i < |cs| && cs[i].ExternalClassCreated?
          && c == LabeledClass(cs[i].contractClass.contractName, cs[i].contractClass.casmClassHash, cs[i].contractClass.classHash)
    {
      assert c in DeclaredIn(DeclareSpec(classes, env).ops);
      var k :| k in classes && classes[k] == c;
      var i :| 0 <= i < |cs| && cs[i].ExternalClassCreated? && cs[i].contractClass.casmClassHash == k
        && classes[k] == LabeledClass(cs[i].contractClass.contractName, k, cs[i].contractClass.classHash);
    }
  }

  /** The step reports a change exactly when it sends an invoke, that is
      exactly when some Created external contract was not yet deployed:
      declaring a class alone does not count as a change. */
  lemma SyncExternalChanges(m: Migration, env: Env)
    ensures var s := SyncExternalSpec(m, env);
      s.result.Ok? ==> (s.result.value <==> AnyInvokes(s.ops))
    ensures var s := SyncExternalSpec(m, env);
      s.result.Ok? ==> (s.result.value <==>
        exists i :: 0 <= i < |m.diff.externalContracts| && m.diff.externalContracts[i].ExternalContractCreated?
          && env.udcDeployed(m.diff.externalContracts[i].request) == Ok(false))
  {
    var classes := ExternalClasses(m.diff.externalContractClasses);
    DeclareCoversClasses(classes, env);
    DeployCallsSpec(m.diff.externalContracts, env);
    var declared := DeclareSpec(classes, env);
    var r := DeployCalls(m.diff.externalContracts, env);
    if declared.error.None? && r.Ok? {
      var mode := ModeOf(DoMulticall(m.profile));
      AnyInvokesAppend(declared.ops, [Execute(mode, r.value)]);
      assert !AnyInvokes(declared.ops);
      if r.value != [] {
        assert Invokes([Execute(mode, r.value)][0]);
        assert r.value[0] in r.value;
      }
      if exists i :: 0 <= i < |m.diff.externalContracts| && m.diff.externalContracts[i].ExternalContractCreated?
          && env.udcDeployed(m.diff.externalContracts[i].request) == Ok(false) {
        var i :| 0 <= i < |m.diff.externalContracts| && m.diff.externalContracts[i].ExternalContractCreated?
          && env.udcDeployed(m.diff.externalContracts[i].request) == Ok(false);
        assert UdcDeploy(m.diff.externalContracts[i].request) in r.value;
      }
    }
  }

  /** The deployment loop: one UDC lookup per Created external contract. */
  method DeployExternalContracts(xs: seq<ExternalContractDiff>, env: Env, invoker: Invoker)
    returns (err: Option<MigrationError>)
    modifies invoker
    ensures err.None? <==> DeployCalls(xs, env).Ok?
    ensures err.Some? ==> DeployCalls(xs, env) == Err(err.value)
    ensures err.None? ==> invoker.calls == old(invoker.calls) + DeployCalls(xs, env).value
  {
    for i := 0 to |xs|
      invariant DeployCalls(xs[..i], env).Ok?
      invariant invoker.calls == old(invoker.calls) + DeployCalls(xs[..i], env).value
    {
      assert xs[..i + 1][..i] == xs[..i] && xs[..i + 1][i] == xs[i];
      if xs[i].ExternalContractCreated? {
        var req := xs[i].request;
        var deployed := env.udcDeployed(req);
        if deployed.Err? {
          DeployErrPersists(xs, env, i + 1);
          return Some(TransactionError(deployed.error));
        }
        if !deployed.value {
          invoker.AddCall(UdcDeploy(req));
        }
      }
    }
    assert xs[..|xs|] == xs;
    return None;
  }

  method SyncExternalContracts(m: Migration, remote: Remote) returns (r: Result<bool, MigrationError>)
    modifies remote
    ensures remote.log == old(remote.log) + SyncExternalSpec(m, remote.env).ops
    ensures r == SyncExternalSpec(m, remote.env).result
  {
    var invoker := new Invoker();
    var classes := ExternalClasses(m.diff.externalContractClasses);
    var declareErr := DeclareClasses(classes, remote);
    if declareErr.Some? {
      return Err(declareErr.value);
    }
    var deployErr := DeployExternalContracts(m.diff.externalContracts, remote.env, invoker);
    if deployErr.Some? {
      return Err(deployErr.value);
    }
    assert invoker.calls == DeployCalls(m.diff.externalContracts, remote.env).value;
    var hasChanged := invoker.calls != [];
    ghost var before := remote.log;
    var err := invoker.Flush(remote, ModeOf(DoMulticall(m.profile)));
    assert remote.log == before + [Execute(ModeOf(DoMulticall(m.profile)), invoker.calls)];
    if err.Some? {
      return Err(err.value);
    }
    return Ok(hasChanged);
  }
}
