/** What the migration sends to the chain. World calls are values (`Call`);
    the remote target is a log of submitted operations together with an
    environment that says how the target answers each one. `Invoker`
    accumulates calls and flushes them as one operation. */
module Chain {
  import opened Base
  import opened Diff

  /** The world entrypoint calls the migration builds (`*_getcall`). */
  datatype Call =
    | RegisterNamespace(name: string)
    | RegisterContract(selector: Felt, namespace: string, classHash: Felt)
    | UpgradeContract(namespace: string, classHash: Felt)
    | RegisterLibrary(namespace: string, classHash: Felt, libName: string, version: string)
    | RegisterModel(namespace: string, classHash: Felt)
    | UpgradeModel(namespace: string, classHash: Felt)
    | RegisterEvent(namespace: string, classHash: Felt)
    | UpgradeEvent(namespace: string, classHash: Felt)
    | GrantWriter(resource: Felt, grantee: Felt)
    | GrantOwner(resource: Felt, grantee: Felt)
    | InitContract(selector: Felt, args: seq<Felt>)
    | UpgradeWorld(classHash: Felt)
    | UdcDeploy(request: UdcRequest)

  /** The class hash a register or upgrade call points the world at. */
  function ClassRef(c: Call): Option<Felt> {
    match c
    case RegisterContract(_, _, h) => Some(h)
    case UpgradeContract(_, h) => Some(h)
    case RegisterLibrary(_, h, _, _) => Some(h)
    case RegisterModel(_, h) => Some(h)
    case UpgradeModel(_, h) => Some(h)
    case RegisterEvent(_, h) => Some(h)
    case UpgradeEvent(_, h) => Some(h)
    case UpgradeWorld(h) => Some(h)
    case _ => None
  }

  /** A class to declare; the flattened class is represented by its class hash. */
  datatype LabeledClass = LabeledClass(name: string, casmClassHash: Felt, classHash: Felt)

  /** The migrator account, or the predeployed account at some index. */
  datatype Account = Migrator | Predeployed(index: nat)

  datatype ExecMode = Multicall | Sequential

  /** One operation submitted to the chain. */
  datatype Op =
    | Declare(account: Account, classes: seq<LabeledClass>)
    | Execute(mode: ExecMode, calls: seq<Call>)
    | Deploy(request: UdcRequest)

  /** Answer of a UDC lookup: true when the deterministic address already holds a contract. */
  type UdcAnswer = Result<bool, string>

  /** Everything outside the planner: how the chain answers, the predeployed
      accounts, the order in which a class map yields its keys, and the calldata
      decoder. */
  datatype Env = Env(
    verdict: Op -> Option<string>,
    udcDeployed: UdcRequest -> UdcAnswer,
    accounts: nat,
    iterationOrder: map<Felt, LabeledClass> -> seq<Felt>,
    decode: seq<string> -> Option<seq<Felt>>)

  datatype MigrationError =
    | DeclarerError(msg: string)
    | TransactionError(msg: string)
    | DeclareClassError(msg: string)
    | InitCallArgs
    | Panic(reason: string)

  /** The operations a step submits and what it returns (`Ok(changed)` or an error). */
  datatype Step = Step(ops: seq<Op>, result: Result<bool, MigrationError>)

  /** An operation that sends at least one invoke transaction. */
  predicate Invokes(op: Op) {
    (op.Execute? && op.calls != []) || op.Deploy?
  }

  predicate AnyInvokes(ops: seq<Op>) {
    exists i :: 0 <= i < |ops| && Invokes(ops[i])
  }

  lemma AnyInvokesAppend(a: seq<Op>, b: seq<Op>)
    ensures AnyInvokes(a + b) <==> AnyInvokes(a) || AnyInvokes(b)
  {
    if AnyInvokes(a + b) {
      var i :| 0 <= i < |a + b| && Invokes((a + b)[i]);
      if i >= |a| { assert (a + b)[i] == b[i - |a|]; }
    }
    if AnyInvokes(b) {
      var i :| 0 <= i < |b| && Invokes(b[i]);
      assert (a + b)[|a| + i] == b[i];
    }
    if AnyInvokes(a) {
      var i :| 0 <= i < |a| && Invokes(a[i]);
      assert (a + b)[i] == a[i];
    }
  }

  /** The chain as the migrator sees it: every operation submitted, in order. */
  class Remote {
    var log: seq<Op>
    const env: Env

    constructor (env: Env)
      ensures log == [] && this.env == env
    {
      log := [];
      this.env := env;
    }

    /** Submits one operation; the answer is the environment's verdict on it. */
    method Submit(op: Op) returns (err: Option<string>)
      modifies this
      ensures log == old(log) + [op]
      ensures err == env.verdict(op)
    {
      log := log + [op];
      err := env.verdict(op);
    }
  }

  /** `Invoker`: the calls queued for one flush. */
  class Invoker {
    var calls: seq<Call>

    constructor ()
      ensures calls == []
    {
      calls := [];
    }

    method AddCall(c: Call)
      modifies this
      ensures calls == old(calls) + [c]
    {
      calls := calls + [c];
    }

    /** `extend_calls` and `extends_ordered`: both append in the given order. */
    method ExtendCalls(cs: seq<Call>)
      modifies this
      ensures calls == old(calls) + cs
    {
      calls := calls + cs;
    }

    /** `multicall` (atomic batch) or `invoke_all_sequentially`, as one operation. */
    method Flush(remote: Remote, mode: ExecMode) returns (r: Option<MigrationError>)
      modifies remote
      ensures remote.log == old(remote.log) + [Execute(mode, calls)]
      ensures r == Flushed(remote.env, mode, calls)
    {
      var err := remote.Submit(Execute(mode, calls));
      r := if err.Some? then Some(TransactionError(err.value)) else None;
    }
  }

  /** The error a flush of `calls` yields, if the chain rejects it. */
  function Flushed(env: Env, mode: ExecMode, calls: seq<Call>): Option<MigrationError> {
    var err := env.verdict(Execute(mode, calls));
    if err.Some? then Some(TransactionError(err.value)) else None
  }

  function ModeOf(multicall: bool): ExecMode {
    if multicall then Multicall else Sequential
  }
}
