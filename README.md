# Dojo migration planner in Dafny

This project models `Migration::migrate` of the sozo tool
(`crates/sozo/ops/src/migrate/mod.rs`). The migration takes a precomputed
`WorldDiff`, which compares the local world with the deployed one, and a
`ProfileConfig`. It then brings the chain in line with the local world in
five steps, in this order:

1. Ensure the world contract (skipped for a guest migration).
2. Sync the resources (skipped when the diff is synced). This registers the
   created namespaces, then declares the classes, then sends one batch of
   contract/library/model/event register or upgrade calls.
3. Grant the writer and owner permissions that exist only locally.
4. Initialize the contracts that need it. Calls named in `order_inits` run
   after the others, in list order.
5. Declare the new external contract classes and deploy, through the UDC,
   the created external contracts that are not yet at their address.

`has_changes` is the OR of the five step flags. The first error stops the
migration.

## Design

- **Data.** The diff, configuration and calls are datatypes (`Diff`,
  `Config`, `Chain`). Hashes, selectors and addresses are opaque `Felt`
  integers. `diff.resources` is a sequence of `(selector, diff)` entries in
  iteration order. A flattened class is represented by its class hash.
- **Remote.** The chain is a `Remote` class that logs every submitted
  operation: a declaration by one account, an executed batch (multicall or
  sequential), or a UDC deployment. Its `Env` says how the chain answers:
  - the verdict on each operation;
  - whether a UDC address is already deployed;
  - how many predeployed accounts there are;
  - the order in which a class map yields its keys;
  - the calldata decoder.
- **Invoker.** The `Invoker` is a class whose `calls` sequence the step
  methods append to. `Flush` submits it as one operation.
- **Steps.** Each step has two forms.
  - A pure specification function returns a `Step`: the operations the step
    submits and its result. Examples are `World.EnsureWorldSpec`,
    `Resources.SyncResourcesSpec`, `Permissions.SyncPermissionsSpec`,
    `Init.InitializeContractsSpec`, `External.SyncExternalSpec` and
    `Migrate.MigrateSpec`.
  - An imperative method has the loops of the source. Its contract says that
    the remote log grows by exactly the specification's operations and that
    it returns the specification's result.
- **Properties.** What the source promises is proved as lemmas about the
  specification functions.

Where the code and the design description disagree, the model follows the
code:

- **External class declarations.** Declaring external contract classes
  does not set `has_changes`; only UDC deploy calls do (`mod.rs:602`).
  `External.SyncExternalChanges` states this. Declaring resource classes
  does count (`mod.rs:535-537`). Each resource class comes with a register
  or upgrade call, so `Migrate.MigrateHasChanges` can say it in one form:
  `has_changes` holds exactly when some invoke was sent.
- **"Class already declared".** This error is tolerated only when classes
  are sharded across predeployed accounts (`mod.rs:445-457`). With the
  migrator account alone, any declaration error is fatal (`mod.rs:425`).
  `Declare.DeclareFailsIff` states both cases.
- **Empty batches.** The permission and external-contract batches are
  flushed even when they are empty (`mod.rs:390-400`, `604-615`). Class
  declaration also runs with an empty class set. The model records these
  operations. An empty batch is not an invoke. `Migrate.NothingToDo` proves
  that an in-sync world yields `has_changes == false`. It does not prove
  that zero operations are submitted.

## Model

| member | source | states |
|---|---|---|
| Base.Position | crates/sozo/ops/src/migrate/mod.rs:291 | The index found is the first occurrence of the tag in the list, and there is none exactly when the tag is absent |
| Base.ContainsAt | crates/sozo/ops/src/migrate/mod.rs:450 | A message contains a text exactly when the text starts at some offset of the message |
| Config.DoMulticall | crates/sozo/ops/src/migrate/mod.rs:223-225 | Batching is off exactly when the migration section is present and sets `disable_multicall` to true |
| Config.IsSkipped | crates/sozo/ops/src/migrate/mod.rs:483 | A tag is skipped exactly when the migration section has a skip list that contains it; `Resources.CollectIgnoresSkipped` and `Permissions.PermissionsIgnoreSkipped` state its effect |
| Diff.Lookup | crates/sozo/ops/src/migrate/mod.rs:627-628 | The lookup finds nothing exactly when no entry has the selector; a found diff belongs to an entry with that selector |
| Diff.OnlyLocal | crates/sozo/ops/src/migrate/mod.rs:361-385 | The kept deltas are exactly the local-only ones, and there are no more of them than deltas |
| Diff.IsSynced | crates/sozo/ops/src/migrate/mod.rs:100 | The diff is synced exactly when every resource diff is Synced; `Migrate.MigrateResources` states what the step does then |
| Diff.GetWriters | crates/sozo/ops/src/migrate/mod.rs:361 | A selector with no writer entry has no writers; the permission lemmas state what is granted from them |
| Diff.GetOwners | crates/sozo/ops/src/migrate/mod.rs:374 | A selector with no owner entry has no owners; the permission lemmas state what is granted from them |
| Chain.Invoker.constructor | crates/sozo/ops/src/migrate/mod.rs:237 | A new invoker has no calls |
| Chain.Invoker.AddCall | crates/sozo/ops/src/migrate/mod.rs:295 | The call is appended at the end of the queue |
| Chain.Invoker.ExtendCalls | crates/sozo/ops/src/migrate/mod.rs:497-498 | The calls are appended in the given order |
| Chain.Invoker.Flush | crates/sozo/ops/src/migrate/mod.rs:541-551 | The queue is submitted as one batch in the chosen mode; a rejection becomes a transaction error |
| Chain.Remote.Submit | crates/sozo/ops/src/migrate/mod.rs:939 | One operation is appended to the log and the chain's verdict on it is returned |
| Chain.AnyInvokesAppend | crates/sozo/ops/src/migrate/mod.rs:110-114 | A concatenation of operations sends an invoke exactly when one of its parts does |
| Declare.ShardsUnionAppend | crates/sozo/ops/src/migrate/mod.rs:433-436 | Adding one class adds it to the shards below `m` exactly when its index modulo the account count is below `m` |
| Declare.ShardsPartition | crates/sozo/ops/src/migrate/mod.rs:433-436 | The round-robin shards together hold exactly the classes, each once |
| Declare.ShardReceives | crates/sozo/ops/src/migrate/mod.rs:434-435 | Class number `k` goes to declarer `k % n` |
| Declare.ShardOrigin | crates/sozo/ops/src/migrate/mod.rs:433-436 | Every class in shard `j` is some class whose index is `j` modulo `n` |
| Declare.ShardClasses | crates/sozo/ops/src/migrate/mod.rs:428-436 | The loop builds one shard per account, each the round-robin share of the classes in order |
| Declare.FirstFatal | crates/sozo/ops/src/migrate/mod.rs:445-458 | The error kept is one of the declarers' errors that does not mention "Class already declared"; there is none exactly when every error mentions it |
| Declare.FirstFatalAppend | crates/sozo/ops/src/migrate/mod.rs:445-458 | Over two groups of results, the first fatal error comes from the first group when it has one |
| Declare.DeclaredInShards | crates/sozo/ops/src/migrate/mod.rs:433-443 | The first `m` shard declarations declare exactly the classes of shards below `m` |
| Declare.Enumerate | crates/sozo/ops/src/migrate/mod.rs:420-433 | The classes of a map in the order its keys are yielded, at most one per yielded key; `EnumerateMembers` and `EnumerateCount` state what it lists |
| Declare.ClassOrder | crates/sozo/ops/src/migrate/mod.rs:420-433 | The enumeration of a class map (`into_values` or `into_iter`) in the environment's key order; `EnumerateEachOnce` states what it lists |
| Declare.EnumerateMembers | crates/sozo/ops/src/migrate/mod.rs:420-433 | Only classes of the map are enumerated, each through a yielded key that is in the map, and every such key yields its class |
| Declare.EnumerateCount | crates/sozo/ops/src/migrate/mod.rs:433 | With distinct yielded keys and classes keyed by their CASM hash, a class of the map is enumerated once when its key is yielded and not at all otherwise |
| Declare.EnumerateEachOnce | crates/sozo/ops/src/migrate/mod.rs:420-433 | When every key is yielded once and no other key is, each class of the map is enumerated exactly once and nothing else is enumerated |
| Declare.ShardOf | crates/sozo/ops/src/migrate/mod.rs:433-436 | The round-robin share of declarer `j`: the enumerated classes whose index is `j` modulo the account count, in order; `ShardsPartition`, `ShardReceives` and `ShardOrigin` state it |
| Declare.DeclareSpec | crates/sozo/ops/src/migrate/mod.rs:406-462 | What `declare_classes` submits and whether it fails; `DeclareCoversClasses`, `DeclareEachClassOnce` and `DeclareFailsIff` state it |
| Declare.DeclareCoversClasses | crates/sozo/ops/src/migrate/mod.rs:417-443 | Only declarations are submitted, and together they declare, counted with multiplicity, exactly the enumerated classes of the map. With no predeployed account, one migrator declaration holds them all. Otherwise there is one declaration per account |
| Declare.DeclareEachClassOnce | crates/sozo/ops/src/migrate/mod.rs:417-443 | When the map is iterated as a `HashMap` (every key once, nothing else) and keyed by CASM hash, every class of the map is declared exactly once and nothing else is declared |
| Declare.DeclareFailsIff | crates/sozo/ops/src/migrate/mod.rs:417-458 | With accounts, the declaration succeeds exactly when every shard is accepted or is rejected as already declared. With the migrator alone, it succeeds exactly when the one declaration is accepted |
| Declare.DeclareClasses | crates/sozo/ops/src/migrate/mod.rs:406-462 | The method submits exactly the specified declarations and returns the specified error |
| Declare.FoldDeclarerResults | crates/sozo/ops/src/migrate/mod.rs:445-458 | The fold fails exactly when some result is not "already declared", with `DeclareClassError` of the first such result |
| World.EnsureWorldSpec | crates/sozo/ops/src/migrate/mod.rs:923-1009 | What `ensure_world` submits and returns; `EnsureWorldChanges` states it |
| World.EnsureWorldChanges | crates/sozo/ops/src/migrate/mod.rs:927-1008 | The world step reports a change exactly when the world is not synced, which is exactly when it sends something. Such a world gets its class declared first. A new world is then deployed; a new version is upgraded in one multicall |
| World.EnsureWorld | crates/sozo/ops/src/migrate/mod.rs:923-1009 | The method submits exactly the world step's operations and returns its result |
| Resources.ContractsCallsClasses | crates/sozo/ops/src/migrate/mod.rs:651-716 | A Created contract is registered under its selector, an Updated contract of the same kind is upgraded, anything else gives nothing; `BuilderOutput` and `BuilderByStatus` state it |
| Resources.LibrariesCallsClasses | crates/sozo/ops/src/migrate/mod.rs:717-767 | A Created library is registered with its version, an Updated library is a fatal error, anything else gives nothing; `BuilderFailsIff` and `BuilderByStatus` state it |
| Resources.ModelsCallsClasses | crates/sozo/ops/src/migrate/mod.rs:768-834 | A Created model is registered, an Updated model of the same kind is upgraded, anything else gives nothing; `BuilderOutput` and `BuilderByStatus` state it |
| Resources.EventsCallsClasses | crates/sozo/ops/src/migrate/mod.rs:835-897 | A Created event is registered, an Updated event of the same kind is upgraded, anything else gives nothing; `BuilderOutput` and `BuilderByStatus` state it |
| Resources.ResourceCallsClasses | crates/sozo/ops/src/migrate/mod.rs:488-530 | The builder of the resource's type, nothing for a namespace; `BuilderFailsIff`, `BuilderOutput` and `BuilderByStatus` state it |
| Resources.BuilderFailsIff | crates/sozo/ops/src/migrate/mod.rs:754-760 | A per-resource builder fails exactly for an Updated library |
| Resources.BuilderOutput | crates/sozo/ops/src/migrate/mod.rs:651-897 | A builder yields either nothing, or one register or upgrade call on the local class hash together with exactly one class keyed by its CASM hash |
| Resources.BuilderByStatus | crates/sozo/ops/src/migrate/mod.rs:651-897 | Created gives one register call. Updated with the same kind on both sides gives one upgrade call. A kind mismatch, Synced, or a namespace gives nothing |
| Resources.Absorb | crates/sozo/ops/src/migrate/mod.rs:482-530 | One iteration of the collection loop: a skipped resource changes nothing; otherwise the builder's calls are appended, its classes extend the map and a non-empty call list counts one resource; `PlanCounts` and `PlanCallsBacked` state it |
| Resources.CollectResources | crates/sozo/ops/src/migrate/mod.rs:478-533 | The collection loop over the resources, stopping at the first builder error; `PlanCounts`, `PlanClassesFromResources`, `PlanCallsDeclared` and `CollectIgnoresSkipped` state it |
| Resources.CollectErrPersists | crates/sozo/ops/src/migrate/mod.rs:488-533 | Once a builder fails, the collection of the whole list fails with that error |
| Resources.Unskipped | crates/sozo/ops/src/migrate/mod.rs:483-486 | The entries kept are exactly those whose tag is not skip-listed |
| Resources.CollectIgnoresSkipped | crates/sozo/ops/src/migrate/mod.rs:482-486 | Skip-listed resources contribute no call, no class and no count |
| Resources.PlanCounts | crates/sozo/ops/src/migrate/mod.rs:488-533 | `n_resources` equals the number of calls. No call means no class. Every call is a register or an upgrade |
| Resources.PlanClassesFromResources | crates/sozo/ops/src/migrate/mod.rs:488-533 | Every class collected is the labelled class of some resource, under that resource's CASM hash |
| Resources.PlanCallsBacked | crates/sozo/ops/src/migrate/mod.rs:482-533 | Every register or upgrade call references a class hash of some resource whose class is in the declared map |
| Resources.PlanCallsDeclared | crates/sozo/ops/src/migrate/mod.rs:482-533 | With content-addressed classes, every collected call names a class hash, and some class of the collected map has that class hash |
| Resources.PlanKeyedByCasm | crates/sozo/ops/src/migrate/mod.rs:482-533 | Every class of the collected map sits under its own CASM class hash |
| Resources.NamespaceCalls | crates/sozo/ops/src/migrate/mod.rs:621-641 | The namespace registrations in the order of `diff.namespaces`, or the missing-namespace error; `NamespaceCallsFailIff`, `NamespaceCallsMembers`, `NamespaceCallsCount` and `NamespaceCallsOrder` state it |
| Resources.NamespaceErrPersists | crates/sozo/ops/src/migrate/mod.rs:625-628 | A namespace missing from the resources stops the namespace pass with that error |
| Resources.NamespaceCallsFailIff | crates/sozo/ops/src/migrate/mod.rs:625-638 | The namespace pass fails exactly when some namespace has no resource entry; otherwise it yields only namespace registrations |
| Resources.NamespaceCallsMembers | crates/sozo/ops/src/migrate/mod.rs:625-638 | A namespace is registered exactly when it is listed and its resource is a Created namespace |
| Resources.NamespaceCallsCount | crates/sozo/ops/src/migrate/mod.rs:625-638 | A namespace is registered as many times as listed selectors name it as Created, and there are exactly as many registrations as listed selectors of Created namespaces |
| Resources.NamespacePairOrdered | crates/sozo/ops/src/migrate/mod.rs:625-638 | Two created namespaces are registered in the order of `diff.namespaces` |
| Resources.NamespaceCallsOrder | crates/sozo/ops/src/migrate/mod.rs:625-638 | Every pair of created namespaces is registered in list order |
| Resources.DeclareThenFlushShape | crates/sozo/ops/src/migrate/mod.rs:539-551 | Declarations come first and the batch last. The step invokes something exactly when the batch is not empty. The declarations declare, with multiplicity, exactly the enumerated classes of the map |
| Resources.DeclareAndFlush | crates/sozo/ops/src/migrate/mod.rs:539-551 | The method submits the declarations and then the batch, as specified |
| Resources.SyncResourcesSpec | crates/sozo/ops/src/migrate/mod.rs:467-554 | What `sync_resources` submits and returns; `SyncResourcesOrder`, `SyncResourcesDeclaresFirst` and `SyncResourcesChanges` state it |
| Resources.SyncResourcesOrder | crates/sozo/ops/src/migrate/mod.rs:473-551 | Every operation before the last is a declaration. On success the last is the batch, in which namespace registrations come before every other call |
| Resources.NamespacesFirst | crates/sozo/ops/src/migrate/mod.rs:475-476 | Registrations placed before resource calls stay ahead of every non-namespace call |
| Resources.SyncResourcesDeclaresFirst | crates/sozo/ops/src/migrate/mod.rs:535-551 | With `HashMap` iteration and content-addressed classes, every collected class is declared exactly once in the step, and every call of the batch that names a class hash names the hash of a class declared by an earlier operation of the step |
| Resources.SyncResourcesChanges | crates/sozo/ops/src/migrate/mod.rs:535-553 | The resource step reports a change (classes or calls) exactly when it sends an invoke |
| Resources.SyncedPlanIsEmpty | crates/sozo/ops/src/migrate/mod.rs:482-533 | A fully synced resource list yields no call, no class and a zero count |
| Resources.SyncedNamespacesAreQuiet | crates/sozo/ops/src/migrate/mod.rs:625-638 | With every resource synced, no namespace is registered |
| Resources.NamespacesGetcalls | crates/sozo/ops/src/migrate/mod.rs:621-641 | The loop appends exactly the specified registrations, or returns the missing-namespace error |
| Resources.CollectCallsClasses | crates/sozo/ops/src/migrate/mod.rs:478-533 | The loop appends exactly the collected calls and returns the collected classes and count, or the builder's error |
| Resources.SyncResources | crates/sozo/ops/src/migrate/mod.rs:467-554 | The method submits exactly the resource step's operations and returns its result |
| Permissions.SyncPermissionsSpec | crates/sozo/ops/src/migrate/mod.rs:346-403 | What `sync_permissions` submits and returns; `SyncPermissionsChanges` states it |
| Permissions.WriterGrants | crates/sozo/ops/src/migrate/mod.rs:361-372 | Exactly one writer grant per delta |
| Permissions.OwnerGrants | crates/sozo/ops/src/migrate/mod.rs:374-385 | Exactly one owner grant per delta |
| Permissions.WriterGrantsMembers | crates/sozo/ops/src/migrate/mod.rs:361-372 | Writer grants target the resource and name exactly the deltas' grantees |
| Permissions.OwnerGrantsMembers | crates/sozo/ops/src/migrate/mod.rs:374-385 | Owner grants target the resource and name exactly the deltas' grantees |
| Permissions.ResourceGrants | crates/sozo/ops/src/migrate/mod.rs:361-385 | A resource's writer grants followed by its owner grants; `ResourceGrantsShape` and `ResourceGrantsMembers` state it |
| Permissions.ResourceGrantsShape | crates/sozo/ops/src/migrate/mod.rs:361-385 | A resource's grants all target it, and no writer grant follows an owner grant |
| Permissions.ResourceGrantsMembers | crates/sozo/ops/src/migrate/mod.rs:361-385 | A grantee gets a writer (owner) grant exactly when it has a local-only writer (owner) delta on that resource |
| Permissions.ResourceGrantsNonEmpty | crates/sozo/ops/src/migrate/mod.rs:361-385 | A resource gets some grant exactly when it has a local-only writer or owner delta |
| Permissions.PermissionCalls | crates/sozo/ops/src/migrate/mod.rs:355-386 | The grants of every resource that is not skipped, in resource order; `PermissionCallsMembers`, `PermissionWriters` and `PermissionOwners` state it |
| Permissions.PermissionCallsStep | crates/sozo/ops/src/migrate/mod.rs:355-386 | One more resource appends exactly that resource's grants |
| Permissions.IssuedWitness | crates/sozo/ops/src/migrate/mod.rs:355-386 | Every issued grant was issued for some non-skipped resource |
| Permissions.IssuedSufficient | crates/sozo/ops/src/migrate/mod.rs:355-386 | Every grant of a non-skipped resource is issued |
| Permissions.PermissionCallsMembers | crates/sozo/ops/src/migrate/mod.rs:355-386 | A call is issued exactly when it is a grant of some non-skipped resource |
| Permissions.PermissionWriters | crates/sozo/ops/src/migrate/mod.rs:355-372 | A writer grant is issued exactly when its resource is present and not skipped and the grantee is a local-only writer |
| Permissions.PermissionOwners | crates/sozo/ops/src/migrate/mod.rs:355-385 | An owner grant is issued exactly when its resource is present and not skipped and the grantee is a local-only owner |
| Permissions.PermissionCallsAreGrants | crates/sozo/ops/src/migrate/mod.rs:355-386 | The permission batch holds only writer and owner grants |
| Permissions.PermissionCallsSnoc | crates/sozo/ops/src/migrate/mod.rs:355-386 | Adding a resource makes the batch non-empty exactly when it was already non-empty or the resource has grants |
| Permissions.GrantsWitness | crates/sozo/ops/src/migrate/mod.rs:355-388 | A non-empty batch has a resource with grants |
| Permissions.GrantsSufficient | crates/sozo/ops/src/migrate/mod.rs:355-388 | A resource with grants makes the batch non-empty |
| Permissions.PermissionCallsNonEmptyIff | crates/sozo/ops/src/migrate/mod.rs:355-388 | The batch is non-empty exactly when some resource has grants |
| Permissions.PermissionCallsNonEmpty | crates/sozo/ops/src/migrate/mod.rs:355-388 | The batch is non-empty exactly when some non-skipped resource has a local-only writer or owner |
| Permissions.PermissionsIgnoreSkipped | crates/sozo/ops/src/migrate/mod.rs:355-359 | Skip-listed resources receive no grant |
| Permissions.SyncPermissionsChanges | crates/sozo/ops/src/migrate/mod.rs:388-402 | The step submits one batch made only of grants. It reports a change exactly when it invokes, exactly when some non-skipped resource has a local-only delta |
| Permissions.GrantWriters | crates/sozo/ops/src/migrate/mod.rs:361-372 | The loop appends exactly the writer grants |
| Permissions.GrantOwners | crates/sozo/ops/src/migrate/mod.rs:374-385 | The loop appends exactly the owner grants |
| Permissions.GrantResource | crates/sozo/ops/src/migrate/mod.rs:361-385 | Both loops append the resource's grants, writers first |
| Permissions.GrantEntry | crates/sozo/ops/src/migrate/mod.rs:356-385 | A skip-listed resource appends nothing; otherwise its grants are appended |
| Permissions.GrantResources | crates/sozo/ops/src/migrate/mod.rs:355-386 | The outer loop appends exactly the permission batch |
| Permissions.SyncPermissions | crates/sozo/ops/src/migrate/mod.rs:346-403 | The method submits exactly the permission step's batch and returns its result |
| Init.NeedsInit | crates/sozo/ops/src/migrate/mod.rs:267-278 | `do_init`: a Created contract, or an Updated or Synced contract the chain reports uninitialized; `InitCallsNonEmpty` and `InitializeChanges` state its effect |
| Init.InitArgs | crates/sozo/ops/src/migrate/mod.rs:283-287 | Missing arguments are empty. Arguments that do not decode give `InitCallArgs`. That is the only failure |
| Init.ScanInits | crates/sozo/ops/src/migrate/mod.rs:256-299 | The scan over the resources: unordered init calls in order and ordered ones by list position, stopping at a decode failure; `ScanSound`, `ScanComplete` and `ScanUnorderedCount` state it |
| Init.InitCalls | crates/sozo/ops/src/migrate/mod.rs:301-310 | The unordered calls followed by the ordered calls by increasing list position; `InitCallsIndex`, `InitOrder` and `InitCallsSound` state it |
| Init.ScanErrPersists | crates/sozo/ops/src/migrate/mod.rs:284 | A decode failure stops the scan with that error |
| Init.ByPositionMembers | crates/sozo/ops/src/migrate/mod.rs:301-308 | The sorted calls are exactly the calls stored under indices of the order list |
| Init.ByPositionHas | crates/sozo/ops/src/migrate/mod.rs:301-308 | The call stored under an index appears among the sorted calls |
| Init.ByPositionOrder | crates/sozo/ops/src/migrate/mod.rs:302-308 | Calls under smaller indices come earlier |
| Init.InitFailsIff | crates/sozo/ops/src/migrate/mod.rs:256-287 | The scan fails exactly when some candidate's arguments do not decode, and then with `InitCallArgs` |
| Init.UnorderedSource | crates/sozo/ops/src/migrate/mod.rs:294-296 | Every unordered call is the init call of a candidate whose tag is not in `order_inits` |
| Init.OrderedSource | crates/sozo/ops/src/migrate/mod.rs:291-293 | Every ordered call is stored under the list position of its candidate's tag |
| Init.ScanSound | crates/sozo/ops/src/migrate/mod.rs:256-299 | Every call the scan queues is the init call of some candidate, in the part and at the index its tag dictates |
| Init.ScanComplete | crates/sozo/ops/src/migrate/mod.rs:256-299 | Every candidate's arguments decode and it is queued in the right part. With distinct tags, the call kept under its index is its own |
| Init.InitCallsIndex | crates/sozo/ops/src/migrate/mod.rs:295-310 | The unordered calls come first and the sorted calls follow them |
| Init.UnorderedCandidate | crates/sozo/ops/src/migrate/mod.rs:294-296 | An unordered candidate has its init call among the unordered calls |
| Init.ScanUnorderedCount | crates/sozo/ops/src/migrate/mod.rs:294-296 | There are exactly as many unordered init calls as candidates outside `order_inits`, and each call occurs as often as such candidates have it as their init call |
| Init.OrderedCandidate | crates/sozo/ops/src/migrate/mod.rs:291-293 | With distinct tags, an ordered candidate has its own call under its list position |
| Init.InitOrderUnordered | crates/sozo/ops/src/migrate/mod.rs:294-296 | Two unordered candidates are initialized in scan order |
| Init.InitOrderMixed | crates/sozo/ops/src/migrate/mod.rs:291-310 | An unordered candidate is initialized before an ordered one |
| Init.InitOrderOrdered | crates/sozo/ops/src/migrate/mod.rs:291-310 | A tag earlier in `order_inits` is initialized earlier |
| Init.InitOrder | crates/sozo/ops/src/migrate/mod.rs:291-311 | Init calls follow scan order for unlisted tags; these come before all listed tags; listed tags follow list order |
| Init.ScanOrderUnordered | crates/sozo/ops/src/migrate/mod.rs:294-296 | The scan keeps unordered candidates in resource order |
| Init.InitCallsSound | crates/sozo/ops/src/migrate/mod.rs:256-311 | Every init call sent belongs to some candidate |
| Init.InitCallsNonEmpty | crates/sozo/ops/src/migrate/mod.rs:256-313 | Some init call is queued exactly when some contract is a candidate |
| Init.InitializeContractsSpec | crates/sozo/ops/src/migrate/mod.rs:231-331 | What `initialize_contracts` submits and returns; `InitializeChanges` and `InitOrder` state it |
| Init.InitializeChanges | crates/sozo/ops/src/migrate/mod.rs:313-330 | The step reports a change exactly when it invokes, exactly when some contract needs initializing. It submits only batches of candidates' init calls |
| Init.InitializeContracts | crates/sozo/ops/src/migrate/mod.rs:231-331 | The method submits exactly the init step's operations and returns its result |
| Init.ScanResources | crates/sozo/ops/src/migrate/mod.rs:256-299 | The loop computes exactly the specified scan |
| External.ExternalClassEntry | crates/sozo/ops/src/migrate/mod.rs:903-920 | A Created external class gives its CASM hash and its class labelled with the contract name; an already declared one gives nothing |
| External.ExternalClasses | crates/sozo/ops/src/migrate/mod.rs:571-576 | The class map collected from the external classes in order, a later entry replacing an earlier one with the same key; `ExternalClassesKeys` and `ExternalClassesValues` state it |
| External.ExternalClassesKeys | crates/sozo/ops/src/migrate/mod.rs:571-576 | A CASM hash is declared exactly when some Created external class has it |
| External.ExternalClassesValues | crates/sozo/ops/src/migrate/mod.rs:571-576 | The class kept under a hash is the last Created entry with that hash, labelled with its contract name |
| External.ExternalKeyedByCasm | crates/sozo/ops/src/migrate/mod.rs:571-576 | Every collected external class sits under its own CASM class hash |
| External.DeployCalls | crates/sozo/ops/src/migrate/mod.rs:584-600 | The UDC deploy calls for the external contracts in order, or the first lookup error; `DeployCallsSpec` and `DeployCallsCount` state it |
| External.DeployErrPersists | crates/sozo/ops/src/migrate/mod.rs:588-595 | A failed UDC lookup stops the deployment pass with that error |
| External.DeployCallsSpec | crates/sozo/ops/src/migrate/mod.rs:586-600 | The pass fails exactly when the lookup of some Created contract fails. Otherwise it deploys exactly the Created contracts not yet deployed, and nothing else |
| External.DeployCallsCount | crates/sozo/ops/src/migrate/mod.rs:586-600 | There are exactly as many deploy calls as Created external contracts not yet deployed, and each request is deployed as often as it is listed among them |
| External.SyncExternalOrder | crates/sozo/ops/src/migrate/mod.rs:571-615 | Only declarations precede the deploy batch, and the declarations declare, with multiplicity, exactly the enumerated collected external classes |
| External.SyncExternalDeclaresEachOnce | crates/sozo/ops/src/migrate/mod.rs:571-582 | With `HashMap` iteration, every collected external class is declared exactly once, and every declared class is the labelled class of a Created external class of the diff |
| External.SyncExternalSpec | crates/sozo/ops/src/migrate/mod.rs:560-618 | What `sync_external_contracts` submits and returns; `SyncExternalOrder`, `SyncExternalDeclaresEachOnce` and `SyncExternalChanges` state it |
| External.SyncExternalChanges | crates/sozo/ops/src/migrate/mod.rs:602-617 | The step reports a change exactly when it invokes, exactly when some Created external contract was not yet deployed |
| External.DeployExternalContracts | crates/sozo/ops/src/migrate/mod.rs:584-600 | The loop appends exactly the specified deploy calls, or returns the lookup error |
| External.SyncExternalContracts | crates/sozo/ops/src/migrate/mod.rs:560-618 | The method submits exactly the external step's operations and returns its result |
| Migrate.WorldStep | crates/sozo/ops/src/migrate/mod.rs:97 | The world step: nothing for a guest migration, otherwise `ensure_world`; `MigrateWorld` states it |
| Migrate.ResourcesStep | crates/sozo/ops/src/migrate/mod.rs:99-100 | The resource step: nothing for a synced diff, otherwise `sync_resources`; `MigrateResources` states it |
| Migrate.MigrateSpec | crates/sozo/ops/src/migrate/mod.rs:93-116 | What `migrate` submits and returns: the five steps chained, stopping at the first error; `MigrateHasChanges`, `NothingToDo` and `GuestLeavesWorld` state it |
| Migrate.ThenSpec | crates/sozo/ops/src/migrate/mod.rs:97-115 | Chaining two steps keeps "changed iff invoked". An error hides the later step. Operations concatenate. Success needs both steps to succeed |
| Migrate.ThenLog | crates/sozo/ops/src/migrate/mod.rs:97-107 | Two successful steps in a row submit their operations one after the other |
| Migrate.ThenStops | crates/sozo/ops/src/migrate/mod.rs:97-107 | A failed step ends the chain with its own operations and error |
| Migrate.ThenFails | crates/sozo/ops/src/migrate/mod.rs:97-107 | A failure after a success is the chain's result |
| Migrate.ThenResult | crates/sozo/ops/src/migrate/mod.rs:109-114 | Two successes combine their flags by OR |
| Migrate.MigrateHasChanges | crates/sozo/ops/src/migrate/mod.rs:97-115 | On success, `has_changes` holds exactly when the migration sent at least one invoke |
| Migrate.FlushLeavesWorld | crates/sozo/ops/src/migrate/mod.rs:539-551 | Declarations and a batch without a world upgrade leave the world untouched |
| Migrate.ResourcesLeaveWorld | crates/sozo/ops/src/migrate/mod.rs:467-554 | The resource step never deploys or upgrades the world |
| Migrate.PermissionsLeaveWorld | crates/sozo/ops/src/migrate/mod.rs:346-403 | The permission step never deploys or upgrades the world |
| Migrate.InitLeavesWorld | crates/sozo/ops/src/migrate/mod.rs:231-331 | The init step never deploys or upgrades the world |
| Migrate.ExternalLeavesWorld | crates/sozo/ops/src/migrate/mod.rs:560-618 | The external step never deploys or upgrades the world |
| Migrate.GuestLeavesWorld | crates/sozo/ops/src/migrate/mod.rs:97 | A guest migration never deploys or upgrades the world |
| Migrate.NothingToDo | crates/sozo/ops/src/migrate/mod.rs:97-115 | With the world synced (or a guest), a synced diff, no local-only permission, no contract to initialize and no undeployed external contract, `has_changes` is false |
| Migrate.MigrateLater | crates/sozo/ops/src/migrate/mod.rs:103-107 | Permissions, init and external steps run in order, stopping at the first error |
| Migrate.MigrateWorld | crates/sozo/ops/src/migrate/mod.rs:97 | A guest migration does nothing for the world and reports no change; otherwise it runs `ensure_world` |
| Migrate.MigrateResources | crates/sozo/ops/src/migrate/mod.rs:99-100 | A synced diff does nothing for the resources and reports no change; otherwise it runs `sync_resources` |
| Migrate.Migrate | crates/sozo/ops/src/migrate/mod.rs:93-116 | The migration submits exactly the five steps' operations in order, stops at the first error, and returns the OR of the flags |

## Left out

- `upload_metadata` and `upload_metadata_from_resource_config`: they depend on an IPFS upload service and `upload_if_changed`, which are not part of this model.
- The user interface text, `trace!` logging, and the world-deploy receipt and block-number report (`mod.rs:958-983`): they do not affect what is submitted, except that the provider's block-number error is not modelled.
- Class flattening, `ByteArray::from_string` and `utils::world_salt`: their failures are not modelled, and a flattened class is represented by its class hash.
- `decode_calldata` is the environment's decoder, a total function that may answer "malformed".
- The network and signing layer (`Invoker::multicall`, `invoke_all_sequentially`, `Declarer::declare_all`, `Deployer::deploy_via_udc*`): each is one submitted operation whose answer comes from the environment. `deploy_via_udc_getcall` is an "already deployed" lookup plus a `UdcDeploy` call.
- Chain.Invoker.Flush: an empty batch is recorded as an operation with no calls. Whether the invoker sends anything for it is not modelled.
- `get_accounts` (`mod.rs:1018-1025`): an RPC lookup; only the number of predeployed accounts is kept, as a parameter of the environment.
- The `join_all` concurrency in `declare_classes`: the shards are declared one after the other, and their results are folded in account order. Every shard is submitted before the first fatal error is reported, as in the source.
- `HashMap` iteration order: `diff.resources`, `diff.external_contracts` and `diff.external_contract_classes` are sequences in iteration order. The order in which a class map yields its keys is the environment's `iterationOrder`. The lemmas that need a `HashMap` iteration (`Declare.DeclareEachClassOnce`, `Resources.SyncResourcesDeclaresFirst`, `External.SyncExternalDeclaresEachOnce`) require that every key is yielded once and that no other key is. `ordered_keys.sort()` is modelled by listing the stored calls by increasing index.
- Chain verdicts: they depend only on the operation, not on what was submitted before.
- `txn_config` and the manifest built from the diff: neither affects the operations or the flag. The result is the `has_changes` flag only.
- The error variants of the foreign layers are reduced to `DeclarerError`, `TransactionError`, `DeclareClassError`, `InitCallArgs` and `Panic`. A UDC lookup failure becomes a `TransactionError`. The `expect` on a missing namespace and the library-update `panic!` become `Panic` results.
- Idempotence across two runs: it needs a model of how the next diff is computed from the chain, which is outside this planner.
- Shape of the imperative code: loop bodies that append a resource's calls are separate methods (`GrantEntry`, `GrantResource`, `DeployExternalContracts`), but they do what the source's nested loops do.
- Init.ScanResources: the unordered init calls are collected in the scan state and appended to the invoker after the loop, while the source adds each one to the invoker inside the loop (`mod.rs:295`). The invoker starts empty and nothing else is added in between, so the calls and their order are the same.
- `is_skipped`, `is_synced`, `get_writers` and `get_owners` are defined outside `mod.rs` and are not part of this model. The model assumes that a tag is skipped exactly when it is on the migration skip list, that a diff is synced exactly when every resource diff is Synced, and that a selector without writers or owners has none.
- Resources.PlanCallsDeclared, Resources.SyncResourcesDeclaresFirst: they require that resources with equal CASM class hashes have equal class hashes. Without that, `classes.extend` may keep another resource's class under a shared key, and a call could name a class hash that is not declared.
