/** The precomputed comparison of the local world with the world on chain
    (`WorldDiff`), as the migration consumes it. Field elements (selectors,
    class hashes, addresses, salts) are opaque ids; a resource's tag and
    namespace are plain strings. */
module Diff {
  import opened Base

  /** A field element used as an opaque identifier. */
  type Felt = nat

  /** A resource tag (`<namespace>-<name>`), compared as a whole. */
  type Tag = string

  /** What every contract, library, model and event declares locally. */
  datatype Common = Common(
    name: string,
    namespace: string,
    tag: Tag,
    classHash: Felt,
    casmClassHash: Felt)

  /** The local declaration of a resource. */
  datatype ResourceLocal =
    | LocalNamespace(nsName: string)
    | LocalContract(common: Common)
    | LocalLibrary(common: Common, version: string)
    | LocalModel(common: Common)
    | LocalEvent(common: Common)

  /** What the chain reports about a resource that already exists there. */
  datatype ResourceRemote =
    | RemoteNamespace
    | RemoteContract(isInitialized: bool)
    | RemoteLibrary
    | RemoteModel
    | RemoteEvent

  /** Created: only local. Updated: local differs from remote. Synced: both agree. */
  datatype ResourceDiff =
    | Created(local: ResourceLocal)
    | Updated(local: ResourceLocal, remote: ResourceRemote)
    | Synced(local: ResourceLocal, remote: ResourceRemote)

  datatype ResourceType = NamespaceType | ContractType | LibraryType | ModelType | EventType

  /** One entry of `diff.resources`: the resource's selector and its diff. */
  datatype Entry = Entry(selector: Felt, diff: ResourceDiff)

  datatype WorldStatus = NotDeployed | Synced | NewVersion

  datatype WorldInfo = WorldInfo(status: WorldStatus, classHash: Felt, casmClassHash: Felt)

  /** Where a permission exists: only locally (to be granted), only on chain, or in both. */
  datatype DeltaStatus = LocalOnly | RemoteOnly | InSync

  /** A grantee of a writer or owner permission on some resource. */
  datatype PermissionDelta = PermissionDelta(address: Felt, granteeTag: Option<Tag>, status: DeltaStatus)

  /** The deployment request of an external contract: class, salt and raw constructor data. */
  datatype UdcRequest = UdcRequest(classHash: Felt, salt: Felt, constructorData: seq<Felt>)

  datatype ExternalContractDiff =
    | ExternalContractCreated(request: UdcRequest)
    | ExternalContractSynced(request: UdcRequest)

  datatype ExternalClass = ExternalClass(contractName: string, casmClassHash: Felt, classHash: Felt)

  datatype ExternalContractClassDiff =
    | ExternalClassCreated(contractClass: ExternalClass)
    | ExternalClassSynced(contractClass: ExternalClass)

  datatype WorldDiff = WorldDiff(
    world: WorldInfo,
    namespaces: seq<Felt>,
    resources: seq<Entry>,
    writers: map<Felt, seq<PermissionDelta>>,
    owners: map<Felt, seq<PermissionDelta>>,
    externalContracts: seq<ExternalContractDiff>,
    externalContractClasses: seq<ExternalContractClassDiff>)

  /** The local side of any resource diff. */
  function LocalOf(d: ResourceDiff): ResourceLocal {
    match d
    case Created(l) => l
    case Updated(l, _) => l
    case Synced(l, _) => l
  }

  /** `resource.resource_type()`: the kind of the local declaration. */
  function TypeOf(d: ResourceDiff): ResourceType {
    match LocalOf(d)
    case LocalNamespace(_) => NamespaceType
    case LocalContract(_) => ContractType
    case LocalLibrary(_, _) => LibraryType
    case LocalModel(_) => ModelType
    case LocalEvent(_) => EventType
  }

  /** `resource.tag()`: a namespace is tagged by its name. */
  function TagOf(d: ResourceDiff): Tag {
    match LocalOf(d)
    case LocalNamespace(n) => n
    case LocalContract(c) => c.tag
    case LocalLibrary(c, _) => c.tag
    case LocalModel(c) => c.tag
    case LocalEvent(c) => c.tag
  }

  /** `diff.resources.get(selector)`: the first entry with that selector. */
  function Lookup(rs: seq<Entry>, selector: Felt): (r: Option<ResourceDiff>)
    ensures r.None? <==> forall i :: 0 <= i < |rs| ==> rs[i].selector != selector
    ensures r.Some? ==> exists i :: 0 <= i < |rs| && rs[i] == Entry(selector, r.value)
  {
    if rs == [] then None
    else if rs[0].selector == selector then Some(rs[0].diff)
    else
      var r := Lookup(rs[1..], selector);
      assert r.Some? ==> exists i :: 0 <= i < |rs| - 1 && rs[1..][i] == Entry(selector, r.value);
      r
  }

  /** `diff.is_synced()`: every resource diff is Synced. */
  predicate IsSynced(d: WorldDiff) {
    forall i :: 0 <= i < |d.resources| ==> d.resources[i].diff.Synced?
  }

  /** `diff.get_writers(selector)`: no entry means no writer. */
  function GetWriters(d: WorldDiff, selector: Felt): seq<PermissionDelta> {
    if selector in d.writers then d.writers[selector] else []
  }

  /** `diff.get_owners(selector)`: no entry means no owner. */
  function GetOwners(d: WorldDiff, selector: Felt): seq<PermissionDelta> {
    if selector in d.owners then d.owners[selector] else []
  }

  /** `.only_local()`: the deltas that exist locally but not on chain, in order. */
  function OnlyLocal(ds: seq<PermissionDelta>): (r: seq<PermissionDelta>)
    ensures forall x :: x in r <==> x in ds && x.status == LocalOnly
    ensures |r| <= |ds|
  {
    if ds == [] then []
    else (if ds[0].status == LocalOnly then [ds[0]] else []) + OnlyLocal(ds[1..])
  }
}
