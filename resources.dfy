/** `sync_resources`: namespaces are registered first, then every resource
    that is not skipped contributes its register or upgrade call and the class
    to declare; the classes are declared before the batch is flushed. */
module Resources {
  import opened Base
  import opened Diff
  import opened Config
  import opened Chain
  import opened Declare

  /** What one resource contributes: calls, and classes keyed by CASM class hash. */
  datatype CallsClasses = CallsClasses(calls: seq<Call>, classes: map<Felt, LabeledClass>)

  const NoCalls: CallsClasses := CallsClasses([], map[])

  /** The class of a resource, labelled with its tag. */
  function Labeled(c: Common): LabeledClass {
    LabeledClass(c.tag, c.casmClassHash, c.classHash)
  }

  function Single(call: Call, c: Common): CallsClasses {
    CallsClasses([call], map[c.casmClassHash := Labeled(c)])
  }

  function ContractsCallsClasses(e: Entry): CallsClasses {
    match e.diff
    case Created(LocalContract(c)) => Single(RegisterContract(e.selector, c.namespace, c.classHash), c)
    case Updated(LocalContract(c), RemoteContract(_)) => Single(UpgradeContract(c.namespace, c.classHash), c)
    case _ => NoCalls
  }

  /** A library is never upgraded: an Updated library aborts the migration. */
  function LibrariesCallsClasses(e: Entry): Result<CallsClasses, MigrationError> {
    match e.diff
    case Created(LocalLibrary(c, version)) =>
      Ok(Single(RegisterLibrary(c.namespace, c.classHash, c.name, version), c))
    case Updated(LocalLibrary(_, _), RemoteLibrary) => Err(Panic("libraries cannot be updated!"))
    case _ => Ok(NoCalls)
  }

  function ModelsCallsClasses(e: Entry): CallsClasses {
    match e.diff
    case Created(LocalModel(c)) => Single(RegisterModel(c.namespace, c.classHash), c)
    case Updated(LocalModel(c), RemoteModel) => Single(UpgradeModel(c.namespace, c.classHash), c)
    case _ => NoCalls
  }

  function EventsCallsClasses(e: Entry): CallsClasses {
    match e.diff
    case Created(LocalEvent(c)) => Single(RegisterEvent(c.namespace, c.classHash), c)
    case Updated(LocalEvent(c), RemoteEvent) => Single(UpgradeEvent(c.namespace, c.classHash), c)
    case _ => NoCalls
  }

  /** The builder for the resource's type; namespaces contribute nothing here. */
  function ResourceCallsClasses(e: Entry): Result<CallsClasses, MigrationError> {
    match TypeOf(e.diff)
    case ContractType => Ok(ContractsCallsClasses(e))
    case LibraryType => LibrariesCallsClasses(e)
    case ModelType => Ok(ModelsCallsClasses(e))
    case EventType => Ok(EventsCallsClasses(e))
    case NamespaceType => Ok(NoCalls)
  }

  /** The declaration shared by contracts, libraries, models and events. */
  function CommonOf(l: ResourceLocal): Common
    requires !l.LocalNamespace?
  {
    match l
    case LocalContract(c) => c
    case LocalLibrary(c, _) => c
    case LocalModel(c) => c
    case LocalEvent(c) => c
  }

  predicate IsRegister(c: Call) {
    c.RegisterContract? || c.RegisterLibrary? || c.RegisterModel? || c.RegisterEvent?
  }

  predicate IsUpgrade(c: Call) {
    c.UpgradeContract? || c.UpgradeModel? || c.UpgradeEvent?
  }

  /** The remote side reports the same kind of resource as the local side. */
  predicate SameKind(l: ResourceLocal, r: ResourceRemote) {
    match l
    case LocalNamespace(_) => r.RemoteNamespace?
    case LocalContract(_) => r.RemoteContract?
    case LocalLibrary(_, _) => r.RemoteLibrary?
    case LocalModel(_) => r.RemoteModel?
    case LocalEvent(_) => r.RemoteEvent?
  }

  /** The only failing builder is the library one, on an Updated library. */
  lemma BuilderFailsIff(e: Entry)
    ensures ResourceCallsClasses(e).Err? <==>
      e.diff.Updated? && e.diff.local.LocalLibrary? && e.diff.remote.RemoteLibrary?
  {
  }

  /** A builder yields nothing, or one call together with the resource's own
      class keyed by its CASM class hash, the call pointing at that class. */
  lemma BuilderOutput(e: Entry)
    requires ResourceCallsClasses(e).Ok?
    ensures var cc := ResourceCallsClasses(e).value;
      (cc.calls == [] && cc.classes == map[])
      || (!LocalOf(e.diff).LocalNamespace? && |cc.calls| == 1
          && cc.classes == map[CommonOf(LocalOf(e.diff)).casmClassHash := Labeled(CommonOf(LocalOf(e.diff)))]
          && ClassRef(cc.calls[0]) == Some(CommonOf(LocalOf(e.diff)).classHash)
          && (IsRegister(cc.calls[0]) || IsUpgrade(cc.calls[0])))
  {
  }

  /** Created resources are registered; Updated ones of the same kind are
      upgraded (libraries excepted); Synced resources, namespaces and Updated
      diffs whose remote side is of another kind contribute nothing. */
  lemma BuilderByStatus(e: Entry)
    ensures e.diff.Created? && !e.diff.local.LocalNamespace? ==>
      var r := ResourceCallsClasses(e); r.Ok? && |r.value.calls| == 1 && IsRegister(r.value.calls[0])
    ensures (e.diff.Updated? && !e.diff.local.LocalNamespace? && !e.diff.local.LocalLibrary?
             && SameKind(e.diff.local, e.diff.remote)) ==>
        var r := ResourceCallsClasses(e); r.Ok? && |r.value.calls| == 1 && IsUpgrade(r.value.calls[0])
    ensures e.diff.Updated? && !SameKind(e.diff.local, e.diff.remote) ==> ResourceCallsClasses(e) == Ok(NoCalls)
    ensures e.diff.Synced? || LocalOf(e.diff).LocalNamespace? ==> ResourceCallsClasses(e) == Ok(NoCalls)
  {
  }

  /** The resource part of `sync_resources`: calls, classes and `n_resources`. */
  datatype Plan = Plan(calls: seq<Call>, classes: map<Felt, LabeledClass>, nResources: nat)

  /** One loop iteration: skipped resources and namespaces leave the plan alone;
      `classes.extend` lets a later class replace an earlier one with the same key. */
  function Absorb(acc: Plan, e: Entry, p: ProfileConfig): Result<Plan, MigrationError> {
    if IsSkipped(p, TagOf(e.diff)) then Ok(acc)
    else match ResourceCallsClasses(e)
      case Err(err) => Err(err)
      case Ok(cc) =>
        Ok(Plan(acc.calls + cc.calls, acc.classes + cc.classes,
                acc.nResources + (if cc.calls != [] then 1 else 0)))
  }

  /** The plan for the resources in order, stopping at the first error. */
  function CollectResources(rs: seq<Entry>, p: ProfileConfig): Result<Plan, MigrationError>
    decreases |rs|
  {
    if rs == [] then Ok(Plan([], map[], 0))
    else match CollectResources(rs[..|rs| - 1], p)
      case Err(err) => Err(err)
      case Ok(acc) => Absorb(acc, rs[|rs| - 1], p)
  }

  lemma {:induction false} CollectErrPersists(rs: seq<Entry>, p: ProfileConfig, j: nat)
    requires j <= |rs| && CollectResources(rs[..j], p).Err?
    ensures CollectResources(rs, p) == CollectResources(rs[..j], p)
    decreases |rs|
  {
    if j < |rs| {
      var prefix := rs[..|rs| - 1];
      assert prefix[..j] == rs[..j];
      CollectErrPersists(prefix, p, j);
    } else {
      assert rs[..j] == rs;
    }
  }

  /** The resources that are not on the skip list, in order. */
  function Unskipped(rs: seq<Entry>, p: ProfileConfig): (r: seq<Entry>)
    ensures forall x :: x in r <==> x in rs && !IsSkipped(p, TagOf(x.diff))
    decreases |rs|
  {
    if rs == [] then []
    else
      var last := rs[|rs| - 1];
      assert rs == rs[..|rs| - 1] + [last];
      Unskipped(rs[..|rs| - 1], p) + (if IsSkipped(p, TagOf(last.diff)) then [] else [last])
  }

  /** Skipped resources can be deleted from the diff without changing the plan. */
  lemma {:induction false} CollectIgnoresSkipped(rs: seq<Entry>, p: ProfileConfig)
    ensures CollectResources(rs, p) == CollectResources(Unskipped(rs, p), p)
    decreases |rs|
  {
    if rs != [] {
      var prefix, last := rs[..|rs| - 1], rs[|rs| - 1];
      CollectIgnoresSkipped(prefix, p);
      var u := Unskipped(prefix, p);
      if IsSkipped(p, TagOf(last.diff)) {
        assert Unskipped(rs, p) == u;
      } else {
        var v := u + [last];
        assert Unskipped(rs, p) == v;
        assert v[..|v| - 1] == u && v[|v| - 1] == last;
      }
    }
  }

  /** Every resource that counts in `n_resources` contributes exactly one call,
      every call registers or upgrades a resource (never a namespace), and
      there are no classes without calls. */
  lemma {:induction false} PlanCounts(rs: seq<Entry>, p: ProfileConfig)
    ensures var r := CollectResources(rs, p);
      r.Ok? ==> r.value.nResources == |r.value.calls|
    ensures var r := CollectResources(rs, p);
      r.Ok? ==> (r.value.calls == [] ==> r.value.classes == map[])
    ensures var r := CollectResources(rs, p);
      r.Ok? ==> forall i :: 0 <= i < |r.value.calls| ==> IsRegister(r.value.calls[i]) || IsUpgrade(r.value.calls[i])
    decreases |rs|
  {
    if rs != [] {
      var prefix, last := rs[..|rs| - 1], rs[|rs| - 1];
      PlanCounts(prefix, p);
      var r := CollectResources(rs, p);
      if r.Ok? && !IsSkipped(p, TagOf(last.diff)) {
        var acc := CollectResources(prefix, p).value;
        BuilderOutput(last);
        var cc := ResourceCallsClasses(last).value;
        assert r.value.calls == acc.calls + cc.calls;
        if cc.calls != [] {
          assert CommonOf(LocalOf(last.diff)).casmClassHash in r.value.classes;
        }
      }
    }
  }

  /** Every class in the plan is the labelled class of some resource, under its
      own CASM class hash. */
  ghost predicate ClassesFromResources(classes: map<Felt, LabeledClass>, rs: seq<Entry>) {
    forall k :: k in classes ==> ClassOfSome(k, classes[k], rs)
  }

  ghost predicate ClassOfSome(k: Felt, c: LabeledClass, rs: seq<Entry>) {
    exists i :: 0 <= i < |rs| && !LocalOf(rs[i].diff).LocalNamespace?
      && k == CommonOf(LocalOf(rs[i].diff)).casmClassHash
      && c == Labeled(CommonOf(LocalOf(rs[i].diff)))
  }

  lemma {:induction false} PlanClassesFromResources(rs: seq<Entry>, p: ProfileConfig)
    ensures var r := CollectResources(rs, p);
      r.Ok? ==> ClassesFromResources(r.value.classes, rs)
    decreases |rs|
  {
    if rs != [] {
      var prefix, last := rs[..|rs| - 1], rs[|rs| - 1];
      PlanClassesFromResources(prefix, p);
      var r := CollectResources(rs, p);
      if r.Ok? {
        var acc := CollectResources(prefix, p).value;
        forall k | k in acc.classes ensures ClassOfSome(k, acc.classes[k], rs) {
          var i :| 0 <= i < |prefix| && !LocalOf(prefix[i].diff).LocalNamespace?
            && k == CommonOf(LocalOf(prefix[i].diff)).casmClassHash
            && acc.classes[k] == Labeled(CommonOf(LocalOf(prefix[i].diff)));
          assert rs[i] == prefix[i];
        }
        if !IsSkipped(p, TagOf(last.diff)) {
          BuilderOutput(last);
          var cc := ResourceCallsClasses(last).value;
          if cc.calls != [] {
            assert ClassOfSome(CommonOf(LocalOf(last.diff)).casmClassHash, Labeled(CommonOf(LocalOf(last.diff))), rs) by {
              assert rs[|rs| - 1] == last;
            }
          }
        }
      }
    }
  }

  /** The call points at the class hash of a resource whose CASM class hash
      is a key of `classes`. */
  ghost predicate CallBacked(c: Call, classes: map<Felt, LabeledClass>, rs: seq<Entry>) {
    exists i :: 0 <= i < |rs| && !LocalOf(rs[i].diff).LocalNamespace?
      && ClassRef(c) == Some(CommonOf(LocalOf(rs[i].diff)).classHash)
      && CommonOf(LocalOf(rs[i].diff)).casmClassHash in classes
  }

  lemma {:induction false} PlanCallsBacked(rs: seq<Entry>, p: ProfileConfig)
    ensures var r := CollectResources(rs, p);
      r.Ok? ==> forall i :: 0 <= i < |r.value.calls| ==> CallBacked(r.value.calls[i], r.value.classes, rs)
    decreases |rs|
  {
    if rs != [] {
      var prefix, last := rs[..|rs| - 1], rs[|rs| - 1];
      PlanCallsBacked(prefix, p);
      var r := CollectResources(rs, p);
      if r.Ok? {
        var acc := CollectResources(prefix, p).value;
        assert forall k :: k in acc.classes ==> k in r.value.classes;
        forall i | 0 <= i < |acc.calls| ensures CallBacked(acc.calls[i], r.value.classes, rs) {
          assert CallBacked(acc.calls[i], acc.classes, prefix);
          var j :| 0 <= j < |prefix| && !LocalOf(prefix[j].diff).LocalNamespace?
            && ClassRef(acc.calls[i]) == Some(CommonOf(LocalOf(prefix[j].diff)).classHash)
            && CommonOf(LocalOf(prefix[j].diff)).casmClassHash in acc.classes;
          assert rs[j] == prefix[j];
        }
        if IsSkipped(p, TagOf(last.diff)) {
          assert r.value == acc;
        } else {
          BuilderOutput(last);
          var cc := ResourceCallsClasses(last).value;
          assert r.value.calls == acc.calls + cc.calls;
          if cc.calls != [] {
            assert CallBacked(cc.calls[0], r.value.classes, rs) by {
              assert rs[|rs| - 1] == last;
            }
          }
          forall i | 0 <= i < |r.value.calls| ensures CallBacked(r.value.calls[i], r.value.classes, rs) {
            if i < |acc.calls| {
              assert r.value.calls[i] == acc.calls[i];
            } else {
              assert r.value.calls[i] == cc.calls[0];
            }
          }
        }
      }
    }
  }


  /** Content addressing: resources with the same CASM class hash have the same class hash. */
  ghost predicate ContentAddressed(rs: seq<Entry>) {
    forall i, j :: 0 <= i < |rs| && 0 <= j < |rs|
      && !LocalOf(rs[i].diff).LocalNamespace? && !LocalOf(rs[j].diff).LocalNamespace?
      && CommonOf(LocalOf(rs[i].diff)).casmClassHash == CommonOf(LocalOf(rs[j].diff)).casmClassHash
      ==> CommonOf(LocalOf(rs[i].diff)).classHash == CommonOf(LocalOf(rs[j].diff)).classHash
  }

  /** Some class the plan declares has class hash `h`. */
  predicate DeclaresHash(classes: map<Felt, LabeledClass>, h: Felt) {
    exists k :: k in classes && classes[k].classHash == h
  }

  /** Every class a register or upgrade call of the plan points at is among the
      classes declared in the same step, provided equal CASM hashes mean equal
      class hashes (so that a later class overriding an earlier key is the same class). */
  lemma PlanCallsDeclared(rs: seq<Entry>, p: ProfileConfig)
    requires ContentAddressed(rs)
    ensures var r := CollectResources(rs, p);
      r.Ok? ==> forall i :: 0 <= i < |r.value.calls| ==>
        ClassRef(r.value.calls[i]).Some? && DeclaresHash(r.value.classes, ClassRef(r.value.calls[i]).value)
  {
    var r := CollectResources(rs, p);
    if r.Ok? {
      PlanClassesFromResources(rs, p);
      PlanCallsBacked(rs, p);
      forall i | 0 <= i < |r.value.calls|
        ensures ClassRef(r.value.calls[i]).Some? && DeclaresHash(r.value.classes, ClassRef(r.value.calls[i]).value)
      {
        var c := r.value.calls[i];
        assert CallBacked(c, r.value.classes, rs);
        var j :| 0 <= j < |rs| && !LocalOf(rs[j].diff).LocalNamespace?
          && ClassRef(c) == Some(CommonOf(LocalOf(rs[j].diff)).classHash)
          && CommonOf(LocalOf(rs[j].diff)).casmClassHash in r.value.classes;
        var k := CommonOf(LocalOf(rs[j].diff)).casmClassHash;
        assert ClassOfSome(k, r.value.classes[k], rs);
      }
    }
  }

  /** The register calls for namespaces: only a Created namespace is registered;
      a selector with no resource entry is a fatal error. */
  function NamespaceCall(d: Option<ResourceDiff>): Result<seq<Call>, MigrationError> {
    match d
    case None => Err(Panic("Namespace not found in diff."))
    case Some(Created(LocalNamespace(name))) => Ok([RegisterNamespace(name)])
    case Some(_) => Ok([])
  }

  function NamespaceCalls(ns: seq<Felt>, rs: seq<Entry>): Result<seq<Call>, MigrationError>
    decreases |ns|
  {
    if ns == [] then Ok([])
    else match NamespaceCalls(ns[..|ns| - 1], rs)
      case Err(err) => Err(err)
      case Ok(acc) =>
        match NamespaceCall(Lookup(rs, ns[|ns| - 1]))
        case Err(err) => Err(err)
        case Ok(c) => Ok(acc + c)
  }

  lemma {:induction false} NamespaceErrPersists(ns: seq<Felt>, rs: seq<Entry>, j: nat)
    requires j <= |ns| && NamespaceCalls(ns[..j], rs).Err?
    ensures NamespaceCalls(ns, rs) == NamespaceCalls(ns[..j], rs)
    decreases |ns|
  {
    if j < |ns| {
      var prefix := ns[..|ns| - 1];
      assert prefix[..j] == ns[..j];
      NamespaceErrPersists(prefix, rs, j);
    } else {
      assert ns[..j] == ns;
    }
  }

  /** The selector at `k` names a Created namespace called `name`. */
  predicate CreatedNamespaceAt(ns: seq<Felt>, rs: seq<Entry>, k: nat, name: string)
    requires k < |ns|
  {
    Lookup(rs, ns[k]) == Some(Created(LocalNamespace(name)))
  }

  /** Namespace registration fails exactly when some listed selector has no
      resource entry, and otherwise only registers namespaces. */
  lemma {:induction false} NamespaceCallsFailIff(ns: seq<Felt>, rs: seq<Entry>)
    ensures NamespaceCalls(ns, rs).Err? <==> exists k :: 0 <= k < |ns| && Lookup(rs, ns[k]).None?
    ensures var r := NamespaceCalls(ns, rs);
      r.Ok? ==> forall i :: 0 <= i < |r.value| ==> r.value[i].RegisterNamespace?
    decreases |ns|
  {
    if ns != [] {
      var prefix := ns[..|ns| - 1];
      NamespaceCallsFailIff(prefix, rs);
      var r := NamespaceCalls(ns, rs);
      if NamespaceCalls(prefix, rs).Err? {
        var k :| 0 <= k < |prefix| && Lookup(rs, prefix[k]).None?;
        assert ns[k] == prefix[k];
      } else if r.Ok? {
        forall k | 0 <= k < |ns| ensures Lookup(rs, ns[k]).Some? {
          if k < |prefix| {
            assert ns[k] == prefix[k];
          }
        }
      }
    }
  }

  /** A namespace is registered exactly when its selector is listed and names a
      Created namespace. */
  lemma {:induction false} NamespaceCallsMembers(ns: seq<Felt>, rs: seq<Entry>)
    ensures var r := NamespaceCalls(ns, rs);
      r.Ok? ==> forall name :: RegisterNamespace(name) in r.value <==>
        exists k :: 0 <= k < |ns| && CreatedNamespaceAt(ns, rs, k, name)
    decreases |ns|
  {
    if ns != [] {
      var prefix, last := ns[..|ns| - 1], ns[|ns| - 1];
      NamespaceCallsMembers(prefix, rs);
      var r := NamespaceCalls(ns, rs);
      if r.Ok? {
        var acc := NamespaceCalls(prefix, rs).value;
        var c := NamespaceCall(Lookup(rs, last)).value;
        assert r.value == acc + c;
        forall name
          ensures RegisterNamespace(name) in r.value <==>
            exists k :: 0 <= k < |ns| && CreatedNamespaceAt(ns, rs, k, name)
        {
          if RegisterNamespace(name) in acc {
            var k :| 0 <= k < |prefix| && CreatedNamespaceAt(prefix, rs, k, name);
            assert ns[k] == prefix[k];
            assert CreatedNamespaceAt(ns, rs, k, name);
          }
          if RegisterNamespace(name) in c {
            assert Lookup(rs, last) == Some(Created(LocalNamespace(name)));
            assert CreatedNamespaceAt(ns, rs, |ns| - 1, name);
          }
          if exists k :: 0 <= k < |ns| && CreatedNamespaceAt(ns, rs, k, name) {
            var k :| 0 <= k < |ns| && CreatedNamespaceAt(ns, rs, k, name);
            if k == |ns| - 1 {
              assert c == [RegisterNamespace(name)];
            } else {
              assert ns[k] == prefix[k];
              assert CreatedNamespaceAt(prefix, rs, k, name);
            }
          }
        }
      }
    }
  }

  /** How many listed selectors name a Created namespace called `name`. */
  function CreatedCount(ns: seq<Felt>, rs: seq<Entry>, name: string): nat
    decreases |ns|
  {
    if ns == [] then 0
    else CreatedCount(ns[..|ns| - 1], rs, name) + (if CreatedNamespaceAt(ns, rs, |ns| - 1, name) then 1 else 0)
  }

  /** How many listed selectors name a Created namespace at all. */
  function CreatedSelectors(ns: seq<Felt>, rs: seq<Entry>): nat
    decreases |ns|
  {
    if ns == [] then 0
    else
      var d := Lookup(rs, ns[|ns| - 1]);
      CreatedSelectors(ns[..|ns| - 1], rs) + (if d.Some? && d.value.Created? && d.value.local.LocalNamespace? then 1 else 0)
  }

  /** One registration per listed Created namespace: a namespace is registered
      as many times as selectors naming it are listed, and there are as many
      registrations as listed selectors of Created namespaces. */
  lemma {:induction false} NamespaceCallsCount(ns: seq<Felt>, rs: seq<Entry>)
    ensures var r := NamespaceCalls(ns, rs);
      r.Ok? ==> forall name :: multiset(r.value)[RegisterNamespace(name)] == CreatedCount(ns, rs, name)
    ensures var r := NamespaceCalls(ns, rs);
      r.Ok? ==> |r.value| == CreatedSelectors(ns, rs)
    decreases |ns|
  {
    if ns != [] {
      var prefix, last := ns[..|ns| - 1], ns[|ns| - 1];
      NamespaceCallsCount(prefix, rs);
      var r := NamespaceCalls(ns, rs);
      if r.Ok? {
        var acc := NamespaceCalls(prefix, rs).value;
        var c := NamespaceCall(Lookup(rs, last)).value;
        assert r.value == acc + c;
        forall name ensures multiset(r.value)[RegisterNamespace(name)] == CreatedCount(ns, rs, name) {
          assert CreatedCount(ns, rs, name) == CreatedCount(prefix, rs, name)
            + (if Lookup(rs, last) == Some(Created(LocalNamespace(name))) then 1 else 0);
        }
      }
    }
  }

  /** Two Created namespaces listed in some order are registered in that order. */
  lemma {:induction false} NamespacePairOrdered(ns: seq<Felt>, rs: seq<Entry>, k1: nat, k2: nat, n1: string, n2: string)
    requires k1 < k2 < |ns| && CreatedNamespaceAt(ns, rs, k1, n1) && CreatedNamespaceAt(ns, rs, k2, n2)
    requires NamespaceCalls(ns, rs).Ok?
    ensures var calls := NamespaceCalls(ns, rs).value;
      exists i1, i2 :: 0 <= i1 < i2 < |calls| && calls[i1] == RegisterNamespace(n1) && calls[i2] == RegisterNamespace(n2)
    decreases |ns|
  {
    var prefix, last := ns[..|ns| - 1], ns[|ns| - 1];
    var acc := NamespaceCalls(prefix, rs).value;
    var c := NamespaceCall(Lookup(rs, last)).value;
    var calls := NamespaceCalls(ns, rs).value;
    assert calls == acc + c;
    assert ns[k1] == prefix[k1];
    assert CreatedNamespaceAt(prefix, rs, k1, n1);
    if k2 == |ns| - 1 {
      NamespaceCallsMembers(prefix, rs);
      var i1 :| 0 <= i1 < |acc| && acc[i1] == RegisterNamespace(n1);
      assert c == [RegisterNamespace(n2)];
      assert calls[|acc|] == RegisterNamespace(n2);
      assert calls[i1] == RegisterNamespace(n1);
    } else {
      assert ns[k2] == prefix[k2];
      assert CreatedNamespaceAt(prefix, rs, k2, n2);
      NamespacePairOrdered(prefix, rs, k1, k2, n1, n2);
      var i1, i2 :| 0 <= i1 < i2 < |acc| && acc[i1] == RegisterNamespace(n1) && acc[i2] == RegisterNamespace(n2);
      assert calls[i1] == acc[i1] && calls[i2] == acc[i2];
    }
  }

  /** Registrations follow the order of `diff.namespaces`. */
  lemma NamespaceCallsOrder(ns: seq<Felt>, rs: seq<Entry>)
    ensures var r := NamespaceCalls(ns, rs);
      r.Ok? ==> forall k1: nat, k2: nat, n1, n2 ::
        (k1 < k2 < |ns| && CreatedNamespaceAt(ns, rs, k1, n1) && CreatedNamespaceAt(ns, rs, k2, n2)) ==>
          (exists i1, i2 ::
             0 <= i1 < i2 < |r.value| && r.value[i1] == RegisterNamespace(n1) && r.value[i2] == RegisterNamespace(n2))
  {
    if NamespaceCalls(ns, rs).Ok? {
      forall k1: nat, k2: nat, n1, n2 |
        k1 < k2 < |ns| && CreatedNamespaceAt(ns, rs, k1, n1) && CreatedNamespaceAt(ns, rs, k2, n2)
        ensures var calls := NamespaceCalls(ns, rs).value;
          exists i1, i2 :: 0 <= i1 < i2 < |calls| && calls[i1] == RegisterNamespace(n1) && calls[i2] == RegisterNamespace(n2)
      {
        NamespacePairOrdered(ns, rs, k1, k2, n1, n2);
      }
    }
  }

  /** The tail shared by the steps that declare classes: declare, then flush the
      batch once, unless the declaration failed. */
  function DeclareThenFlush(classes: map<Felt, LabeledClass>, mode: ExecMode, batch: seq<Call>, env: Env): Declared {
    var declared := DeclareSpec(classes, env);
    if declared.error.Some? then declared
    else Declared(declared.ops + [Execute(mode, batch)], Flushed(env, mode, batch))
  }

  /** Declarations are submitted first and the batch last; the step invokes
      something exactly when it gets to a non-empty batch. */
  lemma DeclareThenFlushShape(classes: map<Felt, LabeledClass>, mode: ExecMode, batch: seq<Call>, env: Env)
    ensures var d := DeclareThenFlush(classes, mode, batch, env);
      forall i :: 0 <= i < |d.ops| - 1 ==> d.ops[i].Declare?
    ensures var d := DeclareThenFlush(classes, mode, batch, env);
      d.error.None? ==> |d.ops| > 0 && d.ops[|d.ops| - 1] == Execute(mode, batch)
    ensures var d := DeclareThenFlush(classes, mode, batch, env);
      d.error.None? ==> (AnyInvokes(d.ops) <==> batch != [])
    ensures DeclaredIn(DeclareThenFlush(classes, mode, batch, env).ops) == multiset(ClassOrder(classes, env))
  {
    DeclareCoversClasses(classes, env);
    var declared := DeclareSpec(classes, env);
    if declared.error.None? {
      var ops := declared.ops + [Execute(mode, batch)];
      assert ops[..|ops| - 1] == declared.ops;
      AnyInvokesAppend(declared.ops, [Execute(mode, batch)]);
      assert !AnyInvokes(declared.ops);
      if batch != [] {
        assert Invokes([Execute(mode, batch)][0]);
      }
    }
  }

  method DeclareAndFlush(classes: map<Felt, LabeledClass>, invoker: Invoker, mode: ExecMode, remote: Remote)
    returns (err: Option<MigrationError>)
    modifies remote
    ensures remote.log == old(remote.log) + DeclareThenFlush(classes, mode, invoker.calls, remote.env).ops
    ensures err == DeclareThenFlush(classes, mode, invoker.calls, remote.env).error
  {
    err := DeclareClasses(classes, remote);
    if err.Some? {
      return;
    }
    ghost var before := remote.log;
    err := invoker.Flush(remote, mode);
    assert remote.log == before + [Execute(mode, invoker.calls)];
  }

  /** What `sync_resources` submits and returns. */
  function SyncResourcesSpec(m: Migration, env: Env): Step {
    match NamespaceCalls(m.diff.namespaces, m.diff.resources)
    case Err(err) => Step([], Err(err))
    case Ok(nsCalls) =>
      match CollectResources(m.diff.resources, m.profile)
      case Err(err) => Step([], Err(err))
      case Ok(plan) =>
        var batch := nsCalls + plan.calls;
        var d := DeclareThenFlush(plan.classes, ModeOf(DoMulticall(m.profile)), batch, env);
        Step(d.ops, if d.error.Some? then Err(d.error.value) else Ok(plan.classes != map[] || batch != []))
  }

  /** The resource step submits its declarations first and its single batch
      last, and in the batch every namespace registration precedes every
      resource call. */
  lemma SyncResourcesOrder(m: Migration, env: Env)
    ensures var s := SyncResourcesSpec(m, env);
      forall i :: 0 <= i < |s.ops| - 1 ==> s.ops[i].Declare?
    ensures var s := SyncResourcesSpec(m, env);
      s.result.Ok? ==>
        |s.ops| > 0 && s.ops[|s.ops| - 1].Execute?
        && (var batch := s.ops[|s.ops| - 1].calls;
            forall i, j :: 0 <= i < j < |batch| && batch[j].RegisterNamespace? ==> batch[i].RegisterNamespace?)
  {
    var d := m.diff;
    var ns := NamespaceCalls(d.namespaces, d.resources);
    var plan := CollectResources(d.resources, m.profile);
    if ns.Ok? && plan.Ok? {
      NamespaceCallsFailIff(d.namespaces, d.resources);
      PlanCounts(d.resources, m.profile);
      var batch := ns.value + plan.value.calls;
      DeclareThenFlushShape(plan.value.classes, ModeOf(DoMulticall(m.profile)), batch, env);
      NamespacesFirst(ns.value, plan.value.calls);
    }
  }

  /** Registrations followed by resource calls keep every registration first. */
  lemma NamespacesFirst(regs: seq<Call>, calls: seq<Call>)
    requires forall i :: 0 <= i < |regs| ==> regs[i].RegisterNamespace?
    requires forall i :: 0 <= i < |calls| ==> IsRegister(calls[i]) || IsUpgrade(calls[i])
    ensures var batch := regs + calls;
      forall i, j :: 0 <= i < j < |batch| && batch[j].RegisterNamespace? ==> batch[i].RegisterNamespace?
  {
    var batch := regs + calls;
    forall k | |regs| <= k < |batch| ensures !batch[k].RegisterNamespace? {
      assert batch[k] == calls[k - |regs|];
    }
  }

  /** The plan's classes are keyed by their own CASM class hash. */
  lemma PlanKeyedByCasm(rs: seq<Entry>, p: ProfileConfig)
    ensures var r := CollectResources(rs, p);
      r.Ok? ==> KeyedByCasm(r.value.classes)
  {
    PlanClassesFromResources(rs, p);
    var r := CollectResources(rs, p);
    if r.Ok? {
      forall k | k in r.value.classes ensures r.value.classes[k].casmClassHash == k {
        assert ClassOfSome(k, r.value.classes[k], rs);
      }
    }
  }

  /** Publication before reference: when class maps are iterated as a `HashMap`
      iterates them and equal CASM class hashes mean equal class hashes, the
      resource step declares every class of the plan exactly once, and every
      call of its batch that points at a class points at the class hash of a
      class declared by an earlier operation of the step. */
  lemma SyncResourcesDeclaresFirst(m: Migration, env: Env)
    requires IteratesMaps(env) && ContentAddressed(m.diff.resources)
    ensures var s := SyncResourcesSpec(m, env);
      forall i, c :: 0 <= i < |s.ops| && s.ops[i].Execute? && c in s.ops[i].calls && ClassRef(c).Some? ==>
        exists lc :: lc in DeclaredIn(s.ops[..i]) && lc.classHash == ClassRef(c).value
    ensures var plan := CollectResources(m.diff.resources, m.profile);
      NamespaceCalls(m.diff.namespaces, m.diff.resources).Ok? && plan.Ok? ==>
        forall k :: k in plan.value.classes ==>
          DeclaredIn(SyncResourcesSpec(m, env).ops)[plan.value.classes[k]] == 1
  {
    var d := m.diff;
    var ns := NamespaceCalls(d.namespaces, d.resources);
    var plan := CollectResources(d.resources, m.profile);
    if ns.Ok? && plan.Ok? {
      var classes := plan.value.classes;
      var batch := ns.value + plan.value.calls;
      var mode := ModeOf(DoMulticall(m.profile));
      var s := SyncResourcesSpec(m, env);
      var declared := DeclareSpec(classes, env);
      PlanKeyedByCasm(d.resources, m.profile);
      assert ListsKeys(classes, env.iterationOrder(classes));
      DeclareEachClassOnce(classes, env);
      DeclareCoversClasses(classes, env);
      DeclareThenFlushShape(classes, mode, batch, env);
      NamespaceCallsFailIff(d.namespaces, d.resources);
      PlanCallsDeclared(d.resources, m.profile);
      if declared.error.None? {
        assert s.ops == declared.ops + [Execute(mode, batch)];
        assert s.ops[..|declared.ops|] == declared.ops;
        forall c | c in ns.value ensures ClassRef(c).None? {
          var j :| 0 <= j < |ns.value| && ns.value[j] == c;
        }
        forall i, c | 0 <= i < |s.ops| && s.ops[i].Execute? && c in s.ops[i].calls && ClassRef(c).Some?
          ensures exists lc :: lc in DeclaredIn(s.ops[..i]) && lc.classHash == ClassRef(c).value
        {
          assert i == |declared.ops|;
          assert c in plan.value.calls;
          var j :| 0 <= j < |plan.value.calls| && plan.value.calls[j] == c;
          var k :| k in classes && classes[k].classHash == ClassRef(c).value;
          assert DeclaredIn(declared.ops)[classes[k]] == 1;
        }
      }
    }
  }

  /** `sync_resources` reports a change exactly when it sends an invoke. */
  lemma SyncResourcesChanges(m: Migration, env: Env)
    ensures var s := SyncResourcesSpec(m, env);
      s.result.Ok? ==> (s.result.value <==> AnyInvokes(s.ops))
  {
    var d := m.diff;
    var ns := NamespaceCalls(d.namespaces, d.resources);
    var plan := CollectResources(d.resources, m.profile);
    if ns.Ok? && plan.Ok? {
      PlanCounts(d.resources, m.profile);
      DeclareThenFlushShape(plan.value.classes, ModeOf(DoMulticall(m.profile)), ns.value + plan.value.calls, env);
    }
  }

  /** When every resource is in sync there is nothing to register, upgrade or
      declare, which is why the step may be skipped for a synced diff. */
  lemma {:induction false} SyncedPlanIsEmpty(rs: seq<Entry>, p: ProfileConfig)
    requires forall i :: 0 <= i < |rs| ==> rs[i].diff.Synced?
    ensures CollectResources(rs, p) == Ok(Plan([], map[], 0))
    decreases |rs|
  {
    if rs != [] {
      var prefix, last := rs[..|rs| - 1], rs[|rs| - 1];
      assert forall i :: 0 <= i < |prefix| ==> prefix[i] == rs[i];
      SyncedPlanIsEmpty(prefix, p);
      BuilderByStatus(last);
      assert [] + NoCalls.calls == [] && map[] + NoCalls.classes == map[];
    }
  }

  lemma {:induction false} SyncedNamespacesAreQuiet(ns: seq<Felt>, rs: seq<Entry>)
    requires forall i :: 0 <= i < |rs| ==> rs[i].diff.Synced?
    ensures NamespaceCalls(ns, rs).Ok? ==> NamespaceCalls(ns, rs).value == []
    decreases |ns|
  {
    if ns != [] {
      SyncedNamespacesAreQuiet(ns[..|ns| - 1], rs);
      var l := Lookup(rs, ns[|ns| - 1]);
      if l.Some? {
        var i :| 0 <= i < |rs| && rs[i] == Entry(ns[|ns| - 1], l.value);
      }
    }
  }

  /** `namespaces_getcalls`: pushes one register call per Created namespace. */
  method NamespacesGetcalls(d: WorldDiff, invoker: Invoker) returns (err: Option<MigrationError>)
    modifies invoker
    ensures err.None? <==> NamespaceCalls(d.namespaces, d.resources).Ok?
    ensures err.Some? ==> NamespaceCalls(d.namespaces, d.resources) == Err(err.value)
    ensures err.None? ==> invoker.calls == old(invoker.calls) + NamespaceCalls(d.namespaces, d.resources).value
  {
    var ns := d.namespaces;
    for k := 0 to |ns|
      invariant NamespaceCalls(ns[..k], d.resources).Ok?
      invariant invoker.calls == old(invoker.calls) + NamespaceCalls(ns[..k], d.resources).value
    {
      ghost var acc := NamespaceCalls(ns[..k], d.resources).value;
      assert ns[..k + 1][..k] == ns[..k] && ns[..k + 1][k] == ns[k];
      var resource := Lookup(d.resources, ns[k]);
      if resource.None? {
        NamespaceErrPersists(ns, d.resources, k + 1);
        return Some(Panic("Namespace not found in diff."));
      }
      ghost var c := NamespaceCall(resource).value;
      assert NamespaceCalls(ns[..k + 1], d.resources) == Ok(acc + c);
      if resource.value.Created? && resource.value.local.LocalNamespace? {
        AppendAssoc(old(invoker.calls), acc, c);
        invoker.AddCall(RegisterNamespace(resource.value.local.nsName));
      } else {
        assert acc + c == acc;
      }
    }
    assert ns[..|ns|] == ns;
    return None;
  }

  /** The collection loop of `sync_resources`. */
  method CollectCallsClasses(rs: seq<Entry>, p: ProfileConfig, invoker: Invoker)
    returns (r: Result<(map<Felt, LabeledClass>, nat), MigrationError>)
    modifies invoker
    ensures CollectResources(rs, p).Err? <==> r.Err?
    ensures r.Err? ==> CollectResources(rs, p) == Err(r.error)
    ensures r.Ok? ==> var plan := CollectResources(rs, p).value;
      r.value == (plan.classes, plan.nResources) && invoker.calls == old(invoker.calls) + plan.calls
  {
    var classes: map<Felt, LabeledClass> := map[];
    var nResources := 0;
    for i := 0 to |rs|
      invariant CollectResources(rs[..i], p).Ok?
      invariant var plan := CollectResources(rs[..i], p).value;
        invoker.calls == old(invoker.calls) + plan.calls && classes == plan.classes && nResources == plan.nResources
    {
      var e := rs[i];
      assert rs[..i + 1][..i] == rs[..i] && rs[..i + 1][i] == e;
      if IsSkipped(p, TagOf(e.diff)) {
        continue;
      }
      var built: Result<CallsClasses, MigrationError>;
      match TypeOf(e.diff) {
        case ContractType => built := Ok(ContractsCallsClasses(e));
        case LibraryType => built := LibrariesCallsClasses(e);
        case ModelType => built := Ok(ModelsCallsClasses(e));
        case EventType => built := Ok(EventsCallsClasses(e));
        case NamespaceType => continue;
      }
      if built.Err? {
        CollectErrPersists(rs, p, i + 1);
        return Err(built.error);
      }
      var cc := built.value;
      if cc.calls != [] {
        nResources := nResources + 1;
      }
      AppendAssoc(old(invoker.calls), CollectResources(rs[..i], p).value.calls, cc.calls);
      invoker.ExtendCalls(cc.calls);
      classes := classes + cc.classes;
    }
    assert rs[..|rs|] == rs;
    return Ok((classes, nResources));
  }

  method SyncResources(m: Migration, remote: Remote) returns (r: Result<bool, MigrationError>)
    modifies remote
    ensures remote.log == old(remote.log) + SyncResourcesSpec(m, remote.env).ops
    ensures r == SyncResourcesSpec(m, remote.env).result
  {
    var invoker := new Invoker();
    // Namespaces first: every other resource lives in one.
    var nsErr := NamespacesGetcalls(m.diff, invoker);
    if nsErr.Some? {
      return Err(nsErr.value);
    }
    var collected := CollectCallsClasses(m.diff.resources, m.profile, invoker);
    if collected.Err? {
      return Err(collected.error);
    }
    var classes := collected.value.0;
    assert invoker.calls == NamespaceCalls(m.diff.namespaces, m.diff.resources).value
                            + CollectResources(m.diff.resources, m.profile).value.calls;
    var hasChanged := classes != map[] || invoker.calls != [];
    var err := DeclareAndFlush(classes, invoker, ModeOf(DoMulticall(m.profile)), remote);
    if err.Some? {
      return Err(err.value);
    }
    return Ok(hasChanged);
  }
}
