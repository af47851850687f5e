/** `sync_permissions`: for every resource that is not skipped, grant each
    writer and then each owner that exists locally but not yet on chain; the
    batch is flushed even when it is empty. */
module Permissions {
  import opened Base
  import opened Diff
  import opened Config
  import opened Chain
  import opened Resources

  /** One writer grant per delta, in order. */
  function WriterGrants(selector: Felt, ds: seq<PermissionDelta>): (r: seq<Call>)
    ensures |r| == |ds|
    decreases |ds|
  {
    if ds == [] then []
    else WriterGrants(selector, ds[..|ds| - 1]) + [GrantWriter(selector, ds[|ds| - 1].address)]
  }

  /** One owner grant per delta, in order. */
  function OwnerGrants(selector: Felt, ds: seq<PermissionDelta>): (r: seq<Call>)
    ensures |r| == |ds|
    decreases |ds|
  {
    if ds == [] then []
    else OwnerGrants(selector, ds[..|ds| - 1]) + [GrantOwner(selector, ds[|ds| - 1].address)]
  }

  /** The writer grants are exactly the grants to the deltas' addresses. */
  lemma {:induction false} WriterGrantsMembers(selector: Felt, ds: seq<PermissionDelta>)
    ensures forall c :: c in WriterGrants(selector, ds) ==> c.GrantWriter? && c.resource == selector
    ensures forall a :: GrantWriter(selector, a) in WriterGrants(selector, ds) <==> exists x :: x in ds && x.address == a
    decreases |ds|
  {
    if ds != [] {
      var prefix, last := ds[..|ds| - 1], ds[|ds| - 1];
      WriterGrantsMembers(selector, prefix);
      assert ds == prefix + [last];
    }
  }

  lemma {:induction false} OwnerGrantsMembers(selector: Felt, ds: seq<PermissionDelta>)
    ensures forall c :: c in OwnerGrants(selector, ds) ==> c.GrantOwner? && c.resource == selector
    ensures forall a :: GrantOwner(selector, a) in OwnerGrants(selector, ds) <==> exists x :: x in ds && x.address == a
    decreases |ds|
  {
    if ds != [] {
      var prefix, last := ds[..|ds| - 1], ds[|ds| - 1];
      OwnerGrantsMembers(selector, prefix);
      assert ds == prefix + [last];
    }
  }

  /** The grants for one resource: local-only writers, then local-only owners. */
  function ResourceGrants(d: WorldDiff, selector: Felt): seq<Call> {
    WriterGrants(selector, OnlyLocal(GetWriters(d, selector)))
    + OwnerGrants(selector, OnlyLocal(GetOwners(d, selector)))
  }

  /** The grants for one resource target that resource and come writers first. */
  lemma ResourceGrantsShape(d: WorldDiff, selector: Felt)
    ensures var g := ResourceGrants(d, selector);
      forall i :: 0 <= i < |g| ==> (g[i].GrantWriter? || g[i].GrantOwner?) && g[i].resource == selector
    ensures var g := ResourceGrants(d, selector);
      forall i, j :: 0 <= i < j < |g| && g[i].GrantOwner? ==> g[j].GrantOwner?
  {
    var ws := WriterGrants(selector, OnlyLocal(GetWriters(d, selector)));
    var os := OwnerGrants(selector, OnlyLocal(GetOwners(d, selector)));
    WriterGrantsMembers(selector, OnlyLocal(GetWriters(d, selector)));
    OwnerGrantsMembers(selector, OnlyLocal(GetOwners(d, selector)));
    var g := ws + os;
    assert forall i :: 0 <= i < |ws| ==> g[i] == ws[i] && ws[i] in ws;
    assert forall i :: |ws| <= i < |g| ==> g[i] == os[i - |ws|] && os[i - |ws|] in os;
  }

  /** One writer grant per local-only writer delta and one owner grant per
      local-only owner delta of the resource, and no other grant. */
  lemma ResourceGrantsMembers(d: WorldDiff, selector: Felt)
    ensures forall a :: GrantWriter(selector, a) in ResourceGrants(d, selector) <==>
      exists x :: x in GetWriters(d, selector) && x.status == LocalOnly && x.address == a
    ensures forall a :: GrantOwner(selector, a) in ResourceGrants(d, selector) <==>
      exists x :: x in GetOwners(d, selector) && x.status == LocalOnly && x.address == a
    ensures forall c :: c in ResourceGrants(d, selector) ==> (c.GrantWriter? || c.GrantOwner?) && c.resource == selector
  {
    WriterGrantsMembers(selector, OnlyLocal(GetWriters(d, selector)));
    OwnerGrantsMembers(selector, OnlyLocal(GetOwners(d, selector)));
  }

  /** The grants one entry contributes: none when it is skipped. */
  function GrantsOf(d: WorldDiff, p: ProfileConfig, e: Entry): seq<Call> {
    if IsSkipped(p, TagOf(e.diff)) then [] else ResourceGrants(d, e.selector)
  }

  /** All grants of the step, resource by resource, skipping skipped resources. */
  function PermissionCalls(d: WorldDiff, p: ProfileConfig, rs: seq<Entry>): seq<Call>
    decreases |rs|
  {
    if rs == [] then []
    else PermissionCalls(d, p, rs[..|rs| - 1]) + GrantsOf(d, p, rs[|rs| - 1])
  }

  /** One more entry of the loop adds its grants at the end. */
  lemma PermissionCallsStep(d: WorldDiff, p: ProfileConfig, rs: seq<Entry>, i: nat)
    requires i < |rs|
    ensures PermissionCalls(d, p, rs[..i + 1]) == PermissionCalls(d, p, rs[..i]) + GrantsOf(d, p, rs[i])
  {
    assert rs[..i + 1][..i] == rs[..i] && rs[..i + 1][i] == rs[i];
  }

  /** The resource has a permission to grant: it is not skipped and has a
      local-only writer or owner. */
  predicate HasGrants(d: WorldDiff, p: ProfileConfig, e: Entry) {
    !IsSkipped(p, TagOf(e.diff))
    && ((exists x :: x in GetWriters(d, e.selector) && x.status == LocalOnly)
        || (exists x :: x in GetOwners(d, e.selector) && x.status == LocalOnly))
  }

  lemma ResourceGrantsNonEmpty(d: WorldDiff, selector: Felt)
    ensures ResourceGrants(d, selector) != [] <==>
      (exists x :: x in GetWriters(d, selector) && x.status == LocalOnly)
      || (exists x :: x in GetOwners(d, selector) && x.status == LocalOnly)
  {
    var ws, os := OnlyLocal(GetWriters(d, selector)), OnlyLocal(GetOwners(d, selector));
    assert |ResourceGrants(d, selector)| == |ws| + |os|;
    if ws != [] {
      assert ws[0] in ws;
    }
    if os != [] {
      assert os[0] in os;
    }
  }

  /** The resource is not skipped and `c` is among its grants. */
  predicate GrantedBy(d: WorldDiff, p: ProfileConfig, e: Entry, c: Call) {
    !IsSkipped(p, TagOf(e.diff)) && c in ResourceGrants(d, e.selector)
  }

  /** An issued call names the resource it was issued for. */
  lemma {:induction false} IssuedWitness(d: WorldDiff, p: ProfileConfig, rs: seq<Entry>, c: Call) returns (i: nat)
    requires c in PermissionCalls(d, p, rs)
    ensures i < |rs| && GrantedBy(d, p, rs[i], c)
    decreases |rs|
  {
    var prefix, last := rs[..|rs| - 1], rs[|rs| - 1];
    var tail := GrantsOf(d, p, last);
    assert PermissionCalls(d, p, rs) == PermissionCalls(d, p, prefix) + tail;
    if c in PermissionCalls(d, p, prefix) {
      i := IssuedWitness(d, p, prefix, c);
      assert rs[i] == prefix[i];
    } else {
      i := |rs| - 1;
    }
  }

  /** Every grant of a resource that is not skipped is issued. */
  lemma {:induction false} IssuedSufficient(d: WorldDiff, p: ProfileConfig, rs: seq<Entry>, c: Call, i: nat)
    requires i < |rs| && GrantedBy(d, p, rs[i], c)
    ensures c in PermissionCalls(d, p, rs)
    decreases |rs|
  {
    var prefix, last := rs[..|rs| - 1], rs[|rs| - 1];
    var tail := GrantsOf(d, p, last);
    assert PermissionCalls(d, p, rs) == PermissionCalls(d, p, prefix) + tail;
    if i < |prefix| {
      assert rs[i] == prefix[i];
      IssuedSufficient(d, p, prefix, c, i);
    } else {
      assert i == |rs| - 1;
      assert c in tail;
    }
  }

  /** A call is issued exactly when it is among the grants of some resource
      that is not skipped. */
  lemma PermissionCallsMembers(d: WorldDiff, p: ProfileConfig, rs: seq<Entry>)
    ensures forall c :: c in PermissionCalls(d, p, rs) <==>
      exists i :: 0 <= i < |rs| && !IsSkipped(p, TagOf(rs[i].diff)) && c in ResourceGrants(d, rs[i].selector)
  {
    forall c ensures c in PermissionCalls(d, p, rs) <==>
      exists i :: 0 <= i < |rs| && !IsSkipped(p, TagOf(rs[i].diff)) && c in ResourceGrants(d, rs[i].selector)
    {
      if c in PermissionCalls(d, p, rs) {
        var i := IssuedWitness(d, p, rs, c);
      }
      if exists i :: 0 <= i < |rs| && !IsSkipped(p, TagOf(rs[i].diff)) && c in ResourceGrants(d, rs[i].selector) {
        var i :| 0 <= i < |rs| && !IsSkipped(p, TagOf(rs[i].diff)) && c in ResourceGrants(d, rs[i].selector);
        IssuedSufficient(d, p, rs, c, i);
      }
    }
  }

  /** Granted writers: a writer grant on resource `r` is issued exactly for the
      local-only writer deltas of `r`, when `r` is a resource that is not skipped. */
  lemma PermissionWriters(d: WorldDiff, p: ProfileConfig, r: Felt, a: Felt)
    ensures GrantWriter(r, a) in PermissionCalls(d, p, d.resources) <==>
      (exists i :: 0 <= i < |d.resources| && d.resources[i].selector == r && !IsSkipped(p, TagOf(d.resources[i].diff)))
      && (exists x :: x in GetWriters(d, r) && x.status == LocalOnly && x.address == a)
  {
    PermissionCallsMembers(d, p, d.resources);
    ResourceGrantsMembers(d, r);
    if GrantWriter(r, a) in PermissionCalls(d, p, d.resources) {
      var i :| 0 <= i < |d.resources| && !IsSkipped(p, TagOf(d.resources[i].diff))
        && GrantWriter(r, a) in ResourceGrants(d, d.resources[i].selector);
      ResourceGrantsMembers(d, d.resources[i].selector);
    }
  }

  /** Granted owners, likewise. */
  lemma PermissionOwners(d: WorldDiff, p: ProfileConfig, r: Felt, a: Felt)
    ensures GrantOwner(r, a) in PermissionCalls(d, p, d.resources) <==>
      (exists i :: 0 <= i < |d.resources| && d.resources[i].selector == r && !IsSkipped(p, TagOf(d.resources[i].diff)))
      && (exists x :: x in GetOwners(d, r) && x.status == LocalOnly && x.address == a)
  {
    PermissionCallsMembers(d, p, d.resources);
    ResourceGrantsMembers(d, r);
    if GrantOwner(r, a) in PermissionCalls(d, p, d.resources) {
      var i :| 0 <= i < |d.resources| && !IsSkipped(p, TagOf(d.resources[i].diff))
        && GrantOwner(r, a) in ResourceGrants(d, d.resources[i].selector);
      ResourceGrantsMembers(d, d.resources[i].selector);
    }
  }

  /** Only grants are issued. */
  lemma PermissionCallsAreGrants(d: WorldDiff, p: ProfileConfig, rs: seq<Entry>)
    ensures var calls := PermissionCalls(d, p, rs);
      forall i :: 0 <= i < |calls| ==> calls[i].GrantWriter? || calls[i].GrantOwner?
  {
    var calls := PermissionCalls(d, p, rs);
    PermissionCallsMembers(d, p, rs);
    forall i | 0 <= i < |calls| ensures calls[i].GrantWriter? || calls[i].GrantOwner? {
      assert calls[i] in calls;
      var j :| 0 <= j < |rs| && !IsSkipped(p, TagOf(rs[j].diff)) && calls[i] in ResourceGrants(d, rs[j].selector);
      ResourceGrantsMembers(d, rs[j].selector);
    }
  }

  /** The resource is not skipped and has grants. */
  predicate Grants(d: WorldDiff, p: ProfileConfig, e: Entry) {
    !IsSkipped(p, TagOf(e.diff)) && ResourceGrants(d, e.selector) != []
  }

  /** Some resource that is not skipped has grants. */
  predicate SomeGrants(d: WorldDiff, p: ProfileConfig, rs: seq<Entry>) {
    exists i :: 0 <= i < |rs| && Grants(d, p, rs[i])
  }

  lemma PermissionCallsSnoc(d: WorldDiff, p: ProfileConfig, rs: seq<Entry>)
    requires rs != []
    ensures PermissionCalls(d, p, rs) != [] <==>
      PermissionCalls(d, p, rs[..|rs| - 1]) != [] || Grants(d, p, rs[|rs| - 1])
  {
    var last := rs[|rs| - 1];
    var tail := GrantsOf(d, p, last);
    assert |PermissionCalls(d, p, rs)| == |PermissionCalls(d, p, rs[..|rs| - 1])| + |tail|;
  }

  /** A non-empty list of grants names a resource it comes from. */
  lemma {:induction false} GrantsWitness(d: WorldDiff, p: ProfileConfig, rs: seq<Entry>) returns (i: nat)
    requires PermissionCalls(d, p, rs) != []
    ensures i < |rs| && Grants(d, p, rs[i])
    decreases |rs|
  {
    var prefix := rs[..|rs| - 1];
    PermissionCallsSnoc(d, p, rs);
    if PermissionCalls(d, p, prefix) != [] {
      i := GrantsWitness(d, p, prefix);
      assert rs[i] == prefix[i];
    } else {
      i := |rs| - 1;
    }
  }

  /** A resource with grants makes the list of grants non-empty. */
  lemma {:induction false} GrantsSufficient(d: WorldDiff, p: ProfileConfig, rs: seq<Entry>, i: nat)
    requires i < |rs| && Grants(d, p, rs[i])
    ensures PermissionCalls(d, p, rs) != []
    decreases |rs|
  {
    var prefix := rs[..|rs| - 1];
    PermissionCallsSnoc(d, p, rs);
    if i < |prefix| {
      assert rs[i] == prefix[i];
      GrantsSufficient(d, p, prefix, i);
    } else {
      assert i == |rs| - 1;
    }
  }

  lemma PermissionCallsNonEmptyIff(d: WorldDiff, p: ProfileConfig, rs: seq<Entry>)
    ensures PermissionCalls(d, p, rs) != [] <==> SomeGrants(d, p, rs)
  {
    if PermissionCalls(d, p, rs) != [] {
      var i := GrantsWitness(d, p, rs);
    }
    if SomeGrants(d, p, rs) {
      var i :| 0 <= i < |rs| && Grants(d, p, rs[i]);
      GrantsSufficient(d, p, rs, i);
    }
  }

  /** There is something to grant exactly when some resource that is not
      skipped has a local-only writer or owner. */
  lemma PermissionCallsNonEmpty(d: WorldDiff, p: ProfileConfig, rs: seq<Entry>)
    ensures PermissionCalls(d, p, rs) != [] <==> exists i :: 0 <= i < |rs| && HasGrants(d, p, rs[i])
  {
    PermissionCallsNonEmptyIff(d, p, rs);
    forall i | 0 <= i < |rs| ensures HasGrants(d, p, rs[i]) <==> Grants(d, p, rs[i]) {
      ResourceGrantsNonEmpty(d, rs[i].selector);
    }
  }

  /** Skipped resources can be deleted from the diff without changing the grants. */
  lemma {:induction false} PermissionsIgnoreSkipped(d: WorldDiff, p: ProfileConfig, rs: seq<Entry>)
    ensures PermissionCalls(d, p, rs) == PermissionCalls(d, p, Unskipped(rs, p))
    decreases |rs|
  {
    if rs != [] {
      var prefix, last := rs[..|rs| - 1], rs[|rs| - 1];
      PermissionsIgnoreSkipped(d, p, prefix);
      var u := Unskipped(prefix, p);
      if IsSkipped(p, TagOf(last.diff)) {
        assert Unskipped(rs, p) == u;
      } else {
        var v := u + [last];
        assert Unskipped(rs, p) == v;
        assert v[..|v| - 1] == u && v[|v| - 1] == last;
      }
    }
  }

  /** What `sync_permissions` submits and returns. */
  function SyncPermissionsSpec(m: Migration, env: Env): Step {
    var calls := PermissionCalls(m.diff, m.profile, m.diff.resources);
    var mode := ModeOf(DoMulticall(m.profile));
    Step([Execute(mode, calls)],
         match Flushed(env, mode, calls) case Some(err) => Err(err) case None => Ok(calls != []))
  }

  /** The step submits exactly one batch, made only of grants; it reports a
      change exactly when that batch is not empty, that is exactly when some
      resource that is not skipped has a local-only writer or owner. */
  lemma SyncPermissionsChanges(m: Migration, env: Env)
    ensures var s := SyncPermissionsSpec(m, env);
      |s.ops| == 1 && s.ops[0].Execute?
      && forall i :: 0 <= i < |s.ops[0].calls| ==> s.ops[0].calls[i].GrantWriter? || s.ops[0].calls[i].GrantOwner?
    ensures var s := SyncPermissionsSpec(m, env);
      s.result.Ok? ==> (s.result.value <==> AnyInvokes(s.ops))
    ensures var s := SyncPermissionsSpec(m, env);
      s.result.Ok? ==> (s.result.value <==> exists i :: 0 <= i < |m.diff.resources| && HasGrants(m.diff, m.profile, m.diff.resources[i]))
  {
    PermissionCallsAreGrants(m.diff, m.profile, m.diff.resources);
    PermissionCallsNonEmpty(m.diff, m.profile, m.diff.resources);
    var s := SyncPermissionsSpec(m, env);
    if s.ops[0].calls != [] {
      assert Invokes(s.ops[0]);
    }
  }

  method GrantWriters(selector: Felt, writers: seq<PermissionDelta>, invoker: Invoker)
    modifies invoker
    ensures invoker.calls == old(invoker.calls) + WriterGrants(selector, writers)
  {
    for j := 0 to |writers|
      invariant invoker.calls == old(invoker.calls) + WriterGrants(selector, writers[..j])
    {
      assert writers[..j + 1][..j] == writers[..j];
      invoker.AddCall(GrantWriter(selector, writers[j].address));
    }
    assert writers[..|writers|] == writers;
  }

  method GrantOwners(selector: Felt, owners: seq<PermissionDelta>, invoker: Invoker)
    modifies invoker
    ensures invoker.calls == old(invoker.calls) + OwnerGrants(selector, owners)
  {
    for j := 0 to |owners|
      invariant invoker.calls == old(invoker.calls) + OwnerGrants(selector, owners[..j])
    {
      assert owners[..j + 1][..j] == owners[..j];
      invoker.AddCall(GrantOwner(selector, owners[j].address));
    }
    assert owners[..|owners|] == owners;
  }

  /** The grants of one resource: its local-only writers, then its
      local-only owners. */
  method GrantResource(d: WorldDiff, selector: Felt, invoker: Invoker)
    modifies invoker
    ensures invoker.calls == old(invoker.calls) + ResourceGrants(d, selector)
  {
    ghost var ws := WriterGrants(selector, OnlyLocal(GetWriters(d, selector)));
    ghost var os := OwnerGrants(selector, OnlyLocal(GetOwners(d, selector)));
    GrantWriters(selector, OnlyLocal(GetWriters(d, selector)), invoker);
    GrantOwners(selector, OnlyLocal(GetOwners(d, selector)), invoker);
    assert invoker.calls == old(invoker.calls) + ws + os;
    assert old(invoker.calls) + ws + os == old(invoker.calls) + (ws + os);
  }

  /** One iteration of the grant loop: a skipped resource grants nothing. */
  method GrantEntry(d: WorldDiff, p: ProfileConfig, e: Entry, invoker: Invoker)
    modifies invoker
    ensures invoker.calls == old(invoker.calls) + GrantsOf(d, p, e)
  {
    if IsSkipped(p, TagOf(e.diff)) {
      return;
    }
    GrantResource(d, e.selector, invoker);
  }

  /** The grant loop of `sync_permissions`: the grants of every resource
      that is not skipped, writers first, in the order of the diff. */
  method GrantResources(d: WorldDiff, p: ProfileConfig, invoker: Invoker)
    modifies invoker
    ensures invoker.calls == old(invoker.calls) + PermissionCalls(d, p, d.resources)
  {
    var rs := d.resources;
    for i := 0 to |rs|
      invariant invoker.calls == old(invoker.calls) + PermissionCalls(d, p, rs[..i])
    {
      ghost var done := PermissionCalls(d, p, rs[..i]);
      ghost var more := GrantsOf(d, p, rs[i]);
      PermissionCallsStep(d, p, rs, i);
      GrantEntry(d, p, rs[i], invoker);
      AppendAssoc(old(invoker.calls), done, more);
    }
    assert rs[..|rs|] == rs;
  }

  method SyncPermissions(m: Migration, remote: Remote) returns (r: Result<bool, MigrationError>)
    modifies remote
    ensures remote.log == old(remote.log) + SyncPermissionsSpec(m, remote.env).ops
    ensures r == SyncPermissionsSpec(m, remote.env).result
  {
    var invoker := new Invoker();
    GrantResources(m.diff, m.profile, invoker);
    assert invoker.calls == PermissionCalls(m.diff, m.profile, m.diff.resources);
    var hasChanged := invoker.calls != [];
    var err := invoker.Flush(remote, ModeOf(DoMulticall(m.profile)));
    if err.Some? {
      return Err(err.value);
    }
    return Ok(hasChanged);
  }
}
