/** `initialize_contracts`: every contract that is not skipped and not yet
    initialized gets an init call with its decoded arguments. Contracts listed
    in `order_inits` are initialized after the others, in the listed order. */
module Init {
  import opened Base
  import opened Diff
  import opened Config
  import opened Chain

  /** `do_init`: a Created contract, or a contract the chain reports uninitialized. */
  predicate NeedsInit(d: ResourceDiff) {
    match d
    case Created(LocalContract(_)) => true
    case Updated(_, RemoteContract(initialized)) => !initialized
    case Synced(_, RemoteContract(initialized)) => !initialized
    case _ => false
  }

  /** A contract resource that is not skipped and needs initialization. */
  predicate IsCandidate(e: Entry, p: ProfileConfig) {
    TypeOf(e.diff) == ContractType && !IsSkipped(p, TagOf(e.diff)) && NeedsInit(e.diff)
  }

  /** The init arguments of a tag: none configured means no arguments; raw
      arguments that do not decode are an error. */
  function InitArgs(p: ProfileConfig, tag: Tag, env: Env): (r: Result<seq<Felt>, MigrationError>)
    ensures r.Err? <==> InitArgsOf(p, tag).Some? && env.decode(InitArgsOf(p, tag).value).None?
    ensures r.Err? ==> r.error == InitCallArgs
    ensures InitArgsOf(p, tag).None? ==> r == Ok([])
  {
    match InitArgsOf(p, tag)
    case None => Ok([])
    case Some(raw) =>
      match env.decode(raw)
      case None => Err(InitCallArgs)
      case Some(args) => Ok(args)
  }

  /** `c` is the init call of the resource: it is a candidate and `c` carries
      its selector and decoded arguments. */
  predicate InitCallOf(e: Entry, p: ProfileConfig, env: Env, c: Call) {
    IsCandidate(e, p) && InitArgs(p, TagOf(e.diff), env).Ok?
    && c == InitContract(e.selector, InitArgs(p, TagOf(e.diff), env).value)
  }

  /** The scan state: calls added straight to the invoker, and the ordered
      calls by their index in `order_inits`. */
  datatype InitScan = InitScan(unordered: seq<Call>, ordered: map<nat, Call>)

  /** One loop iteration; an ordered call replaces any earlier one with the same index. */
  function ScanOne(acc: InitScan, e: Entry, p: ProfileConfig, env: Env): Result<InitScan, MigrationError> {
    if !IsCandidate(e, p) then Ok(acc)
    else match InitArgs(p, TagOf(e.diff), env)
      case Err(err) => Err(err)
      case Ok(args) =>
        var call := InitContract(e.selector, args);
        match Position(OrderInits(p), TagOf(e.diff))
        case None => Ok(InitScan(acc.unordered + [call], acc.ordered))
        case Some(k) => Ok(InitScan(acc.unordered, acc.ordered[k := call]))
  }

  function ScanInits(rs: seq<Entry>, p: ProfileConfig, env: Env): Result<InitScan, MigrationError>
    decreases |rs|
  {
    if rs == [] then Ok(InitScan([], map[]))
    else match ScanInits(rs[..|rs| - 1], p, env)
      case Err(err) => Err(err)
      case Ok(acc) => ScanOne(acc, rs[|rs| - 1], p, env)
  }

  lemma {:induction false} ScanErrPersists(rs: seq<Entry>, p: ProfileConfig, env: Env, j: nat)
    requires j <= |rs| && ScanInits(rs[..j], p, env).Err?
    ensures ScanInits(rs, p, env) == ScanInits(rs[..j], p, env)
    decreases |rs|
  {
    if j < |rs| {
      var prefix := rs[..|rs| - 1];
      assert prefix[..j] == rs[..j];
      ScanErrPersists(prefix, p, env, j);
    } else {
      assert rs[..j] == rs;
    }
  }

  /** The calls of `ordered` by ascending index below `bound`: the sorted keys
      mapped to their calls. */
  function ByPosition(ordered: map<nat, Call>, bound: nat): seq<Call>
    decreases bound
  {
    if bound == 0 then []
    else ByPosition(ordered, bound - 1) + (if bound - 1 in ordered then [ordered[bound - 1]] else [])
  }

  /** `ByPosition` holds exactly the calls of the keys below the bound. */
  lemma {:induction false} ByPositionMembers(ordered: map<nat, Call>, bound: nat)
    ensures forall c :: c in ByPosition(ordered, bound) <==> exists k :: k in ordered && k < bound && ordered[k] == c
    decreases bound
  {
    if bound > 0 {
      ByPositionMembers(ordered, bound - 1);
    }
  }

  /** The call of a key below the bound, and where `ByPosition` puts it. */
  lemma {:induction false} ByPositionHas(ordered: map<nat, Call>, bound: nat, k: nat) returns (x: nat)
    requires k in ordered && k < bound
    ensures x < |ByPosition(ordered, bound)| && ByPosition(ordered, bound)[x] == ordered[k]
    decreases bound
  {
    var prev := ByPosition(ordered, bound - 1);
    if k == bound - 1 {
      x := |prev|;
    } else {
      x := ByPositionHas(ordered, bound - 1, k);
      assert ByPosition(ordered, bound)[x] == prev[x];
    }
  }

  /** A smaller key's call comes before a larger key's. */
  lemma {:induction false} ByPositionOrder(ordered: map<nat, Call>, bound: nat, k1: nat, k2: nat) returns (x1: nat, x2: nat)
    requires k1 in ordered && k2 in ordered && k1 < k2 < bound
    ensures x1 < x2 < |ByPosition(ordered, bound)|
    ensures ByPosition(ordered, bound)[x1] == ordered[k1] && ByPosition(ordered, bound)[x2] == ordered[k2]
    decreases bound
  {
    var prev := ByPosition(ordered, bound - 1);
    if k2 == bound - 1 {
      x1 := ByPositionHas(ordered, bound - 1, k1);
      x2 := |prev|;
    } else {
      x1, x2 := ByPositionOrder(ordered, bound - 1, k1, k2);
    }
    assert ByPosition(ordered, bound)[x1] == ordered[k1];
  }

  lemma {:induction false} ByPositionOfNothing(bound: nat)
    ensures ByPosition(map[], bound) == []
  {
    if bound > 0 {
      ByPositionOfNothing(bound - 1);
    }
  }

  /** The final call list: the unordered calls, then the ordered ones by index. */
  function InitCalls(s: InitScan, p: ProfileConfig): seq<Call> {
    s.unordered + ByPosition(s.ordered, |OrderInits(p)|)
  }

  /** The step fails exactly when some candidate's configured arguments do not
      decode, and the error is then `InitCallArgs`. */
  lemma {:induction false} InitFailsIff(rs: seq<Entry>, p: ProfileConfig, env: Env)
    ensures ScanInits(rs, p, env).Err? <==>
      exists i :: 0 <= i < |rs| && IsCandidate(rs[i], p) && InitArgs(p, TagOf(rs[i].diff), env).Err?
    ensures ScanInits(rs, p, env).Err? ==> ScanInits(rs, p, env).error == InitCallArgs
    decreases |rs|
  {
    if rs != [] {
      var prefix, last := rs[..|rs| - 1], rs[|rs| - 1];
      InitFailsIff(prefix, p, env);
      assert forall i :: 0 <= i < |prefix| ==> prefix[i] == rs[i];
      if IsCandidate(last, p) && InitArgs(p, TagOf(last.diff), env).Err? {
        assert rs[|rs| - 1] == last;
      }
    }
  }

  /** The candidate an unordered call comes from. */
  lemma {:induction false} UnorderedSource(rs: seq<Entry>, p: ProfileConfig, env: Env, c: Call) returns (i: nat)
    requires ScanInits(rs, p, env).Ok? && c in ScanInits(rs, p, env).value.unordered
    ensures i < |rs| && InitCallOf(rs[i], p, env, c) && Position(OrderInits(p), TagOf(rs[i].diff)).None?
    decreases |rs|
  {
    var prefix, last := rs[..|rs| - 1], rs[|rs| - 1];
    assert ScanInits(prefix, p, env).Ok?;
    if c in ScanInits(prefix, p, env).value.unordered {
      i := UnorderedSource(prefix, p, env, c);
      assert rs[i] == prefix[i];
    } else {
      i := |rs| - 1;
    }
  }

  /** The candidate an ordered call comes from. */
  lemma {:induction false} OrderedSource(rs: seq<Entry>, p: ProfileConfig, env: Env, k: nat) returns (i: nat)
    requires ScanInits(rs, p, env).Ok? && k in ScanInits(rs, p, env).value.ordered
    ensures k < |OrderInits(p)| && i < |rs|
    ensures InitCallOf(rs[i], p, env, ScanInits(rs, p, env).value.ordered[k])
    ensures Position(OrderInits(p), TagOf(rs[i].diff)) == Some(k)
    decreases |rs|
  {
    var prefix, last := rs[..|rs| - 1], rs[|rs| - 1];
    assert ScanInits(prefix, p, env).Ok?;
    var acc := ScanInits(prefix, p, env).value;
    if IsCandidate(last, p) && Position(OrderInits(p), TagOf(last.diff)) == Some(k) {
      i := |rs| - 1;
    } else {
      assert k in acc.ordered && ScanInits(rs, p, env).value.ordered[k] == acc.ordered[k];
      i := OrderedSource(prefix, p, env, k);
      assert rs[i] == prefix[i];
    }
  }

  /** Scan soundness: every unordered call is the init call of a candidate not
      in `order_inits`, and every ordered call is the init call of a candidate
      found at that index of `order_inits`. */
  lemma ScanSound(rs: seq<Entry>, p: ProfileConfig, env: Env)
    ensures var r := ScanInits(rs, p, env);
      r.Ok? ==> forall c :: c in r.value.unordered ==>
        exists i :: 0 <= i < |rs| && InitCallOf(rs[i], p, env, c) && Position(OrderInits(p), TagOf(rs[i].diff)).None?
    ensures var r := ScanInits(rs, p, env);
      r.Ok? ==> forall k :: k in r.value.ordered ==>
        k < |OrderInits(p)| &&
        exists i :: 0 <= i < |rs| && InitCallOf(rs[i], p, env, r.value.ordered[k])
          && Position(OrderInits(p), TagOf(rs[i].diff)) == Some(k)
  {
    var r := ScanInits(rs, p, env);
    if r.Ok? {
      forall c | c in r.value.unordered
        ensures exists i :: 0 <= i < |rs| && InitCallOf(rs[i], p, env, c) && Position(OrderInits(p), TagOf(rs[i].diff)).None?
      {
        var i := UnorderedSource(rs, p, env, c);
      }
      forall k | k in r.value.ordered
        ensures k < |OrderInits(p)|
        ensures exists i :: (0 <= i < |rs| && InitCallOf(rs[i], p, env, r.value.ordered[k])
                             && Position(OrderInits(p), TagOf(rs[i].diff)) == Some(k))
      {
        var i := OrderedSource(rs, p, env, k);
      }
    }
  }

  /** No two resources share a tag (selectors are derived from tags). */
  ghost predicate DistinctTags(rs: seq<Entry>) {
    forall i, j :: 0 <= i < j < |rs| ==> TagOf(rs[i].diff) != TagOf(rs[j].diff)
  }

  /** Scan completeness: every candidate yields a call, unordered when its tag
      is not in `order_inits` and under its index otherwise; with distinct tags
      no later candidate takes that index, so the call kept there is its own. */
  lemma {:induction false} ScanComplete(rs: seq<Entry>, p: ProfileConfig, env: Env)
    ensures var r := ScanInits(rs, p, env);
      r.Ok? ==> forall i :: 0 <= i < |rs| && IsCandidate(rs[i], p) ==>
        InitArgs(p, TagOf(rs[i].diff), env).Ok?
        && match Position(OrderInits(p), TagOf(rs[i].diff))
           case None => InitContract(rs[i].selector, InitArgs(p, TagOf(rs[i].diff), env).value) in r.value.unordered
           case Some(k) => k in r.value.ordered
    ensures var r := ScanInits(rs, p, env);
      r.Ok? && DistinctTags(rs) ==> forall i :: 0 <= i < |rs| && IsCandidate(rs[i], p) ==>
        match Position(OrderInits(p), TagOf(rs[i].diff))
        case None => true
        case Some(k) => InitCallOf(rs[i], p, env, r.value.ordered[k])
    decreases |rs|
  {
    if rs != [] {
      var prefix, last := rs[..|rs| - 1], rs[|rs| - 1];
      ScanComplete(prefix, p, env);
      InitFailsIff(rs, p, env);
      assert forall i :: 0 <= i < |prefix| ==> prefix[i] == rs[i];
      assert rs[|rs| - 1] == last;
      var r := ScanInits(rs, p, env);
      if r.Ok? && DistinctTags(rs) {
        assert DistinctTags(prefix);
        var lastPos := Position(OrderInits(p), TagOf(last.diff));
        forall i | 0 <= i < |prefix| && IsCandidate(rs[i], p) && Position(OrderInits(p), TagOf(rs[i].diff)).Some?
          ensures InitCallOf(rs[i], p, env, r.value.ordered[Position(OrderInits(p), TagOf(rs[i].diff)).value])
        {
          if IsCandidate(last, p) && lastPos.Some? {
            assert TagOf(rs[i].diff) != TagOf(rs[|rs| - 1].diff);
            assert OrderInits(p)[lastPos.value] == TagOf(last.diff);
          }
        }
      }
    }
  }

  /** What `initialize_contracts` submits and returns: no transaction at all
      when there is nothing to initialize. */
  function InitializeContractsSpec(m: Migration, env: Env): Step {
    match ScanInits(m.diff.resources, m.profile, env)
    case Err(err) => Step([], Err(err))
    case Ok(scan) =>
      var calls := InitCalls(scan, m.profile);
      var mode := ModeOf(DoMulticall(m.profile));
      if calls == [] then Step([], Ok(false))
      else Step([Execute(mode, calls)], match Flushed(env, mode, calls) case Some(err) => Err(err) case None => Ok(true))
  }

  /** Where the parts of the scan land in the final call list. */
  lemma InitCallsIndex(s: InitScan, p: ProfileConfig)
    ensures var calls, u := InitCalls(s, p), s.unordered;
      forall x :: 0 <= x < |u| ==> calls[x] == u[x]
    ensures var calls, u, b := InitCalls(s, p), s.unordered, ByPosition(s.ordered, |OrderInits(p)|);
      forall x :: 0 <= x < |b| ==> calls[|u| + x] == b[x]
  {
  }

  /** A candidate not in `order_inits` has its init call among the unordered ones. */
  lemma UnorderedCandidate(rs: seq<Entry>, p: ProfileConfig, env: Env, i: nat) returns (x: nat)
    requires ScanInits(rs, p, env).Ok? && i < |rs| && IsCandidate(rs[i], p)
    requires Position(OrderInits(p), TagOf(rs[i].diff)).None?
    ensures x < |ScanInits(rs, p, env).value.unordered|
      && InitCallOf(rs[i], p, env, ScanInits(rs, p, env).value.unordered[x])
  {
    ScanComplete(rs, p, env);
    var u := ScanInits(rs, p, env).value.unordered;
    var ci := InitContract(rs[i].selector, InitArgs(p, TagOf(rs[i].diff), env).value);
    assert ci in u;
    x :| 0 <= x < |u| && u[x] == ci;
  }

  /** A candidate whose tag is not in `order_inits`. */
  predicate UnorderedInit(e: Entry, p: ProfileConfig) {
    IsCandidate(e, p) && Position(OrderInits(p), TagOf(e.diff)).None?
  }

  /** How many resources are candidates outside `order_inits`. */
  function UnorderedCandidates(rs: seq<Entry>, p: ProfileConfig): nat
    decreases |rs|
  {
    if rs == [] then 0
    else UnorderedCandidates(rs[..|rs| - 1], p) + (if UnorderedInit(rs[|rs| - 1], p) then 1 else 0)
  }

  /** How many candidates outside `order_inits` have `c` as their init call. */
  function UnorderedCount(rs: seq<Entry>, p: ProfileConfig, env: Env, c: Call): nat
    decreases |rs|
  {
    if rs == [] then 0
    else
      var last := rs[|rs| - 1];
      UnorderedCount(rs[..|rs| - 1], p, env, c) + (if UnorderedInit(last, p) && InitCallOf(last, p, env, c) then 1 else 0)
  }

  /** One unordered call per candidate outside `order_inits`: there are as many
      unordered calls as such candidates, and each call occurs as often as
      such candidates have it as their init call. */
  lemma {:induction false} ScanUnorderedCount(rs: seq<Entry>, p: ProfileConfig, env: Env)
    ensures var r := ScanInits(rs, p, env);
      r.Ok? ==> |r.value.unordered| == UnorderedCandidates(rs, p)
    ensures var r := ScanInits(rs, p, env);
      r.Ok? ==> forall c :: multiset(r.value.unordered)[c] == UnorderedCount(rs, p, env, c)
    decreases |rs|
  {
    if rs != [] {
      var prefix, last := rs[..|rs| - 1], rs[|rs| - 1];
      ScanUnorderedCount(prefix, p, env);
      var r := ScanInits(rs, p, env);
      if r.Ok? {
        var acc := ScanInits(prefix, p, env).value;
        if UnorderedInit(last, p) {
          var call := InitContract(last.selector, InitArgs(p, TagOf(last.diff), env).value);
          assert r.value.unordered == acc.unordered + [call];
          forall c ensures multiset(r.value.unordered)[c] == UnorderedCount(rs, p, env, c) {
            assert InitCallOf(last, p, env, c) <==> c == call;
          }
        } else {
          assert r.value.unordered == acc.unordered;
        }
      }
    }
  }

  /** With distinct tags, a candidate listed in `order_inits` has its init
      call in the sorted part, at the place of its index. */
  lemma OrderedCandidate(rs: seq<Entry>, p: ProfileConfig, env: Env, i: nat) returns (k: nat)
    requires DistinctTags(rs) && ScanInits(rs, p, env).Ok? && i < |rs| && IsCandidate(rs[i], p)
    requires Position(OrderInits(p), TagOf(rs[i].diff)).Some?
    ensures k == Position(OrderInits(p), TagOf(rs[i].diff)).value
    ensures k < |OrderInits(p)| && k in ScanInits(rs, p, env).value.ordered
    ensures InitCallOf(rs[i], p, env, ScanInits(rs, p, env).value.ordered[k])
  {
    ScanComplete(rs, p, env);
    k := Position(OrderInits(p), TagOf(rs[i].diff)).value;
  }

  /** The init calls of resources `i` and `j` are sent in that order. */
  ghost predicate SentInOrder(rs: seq<Entry>, p: ProfileConfig, env: Env, calls: seq<Call>, i: nat, j: nat)
    requires i < |rs| && j < |rs|
  {
    exists i1, i2 :: 0 <= i1 < i2 < |calls| && InitCallOf(rs[i], p, env, calls[i1]) && InitCallOf(rs[j], p, env, calls[i2])
  }

  lemma InitOrderUnordered(rs: seq<Entry>, p: ProfileConfig, env: Env, i: nat, j: nat)
    requires ScanInits(rs, p, env).Ok? && i < j < |rs|
    requires IsCandidate(rs[i], p) && IsCandidate(rs[j], p)
    requires Position(OrderInits(p), TagOf(rs[i].diff)).None? && Position(OrderInits(p), TagOf(rs[j].diff)).None?
    ensures SentInOrder(rs, p, env, InitCalls(ScanInits(rs, p, env).value, p), i, j)
  {
    var scan := ScanInits(rs, p, env).value;
    var calls, u := InitCalls(scan, p), scan.unordered;
    InitCallsIndex(scan, p);
    ScanOrderUnordered(rs, p, env, i, j);
    var i1, i2 :| 0 <= i1 < i2 < |u| && InitCallOf(rs[i], p, env, u[i1]) && InitCallOf(rs[j], p, env, u[i2]);
    assert calls[i1] == u[i1] && calls[i2] == u[i2];
  }

  lemma InitOrderMixed(rs: seq<Entry>, p: ProfileConfig, env: Env, i: nat, j: nat)
    requires DistinctTags(rs) && ScanInits(rs, p, env).Ok? && i < |rs| && j < |rs|
    requires IsCandidate(rs[i], p) && IsCandidate(rs[j], p)
    requires Position(OrderInits(p), TagOf(rs[i].diff)).None? && Position(OrderInits(p), TagOf(rs[j].diff)).Some?
    ensures SentInOrder(rs, p, env, InitCalls(ScanInits(rs, p, env).value, p), i, j)
  {
    var scan := ScanInits(rs, p, env).value;
    var calls, u := InitCalls(scan, p), scan.unordered;
    InitCallsIndex(scan, p);
    var i1 := UnorderedCandidate(rs, p, env, i);
    var kj := OrderedCandidate(rs, p, env, j);
    var x := ByPositionHas(scan.ordered, |OrderInits(p)|, kj);
    assert calls[i1] == u[i1] && calls[|u| + x] == scan.ordered[kj];
  }

  lemma InitOrderOrdered(rs: seq<Entry>, p: ProfileConfig, env: Env, i: nat, j: nat)
    requires DistinctTags(rs) && ScanInits(rs, p, env).Ok? && i < |rs| && j < |rs|
    requires IsCandidate(rs[i], p) && IsCandidate(rs[j], p)
    requires Position(OrderInits(p), TagOf(rs[i].diff)).Some? && Position(OrderInits(p), TagOf(rs[j].diff)).Some?
    requires Position(OrderInits(p), TagOf(rs[i].diff)).value < Position(OrderInits(p), TagOf(rs[j].diff)).value
    ensures SentInOrder(rs, p, env, InitCalls(ScanInits(rs, p, env).value, p), i, j)
  {
    var scan := ScanInits(rs, p, env).value;
    var calls, u := InitCalls(scan, p), scan.unordered;
    InitCallsIndex(scan, p);
    var ki := OrderedCandidate(rs, p, env, i);
    var kj := OrderedCandidate(rs, p, env, j);
    var x1, x2 := ByPositionOrder(scan.ordered, |OrderInits(p)|, ki, kj);
    assert calls[|u| + x1] == scan.ordered[ki] && calls[|u| + x2] == scan.ordered[kj];
  }

  /** The init order: with distinct tags, the calls of candidates not in
      `order_inits` keep the resource order and come before those of listed
      candidates, and listed candidates follow `order_inits`. */
  lemma InitOrder(m: Migration, env: Env, i: nat, j: nat)
    requires DistinctTags(m.diff.resources) && ScanInits(m.diff.resources, m.profile, env).Ok?
    requires i < |m.diff.resources| && j < |m.diff.resources| && i != j
    requires IsCandidate(m.diff.resources[i], m.profile) && IsCandidate(m.diff.resources[j], m.profile)
    ensures var rs, p := m.diff.resources, m.profile;
      var calls := InitCalls(ScanInits(rs, p, env).value, p);
      var pi, pj := Position(OrderInits(p), TagOf(rs[i].diff)), Position(OrderInits(p), TagOf(rs[j].diff));
      (pi.None? && (pj.Some? || i < j)) || (pi.Some? && pj.Some? && pi.value < pj.value) ==>
        exists i1, i2 :: 0 <= i1 < i2 < |calls| && InitCallOf(rs[i], p, env, calls[i1]) && InitCallOf(rs[j], p, env, calls[i2])
  {
    var rs, p := m.diff.resources, m.profile;
    var pi, pj := Position(OrderInits(p), TagOf(rs[i].diff)), Position(OrderInits(p), TagOf(rs[j].diff));
    if pi.None? && pj.None? && i < j {
      InitOrderUnordered(rs, p, env, i, j);
    } else if pi.None? && pj.Some? {
      InitOrderMixed(rs, p, env, i, j);
    } else if pi.Some? && pj.Some? && pi.value < pj.value {
      InitOrderOrdered(rs, p, env, i, j);
    }
  }

  /** Two unordered candidates keep the resource order in the scan. */
  lemma {:induction false} ScanOrderUnordered(rs: seq<Entry>, p: ProfileConfig, env: Env, i: nat, j: nat)
    requires ScanInits(rs, p, env).Ok? && i < j < |rs|
    requires IsCandidate(rs[i], p) && IsCandidate(rs[j], p)
    requires Position(OrderInits(p), TagOf(rs[i].diff)).None? && Position(OrderInits(p), TagOf(rs[j].diff)).None?
    ensures var u := ScanInits(rs, p, env).value.unordered;
      exists i1, i2 :: 0 <= i1 < i2 < |u| && InitCallOf(rs[i], p, env, u[i1]) && InitCallOf(rs[j], p, env, u[i2])
    decreases |rs|
  {
    var prefix, last := rs[..|rs| - 1], rs[|rs| - 1];
    assert forall x :: 0 <= x < |prefix| ==> prefix[x] == rs[x];
    var acc := ScanInits(prefix, p, env).value;
    var u := ScanInits(rs, p, env).value.unordered;
    if j == |rs| - 1 {
      ScanComplete(prefix, p, env);
      var ci := InitContract(rs[i].selector, InitArgs(p, TagOf(rs[i].diff), env).value);
      var i1 :| 0 <= i1 < |acc.unordered| && acc.unordered[i1] == ci;
      assert u == acc.unordered + [InitContract(last.selector, InitArgs(p, TagOf(last.diff), env).value)];
      assert u[i1] == ci;
      assert InitCallOf(rs[j], p, env, u[|acc.unordered|]);
    } else {
      ScanOrderUnordered(prefix, p, env, i, j);
      var i1, i2 :| 0 <= i1 < i2 < |acc.unordered|
        && InitCallOf(prefix[i], p, env, acc.unordered[i1]) && InitCallOf(prefix[j], p, env, acc.unordered[i2]);
      assert u[..|acc.unordered|] == acc.unordered;
      assert u[i1] == acc.unordered[i1] && u[i2] == acc.unordered[i2];
    }
  }

  /** Every init call is the init call of some resource. */
  lemma InitCallsSound(rs: seq<Entry>, p: ProfileConfig, env: Env)
    requires ScanInits(rs, p, env).Ok?
    ensures forall c :: c in InitCalls(ScanInits(rs, p, env).value, p) ==>
      exists i :: 0 <= i < |rs| && InitCallOf(rs[i], p, env, c)
  {
    var scan := ScanInits(rs, p, env).value;
    var bound := |OrderInits(p)|;
    ScanSound(rs, p, env);
    ByPositionMembers(scan.ordered, bound);
    forall c | c in InitCalls(scan, p) ensures exists i :: 0 <= i < |rs| && InitCallOf(rs[i], p, env, c) {
      if c !in scan.unordered {
        var k :| k in scan.ordered && k < bound && scan.ordered[k] == c;
      }
    }
  }

  /** There are init calls exactly when some resource is a candidate. */
  lemma InitCallsNonEmpty(rs: seq<Entry>, p: ProfileConfig, env: Env)
    requires ScanInits(rs, p, env).Ok?
    ensures InitCalls(ScanInits(rs, p, env).value, p) != [] <==>
      exists i :: 0 <= i < |rs| && IsCandidate(rs[i], p)
  {
    var scan := ScanInits(rs, p, env).value;
    var bound := |OrderInits(p)|;
    var calls := InitCalls(scan, p);
    InitCallsSound(rs, p, env);
    ScanComplete(rs, p, env);
    ByPositionMembers(scan.ordered, bound);
    if exists i :: 0 <= i < |rs| && IsCandidate(rs[i], p) {
      var i :| 0 <= i < |rs| && IsCandidate(rs[i], p);
      match Position(OrderInits(p), TagOf(rs[i].diff)) {
        case None =>
          assert calls != [];
        case Some(k) =>
          assert scan.ordered[k] in ByPosition(scan.ordered, bound);
          assert calls != [];
      }
    }
    if calls != [] {
      assert calls[0] in calls;
    }
  }

  /** Every call sent is the init call of some candidate, and the step reports
      a change exactly when it sends an invoke, which is exactly when there is
      a candidate to initialize. */
  lemma InitializeChanges(m: Migration, env: Env)
    ensures var s := InitializeContractsSpec(m, env);
      s.result.Ok? ==> (s.result.value <==> AnyInvokes(s.ops))
    ensures var s := InitializeContractsSpec(m, env);
      s.result.Ok? ==> (s.result.value <==> exists i :: 0 <= i < |m.diff.resources| && IsCandidate(m.diff.resources[i], m.profile))
    ensures var s := InitializeContractsSpec(m, env);
      forall o :: o in s.ops ==> o.Execute? && forall c :: c in o.calls ==>
        exists i :: 0 <= i < |m.diff.resources| && InitCallOf(m.diff.resources[i], m.profile, env, c)
  {
    var rs, p := m.diff.resources, m.profile;
    var s := InitializeContractsSpec(m, env);
    if ScanInits(rs, p, env).Ok? {
      var calls := InitCalls(ScanInits(rs, p, env).value, p);
      InitCallsSound(rs, p, env);
      InitCallsNonEmpty(rs, p, env);
      if calls != [] {
        assert calls[0] in calls;
        assert s.ops == [Execute(ModeOf(DoMulticall(p)), calls)];
        assert Invokes(s.ops[0]);
      }
    }
  }


  method InitializeContracts(m: Migration, remote: Remote) returns (r: Result<bool, MigrationError>)
    modifies remote
    ensures remote.log == old(remote.log) + InitializeContractsSpec(m, remote.env).ops
    ensures r == InitializeContractsSpec(m, remote.env).result
  {
    var scan := ScanResources(m.diff.resources, m.profile, remote.env);
    if scan.Err? {
      return Err(scan.error);
    }
    var invoker := new Invoker();
    invoker.ExtendCalls(scan.value.unordered);
    if scan.value.ordered != map[] {
      // `extends_ordered` with the calls of the sorted order indices.
      invoker.ExtendCalls(ByPosition(scan.value.ordered, |OrderInits(m.profile)|));
    } else {
      ByPositionOfNothing(|OrderInits(m.profile)|);
    }
    assert invoker.calls == InitCalls(scan.value, m.profile);
    var hasChanged := invoker.calls != [];
    if invoker.calls != [] {
      var err := invoker.Flush(remote, ModeOf(DoMulticall(m.profile)));
      if err.Some? {
        return Err(err.value);
      }
    }
    return Ok(hasChanged);
  }

  /** The loop over the resources of `initialize_contracts`. */
  method ScanResources(rs: seq<Entry>, p: ProfileConfig, env: Env) returns (r: Result<InitScan, MigrationError>)
    ensures r == ScanInits(rs, p, env)
  {
    var unordered: seq<Call> := [];
    var ordered: map<nat, Call> := map[];
    var orderedTags := OrderInits(p);
    for i := 0 to |rs|
      invariant ScanInits(rs[..i], p, env) == Ok(InitScan(unordered, ordered))
    {
      var e := rs[i];
      assert rs[..i + 1][..i] == rs[..i] && rs[..i + 1][i] == e;
      if TypeOf(e.diff) != ContractType {
        continue;
      }
      var tag := TagOf(e.diff);
      if IsSkipped(p, tag) {
        continue;
      }
      if !NeedsInit(e.diff) {
        continue;
      }
      var raw := InitArgsOf(p, tag);
      var args: seq<Felt> := [];
      if raw.Some? {
        var decoded := env.decode(raw.value);
        if decoded.None? {
          ScanErrPersists(rs, p, env, i + 1);
          return Err(InitCallArgs);
        }
        args := decoded.value;
      }
      var call := InitContract(e.selector, args);
      var orderIndex := Position(orderedTags, tag);
      if orderIndex.Some? {
        ordered := ordered[orderIndex.value := call];
      } else {
        unordered := unordered + [call];
      }
    }
    assert rs[..|rs|] == rs;
    return Ok(InitScan(unordered, ordered));
  }
}
