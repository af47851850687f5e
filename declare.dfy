/** `declare_classes`: publishing the collected classes, either all through
    the migrator account or sharded round-robin over the predeployed
    accounts, with "Class already declared" tolerated on the sharded path. */
module Declare {
  import opened Base
  import opened Diff
  import opened Chain

  /** The message fragment that marks a declaration as already done. */
  const AlreadyDeclared: string := "Class already declared"

  /** The classes of a map in the order its keys are yielded (`into_values`);
      a yielded key that is not in the map contributes nothing. */
  function Enumerate(classes: map<Felt, LabeledClass>, keys: seq<Felt>): (cs: seq<LabeledClass>)
    ensures |cs| <= |keys|
    decreases |keys|
  {
    if keys == [] then []
    else
      var k := keys[|keys| - 1];
      Enumerate(classes, keys[..|keys| - 1]) + (if k in classes then [classes[k]] else [])
  }

  /** The enumeration of a class map the environment's iteration order gives. */
  function ClassOrder(classes: map<Felt, LabeledClass>, env: Env): seq<LabeledClass> {
    Enumerate(classes, env.iterationOrder(classes))
  }

  /** What a `HashMap` iteration guarantees: every key of the map once, and no other key. */
  predicate ListsKeys(classes: map<Felt, LabeledClass>, keys: seq<Felt>) {
    (forall i, j :: 0 <= i < j < |keys| ==> keys[i] != keys[j])
    && (forall k :: k in keys ==> k in classes)
    && (forall k :: k in classes ==> k in keys)
  }

  /** The environment iterates every class map as a `HashMap` does. */
  ghost predicate IteratesMaps(env: Env) {
    forall classes: map<Felt, LabeledClass> :: ListsKeys(classes, env.iterationOrder(classes))
  }

  /** A class map keyed by each class's own CASM class hash, as every class map
      of the migration is. */
  predicate KeyedByCasm(classes: map<Felt, LabeledClass>) {
    forall k :: k in classes ==> classes[k].casmClassHash == k
  }

  /** Only classes of the map are enumerated, each through a yielded key. */
  lemma {:induction false} EnumerateMembers(classes: map<Felt, LabeledClass>, keys: seq<Felt>)
    ensures forall c :: c in Enumerate(classes, keys) <==> exists k :: k in keys && k in classes && classes[k] == c
    decreases |keys|
  {
    if keys != [] {
      var prefix, last := keys[..|keys| - 1], keys[|keys| - 1];
      EnumerateMembers(classes, prefix);
      forall c ensures c in Enumerate(classes, keys) <==> exists k :: k in keys && k in classes && classes[k] == c {
        if exists k :: k in keys && k in classes && classes[k] == c {
          var k :| k in keys && k in classes && classes[k] == c;
          if k != last {
            var i :| 0 <= i < |keys| && keys[i] == k;
            assert prefix[i] == k;
          }
        }
        if exists k :: k in prefix && k in classes && classes[k] == c {
          var k :| k in prefix && k in classes && classes[k] == c;
          assert k in keys;
        }
      }
    }
  }

  /** With distinct keys and a map keyed by CASM class hash, a class of the map
      is enumerated once if its key is yielded and not at all otherwise. */
  lemma {:induction false} EnumerateCount(classes: map<Felt, LabeledClass>, keys: seq<Felt>, k: Felt)
    requires KeyedByCasm(classes) && k in classes
    requires forall i, j :: 0 <= i < j < |keys| ==> keys[i] != keys[j]
    ensures multiset(Enumerate(classes, keys))[classes[k]] == if k in keys then 1 else 0
    decreases |keys|
  {
    if keys != [] {
      var prefix, last := keys[..|keys| - 1], keys[|keys| - 1];
      EnumerateCount(classes, prefix, k);
      assert k in keys <==> k in prefix || k == last;
      if last == k {
        assert k !in prefix by {
          forall i | 0 <= i < |prefix| ensures prefix[i] != k {
            assert prefix[i] == keys[i];
          }
        }
      } else if last in classes {
        assert classes[last] != classes[k] by {
          assert classes[last].casmClassHash == last;
        }
      }
    }
  }

  /** Under a `HashMap` iteration of a map keyed by CASM class hash, each class
      of the map is enumerated exactly once and nothing else is enumerated. */
  lemma EnumerateEachOnce(classes: map<Felt, LabeledClass>, keys: seq<Felt>)
    requires ListsKeys(classes, keys) && KeyedByCasm(classes)
    ensures forall k :: k in classes ==> multiset(Enumerate(classes, keys))[classes[k]] == 1
    ensures forall c :: c in Enumerate(classes, keys) ==> exists k :: k in classes && classes[k] == c
  {
    EnumerateMembers(classes, keys);
    forall k | k in classes ensures multiset(Enumerate(classes, keys))[classes[k]] == 1 {
      EnumerateCount(classes, keys, k);
    }
  }

  /** The classes declarer `j` of `n` receives: those whose enumeration index
      `k` has `k % n == j`, in enumeration order. */
  function ShardOf(cs: seq<LabeledClass>, n: nat, j: nat): seq<LabeledClass>
    requires n > 0
    decreases |cs|
  {
    if cs == [] then []
    else ShardOf(cs[..|cs| - 1], n, j) + (if (|cs| - 1) % n == j then [cs[|cs| - 1]] else [])
  }

  /** All classes held by declarers `0 .. m-1`, counted with multiplicity. */
  function ShardsUnion(cs: seq<LabeledClass>, n: nat, m: nat): multiset<LabeledClass>
    requires n > 0
  {
    if m == 0 then multiset{} else ShardsUnion(cs, n, m - 1) + multiset(ShardOf(cs, n, m - 1))
  }

  lemma {:induction false} ShardsUnionAppend(cs: seq<LabeledClass>, c: LabeledClass, n: nat, m: nat)
    requires n > 0
    ensures ShardsUnion(cs + [c], n, m)
         == ShardsUnion(cs, n, m) + (if |cs| % n < m then multiset{c} else multiset{})
  {
    assert (cs + [c])[..|cs|] == cs;
    if m > 0 {
      ShardsUnionAppend(cs, c, n, m - 1);
    }
  }

  lemma {:induction false} ShardsUnionOfNothing(n: nat, m: nat)
    requires n > 0
    ensures ShardsUnion([], n, m) == multiset{}
  {
    if m > 0 {
      ShardsUnionOfNothing(n, m - 1);
    }
  }

  /** Sharding partitions the classes: together the `n` declarers hold exactly
      the enumerated classes, each as often as it was enumerated. */
  lemma {:induction false} ShardsPartition(cs: seq<LabeledClass>, n: nat)
    requires n > 0
    ensures ShardsUnion(cs, n, n) == multiset(cs)
  {
    if cs != [] {
      var prefix, last := cs[..|cs| - 1], cs[|cs| - 1];
      assert cs == prefix + [last];
      assert |prefix| % n < n;
      ShardsPartition(prefix, n);
      ShardsUnionAppend(prefix, last, n, n);
    } else {
      ShardsUnionOfNothing(n, n);
    }
  }

  /** The class at enumeration index `k` goes to declarer `k % n`. */
  lemma {:induction false} ShardReceives(cs: seq<LabeledClass>, n: nat, k: nat)
    requires n > 0 && k < |cs|
    ensures cs[k] in ShardOf(cs, n, k % n)
    decreases |cs|
  {
    if k < |cs| - 1 {
      ShardReceives(cs[..|cs| - 1], n, k);
    }
  }

  /** A declarer only holds classes whose enumeration index maps to it. */
  lemma {:induction false} ShardOrigin(cs: seq<LabeledClass>, n: nat, j: nat, x: LabeledClass)
    requires n > 0 && x in ShardOf(cs, n, j)
    ensures exists k :: 0 <= k < |cs| && k % n == j && cs[k] == x
    decreases |cs|
  {
    var prefix := cs[..|cs| - 1];
    if x in ShardOf(prefix, n, j) {
      ShardOrigin(prefix, n, j, x);
      var k :| 0 <= k < |prefix| && k % n == j && prefix[k] == x;
      assert cs[k] == x;
    }
  }

  /** Fills the declarers' class lists: class number `idx` goes to declarer `idx % n`. */
  method ShardClasses(cs: seq<LabeledClass>, n: nat) returns (shards: seq<seq<LabeledClass>>)
    requires n > 0
    ensures |shards| == n
    ensures forall j :: 0 <= j < n ==> shards[j] == ShardOf(cs, n, j)
  {
    var declarers := new seq<LabeledClass>[n](_ => []);
    for idx := 0 to |cs|
      invariant forall j :: 0 <= j < n ==> declarers[j] == ShardOf(cs[..idx], n, j)
    {
      assert cs[..idx + 1][..idx] == cs[..idx];
      var k := idx % n;
      declarers[k] := declarers[k] + [cs[idx]];
    }
    assert cs[..|cs|] == cs;
    shards := declarers[..];
  }

  /** One declaration per predeployed account, in account order. */
  function ShardOps(cs: seq<LabeledClass>, n: nat): (ops: seq<Op>)
    requires n > 0
  {
    seq(n, j requires 0 <= j < n => Declare(Predeployed(j), ShardOf(cs, n, j)))
  }

  /** Folds the declarers' results in order: the first error that does not say
      the class was already declared, if any. */
  function FirstFatal(verdicts: seq<Option<string>>): (r: Option<string>)
    ensures r.Some? ==> exists j :: 0 <= j < |verdicts| && verdicts[j] == r
    ensures r.Some? ==> !Contains(r.value, AlreadyDeclared)
    ensures r.None? <==> forall j :: 0 <= j < |verdicts| && verdicts[j].Some?
                                     ==> Contains(verdicts[j].value, AlreadyDeclared)
  {
    if verdicts == [] then None
    else if verdicts[0].Some? && !Contains(verdicts[0].value, AlreadyDeclared) then verdicts[0]
    else
      var r := FirstFatal(verdicts[1..]);
      assert r.Some? ==> verdicts[1..][0..] == verdicts[1..];
      r
  }

  lemma {:induction false} FirstFatalAppend(a: seq<Option<string>>, b: seq<Option<string>>)
    ensures FirstFatal(a + b) == if FirstFatal(a).Some? then FirstFatal(a) else FirstFatal(b)
  {
    if a != [] {
      assert (a + b)[1..] == a[1..] + b;
      FirstFatalAppend(a[1..], b);
    } else {
      assert a + b == b;
    }
  }

  /** What `declare_classes` submits and whether it fails. */
  datatype Declared = Declared(ops: seq<Op>, error: Option<MigrationError>)

  function Verdicts(env: Env, ops: seq<Op>): seq<Option<string>> {
    seq(|ops|, i requires 0 <= i < |ops| => env.verdict(ops[i]))
  }

  function DeclareSpec(classes: map<Felt, LabeledClass>, env: Env): Declared {
    var cs := ClassOrder(classes, env);
    if env.accounts == 0 then
      var op := Declare(Migrator, cs);
      var e := env.verdict(op);
      Declared([op], if e.Some? then Some(DeclarerError(e.value)) else None)
    else
      var ops := ShardOps(cs, env.accounts);
      var fatal := FirstFatal(Verdicts(env, ops));
      Declared(ops, if fatal.Some? then Some(DeclareClassError(fatal.value)) else None)
  }

  /** All classes a list of operations declares, counted with multiplicity. */
  function DeclaredIn(ops: seq<Op>): multiset<LabeledClass> {
    if ops == [] then multiset{}
    else DeclaredIn(ops[..|ops| - 1])
         + (if ops[|ops| - 1].Declare? then multiset(ops[|ops| - 1].classes) else multiset{})
  }

  lemma {:induction false} DeclaredInShards(cs: seq<LabeledClass>, n: nat, m: nat)
    requires n > 0 && m <= n
    ensures DeclaredIn(ShardOps(cs, n)[..m]) == ShardsUnion(cs, n, m)
  {
    if m > 0 {
      assert ShardOps(cs, n)[..m][..m - 1] == ShardOps(cs, n)[..m - 1];
      DeclaredInShards(cs, n, m - 1);
    }
  }

  /** Every enumerated class is declared exactly as often as it was enumerated,
      and only declaration operations are submitted: with no predeployed
      accounts all of them go through the migrator, otherwise one declarer per
      account receives its round-robin share. */
  lemma DeclareCoversClasses(classes: map<Felt, LabeledClass>, env: Env)
    ensures DeclaredIn(DeclareSpec(classes, env).ops) == multiset(ClassOrder(classes, env))
    ensures forall i :: 0 <= i < |DeclareSpec(classes, env).ops| ==> DeclareSpec(classes, env).ops[i].Declare?
    ensures env.accounts == 0 ==> DeclareSpec(classes, env).ops == [Declare(Migrator, ClassOrder(classes, env))]
    ensures env.accounts > 0 ==> |DeclareSpec(classes, env).ops| == env.accounts
  {
    var cs := ClassOrder(classes, env);
    if env.accounts == 0 {
      assert [Declare(Migrator, cs)][..0] == [];
    } else {
      var n := env.accounts;
      DeclaredInShards(cs, n, n);
      ShardsPartition(cs, n);
      assert ShardOps(cs, n)[..n] == ShardOps(cs, n);
    }
  }

  /** `declare_classes` declares every class of the map exactly once, and
      nothing else, when the map is iterated as a `HashMap` and keyed by CASM
      class hash. */
  lemma DeclareEachClassOnce(classes: map<Felt, LabeledClass>, env: Env)
    requires ListsKeys(classes, env.iterationOrder(classes)) && KeyedByCasm(classes)
    ensures forall k :: k in classes ==> DeclaredIn(DeclareSpec(classes, env).ops)[classes[k]] == 1
    ensures forall c :: c in DeclaredIn(DeclareSpec(classes, env).ops) ==> exists k :: k in classes && classes[k] == c
  {
    DeclareCoversClasses(classes, env);
    EnumerateEachOnce(classes, env.iterationOrder(classes));
    forall c | c in DeclaredIn(DeclareSpec(classes, env).ops) ensures exists k :: k in classes && classes[k] == c {
      assert c in ClassOrder(classes, env);
    }
  }

  /** On the sharded path the step fails exactly when some declarer reports an
      error that is not "Class already declared"; without predeployed accounts
      any error of the migrator's declaration fails it. */
  lemma DeclareFailsIff(classes: map<Felt, LabeledClass>, env: Env)
    ensures env.accounts > 0 ==>
      (DeclareSpec(classes, env).error.None? <==>
        forall j :: 0 <= j < env.accounts ==>
          var v := env.verdict(Declare(Predeployed(j), ShardOf(ClassOrder(classes, env), env.accounts, j)));
          v.None? || Contains(v.value, AlreadyDeclared))
    ensures env.accounts == 0 ==>
      (DeclareSpec(classes, env).error.None? <==> env.verdict(Declare(Migrator, ClassOrder(classes, env))).None?)
  {
    if env.accounts > 0 {
      var cs, n := ClassOrder(classes, env), env.accounts;
      var vs := Verdicts(env, ShardOps(cs, n));
      assert forall j :: 0 <= j < n ==>
        vs[j] == env.verdict(Declare(Predeployed(j), ShardOf(cs, n, j)));
    }
  }

  method DeclareClasses(classes: map<Felt, LabeledClass>, remote: Remote) returns (err: Option<MigrationError>)
    modifies remote
    ensures remote.log == old(remote.log) + DeclareSpec(classes, remote.env).ops
    ensures err == DeclareSpec(classes, remote.env).error
  {
    var cs := ClassOrder(classes, remote.env);
    var n := remote.env.accounts;
    if n == 0 {
      var e := remote.Submit(Declare(Migrator, cs));
      err := if e.Some? then Some(DeclarerError(e.value)) else None;
      return;
    }
    var shards := ShardClasses(cs, n);
    ghost var ops := ShardOps(cs, n);
    // Every declarer runs to completion; results are kept in declarer order.
    var results: seq<Option<string>> := [];
    for j := 0 to n
      invariant remote.log == old(remote.log) + ops[..j]
      invariant results == Verdicts(remote.env, ops[..j])
    {
      var e := remote.Submit(Declare(Predeployed(j), shards[j]));
      assert ops[..j + 1] == ops[..j] + [ops[j]];
      results := results + [e];
    }
    assert ops[..n] == ops;
    err := FoldDeclarerResults(results);
  }

  /** Error folding after all declarers have finished: the first result that
      is an error not saying "Class already declared" fails the step. */
  method FoldDeclarerResults(results: seq<Option<string>>) returns (err: Option<MigrationError>)
    ensures err.None? <==> FirstFatal(results).None?
    ensures err.Some? ==> err == Some(DeclareClassError(FirstFatal(results).value))
  {
    for j := 0 to |results|
      invariant FirstFatal(results[..j]) == None
    {
      assert results[..j + 1] == results[..j] + [results[j]];
      FirstFatalAppend(results[..j], [results[j]]);
      if results[j].Some? {
        if Contains(results[j].value, AlreadyDeclared) {
          continue;
        }
        FirstFatalAppend(results[..j + 1], results[j + 1..]);
        assert results[..j + 1] + results[j + 1..] == results;
        return Some(DeclareClassError(results[j].value));
      }
    }
    assert results[..|results|] == results;
    return None;
  }
}
