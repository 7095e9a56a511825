/** Laws of the targeted plan: it builds the addon exactly when needed, and more paths never drop a task. */
module TargetedPlan {
  import opened AffectedTask
  import opened AffectedPlan

  predicate ConsumesNative(tasks: seq<Task>) { exists t | t in tasks :: Effective(t).nativeConsumer }

  lemma {:induction false} LegacyEffective(dirs: set<string>, t: Task)
    requires LegacyTask(dirs, t)
    ensures Effective(t).nativeConsumer == NeedsNative(t.key) && Effective(t).nativeProducer == IsNativeBuildKey(t.key)
  {
    hide NeedsNative;
  }

  /** In a plan made by add, the keys alone say what is consumed and produced. */
  lemma {:induction false} LegacyFlags(dirs: set<string>, plan: seq<Task>)
    requires LegacyPlan(dirs, plan)
    ensures ConsumesNative(plan) <==> Consumes(Keys(plan))
    ensures HasNative(plan) <==> Produces(Keys(plan))
  {
    hide NeedsNative, Effective, LegacyTask, Keys, Consumes, Produces;
    forall t | t in plan
      ensures Effective(t).nativeConsumer == NeedsNative(t.key)
              && Effective(t).nativeProducer == IsNativeBuildKey(t.key)
    {
      LegacyEffective(dirs, t);
    }
    KeyQuantifiers(plan);
  }

  // ---------------------------------------------------------------- which keys can be asked for

  /** No key but the full-workspace one begins with an n. */
  predicate Harmless(keys: set<string>) { forall k | k in keys :: k != "" && k[0] != 'n' }

  lemma {:induction false} TestKeysHarmless(names: seq<string>)
    ensures Harmless(TestKeys(names))
  {
  }

  lemma {:induction false} ShardKeysHarmless(count: nat, total: nat)
    ensures Harmless(ShardKeys(count, total))
  {
    hide ShardName;
    if count > 0 { ShardKeysHarmless(count - 1, total); }
  }

  lemma {:induction false} WorkspaceKeysHarmless(packages: seq<Owner>, total: nat)
    ensures Harmless(WorkspaceTestKeys(packages, total))
  {
    hide ShardKeys;
    if packages != [] {
      WorkspaceKeysHarmless(packages[..|packages| - 1], total);
      ShardKeysHarmless(total, total);
    }
  }

  lemma {:induction false} UnionHarmless(a: set<string>, b: set<string>)
    requires Harmless(a) && Harmless(b)
    ensures Harmless(a + b)
  {
  }

  lemma {:induction false} OwnerKeysHarmless(p: PathInfo)
    ensures Harmless(OwnerCheck(p.owner)) && Harmless(UnmappedKeys(p))
  {
  }

  lemma {:induction false} PublishingKeysHarmless(p: PathInfo)
    ensures Harmless(PublishingKeys(p))
  {
    hide OwnerCheck;
    OwnerKeysHarmless(p);
    var release := If(p.releasePublish, RELEASE_KEYS + If(p.wrapper, {"wrapper-version"}));
    var bridge := If(p.bridgeClient, {"bridge-client-sdk-package-smoke"} + OwnerCheck(p.owner));
    UnionHarmless(release, bridge);
  }

  lemma {:induction false} SourceKeysHarmless(p: PathInfo, total: nat)
    ensures Harmless(SourceKeys(p, total))
  {
    hide TestKeys, ShardName, UnmappedKeys, PublishingKeys, Harmless;
    TestKeysHarmless(p.mappedTests);
    TestKeysHarmless(p.behavioralTests);
    OwnerKeysHarmless(p);
    PublishingKeysHarmless(p);
    ChoiceHarmless(p, total);
    UnionHarmless(PublishingKeys(p), TestKeys(p.mappedTests));
    UnionHarmless(PublishingKeys(p) + TestKeys(p.mappedTests), TestKeys(p.behavioralTests));
    UnionHarmless(PublishingKeys(p) + TestKeys(p.mappedTests) + TestKeys(p.behavioralTests),
                  If(p.shardOne, {TestKey(ShardName(1, total))}));
    UnionHarmless(PublishingKeys(p) + TestKeys(p.mappedTests) + TestKeys(p.behavioralTests)
                  + If(p.shardOne, {TestKey(ShardName(1, total))}), If(p.mappedTests == [], UnmappedKeys(p)));
  }

  lemma {:induction false} ChoiceHarmless(p: PathInfo, total: nat)
    ensures Harmless(If(p.shardOne, {TestKey(ShardName(1, total))}))
    ensures Harmless(If(p.mappedTests == [], UnmappedKeys(p)))
  {
    hide ShardName, UnmappedKeys;
    OwnerKeysHarmless(p);
  }

  lemma {:induction false} ImmediateHarmless(ps: seq<PathInfo>, total: nat)
    ensures Harmless(AllImmediate(ps, total))
  {
    hide TestKeys, SourceKeys;
    if ps != [] {
      ImmediateHarmless(ps[..|ps| - 1], total);
      SourceKeysHarmless(ps[|ps| - 1], total);
      TestKeysHarmless(ps[|ps| - 1].behavioralTests);
    }
  }

  /** The only producer that is ever asked for is the one of a full-workspace plan, next to its root check. */
  lemma {:induction false} AskedProducer(paths: seq<PathInfo>, packages: seq<Owner>, total: nat)
    ensures "native-build" !in AskedKeys(paths, packages, total)
    ensures NATIVE_KEY in AskedKeys(paths, packages, total) <==> FullWorkspace(Relevant(paths))
    ensures NATIVE_KEY in AskedKeys(paths, packages, total) ==> "root-check" in AskedKeys(paths, packages, total)
  {
    hide AllImmediate, WorkspaceTestKeys, FullWorkspace, AnyDarwin, AnySelftest, AnyYaml, AnyDocs, Relevant;
    var relevant := Relevant(paths);
    ImmediateHarmless(relevant, total);
    WorkspaceKeysHarmless(packages, total);
    assert Harmless(Deferred(relevant));
    assert Harmless(If(AnyDocs(paths), {TestKey(GATE_TEST)}));
    var old_, new_ := "native-build", NATIVE_KEY;
    assert old_[0] == 'n' && new_[0] == 'n' && |old_| != |new_|;
    assert old_ !in {"root-check", NATIVE_KEY} by { assert "root-check"[0] == 'r'; }
  }

  /** A targeted plan contains a native producer if and only if it contains a native consumer. */
  lemma {:induction false} ProducerIffConsumer(dirs: set<string>, plan: seq<Task>, paths: seq<PathInfo>,
                                               packages: seq<Owner>, total: nat)
    requires LegacyPlan(dirs, plan) && Keys(plan) == WithProducer(AskedKeys(paths, packages, total))
    ensures HasNative(plan) <==> ConsumesNative(plan)
  {
    hide AskedKeys, LegacyPlan, Keys, HasNative, ConsumesNative, FullWorkspace;
    var asked := AskedKeys(paths, packages, total);
    LegacyFlags(dirs, plan);
    AskedProducer(paths, packages, total);
    NativeKeyNeedsNothing();
    if Produces(asked) {
      var k :| k in asked && IsNativeBuildKey(k);
      assert NeedsNative("root-check");
    } else if Consumes(asked) {
      var k :| k in asked && NeedsNative(k);
      assert k in asked + {NATIVE_KEY};
    }
  }

  lemma {:induction false} NativeKeyNeedsNothing()
    ensures !NeedsNative(NATIVE_KEY) && IsNativeBuildKey(NATIVE_KEY)
  {
    var key := NATIVE_KEY;
    assert key[0] == 'n';
  }

  // ---------------------------------------------------------------- monotonicity

  /** Facts of the path predicates: package.json is a full-workspace path, and no other one is a release path. */
  predicate WellClassified(p: PathInfo) {
    (p.packageJson ==> p.fullWorkspace)
    && (p.fullWorkspace && !p.packageJson ==> !p.releasePublish && !p.releaseHarness && !p.wrapper)
  }

  lemma {:induction false} InImmediate(ps: seq<PathInfo>, total: nat, k: string)
    ensures k in AllImmediate(ps, total) <==> exists p | p in ps :: k in ImmediateKeys(p, total)
  {
    hide ImmediateKeys;
    if ps != [] {
      var n := |ps| - 1;
      InImmediate(ps[..n], total, k);
      assert ps == ps[..n] + [ps[n]];
    }
  }

  lemma {:induction false} ImmediateGrows(ps: seq<PathInfo>, more: seq<PathInfo>, total: nat)
    requires forall p | p in ps :: p in more
    ensures AllImmediate(ps, total) <= AllImmediate(more, total)
  {
    hide ImmediateKeys, AllImmediate;
    forall k | k in AllImmediate(ps, total) ensures k in AllImmediate(more, total) {
      InImmediate(ps, total, k);
      InImmediate(more, total, k);
    }
  }

  lemma {:induction false} FullWorkspaceGrows(ps: seq<PathInfo>, more: seq<PathInfo>)
    requires forall p | p in ps :: p in more
    requires forall p | p in more :: WellClassified(p)
    requires FullWorkspace(ps)
    ensures FullWorkspace(more)
  {
    var i :| 0 <= i < |ps| && ps[i].fullWorkspace;
    assert ps[i] in ps;
    var k :| 0 <= k < |more| && more[k] == ps[i];
    if ReleaseHarnessOnly(more) {
      assert more[k].packageJson by { assert WellClassified(more[k]); }
      forall j | 0 <= j < |ps| ensures ps[j].packageJson || ps[j].releasePublish || ps[j].releaseHarness
        || ps[j].wrapper {
        assert ps[j] in ps;
        var m :| 0 <= m < |more| && more[m] == ps[j];
      }
      assert ps[i].packageJson;
      assert ReleaseHarnessOnly(ps);
      assert false;
    }
  }

  lemma {:induction false} DeferredGrows(ps: seq<PathInfo>, more: seq<PathInfo>)
    requires forall p | p in ps :: p in more
    ensures Deferred(ps) <= Deferred(more) && (AnyDocs(ps) ==> AnyDocs(more))
  {
    hide AsksSelftest, AsksYaml;
    forall i | 0 <= i < |ps| ensures exists k :: 0 <= k < |more| && more[k] == ps[i] { assert ps[i] in ps; }
  }

  /** Every key asked for by some changed paths is asked for by any larger set of changed paths, in any order. */
  lemma {:induction false} AskedGrows(paths: seq<PathInfo>, more: seq<PathInfo>, packages: seq<Owner>, total: nat)
    requires forall p | p in paths :: p in more
    requires forall p | p in more :: WellClassified(p)
    ensures AskedKeys(paths, packages, total) <= AskedKeys(more, packages, total)
  {
    hide AllImmediate, Deferred, FullWorkspace, AnyDocs, WellClassified, WorkspaceTestKeys, Relevant;
    var a, b := Relevant(paths), Relevant(more);
    forall p | p in a ensures p in b { InRelevant(paths, p); InRelevant(more, p); }
    forall p | p in b ensures WellClassified(p) { InRelevant(more, p); }
    ImmediateGrows(a, b, total);
    DeferredGrows(a, b);
    DeferredGrows(paths, more);
    if FullWorkspace(a) { FullWorkspaceGrows(a, b); }
  }

  /** Touching more paths never drops a task from the targeted plan. */
  lemma {:induction false} PlanGrows(paths: seq<PathInfo>, more: seq<PathInfo>, packages: seq<Owner>, total: nat)
    requires forall p | p in paths :: p in more
    requires forall p | p in more :: WellClassified(p)
    ensures WithProducer(AskedKeys(paths, packages, total)) <= WithProducer(AskedKeys(more, packages, total))
  {
    hide AskedKeys, WellClassified, NeedsNative, FullWorkspace;
    var a, b := AskedKeys(paths, packages, total), AskedKeys(more, packages, total);
    AskedGrows(paths, more, packages, total);
    AskedProducer(more, packages, total);
    if Consumes(a) {
      var k :| k in a && NeedsNative(k);
      assert k in b;
    }
    if Produces(b) {
      var k :| k in b && IsNativeBuildKey(k);
      assert k == NATIVE_KEY;
    }
  }
}
