/** What each task key of a targeted plan stands for: a condition on the changed paths, key by key. */
module PlanKeys {
  import opened Common
  import opened AffectedTask
  import opened AffectedPlan
  import opened TargetedPlan

  // ---------------------------------------------------------------- which paths are looked at one by one

  /** Neither documentation, nor a full-workspace file, nor part of the workflow and CI machinery. */
  predicate OrdinaryPath(p: PathInfo) { !p.doc && !p.fullWorkspace && !p.workflow && !p.ciHarness }

  predicate RustPath(p: PathInfo) { OrdinaryPath(p) && p.rust }

  predicate PythonPath(p: PathInfo) { OrdinaryPath(p) && !p.rust && p.python }

  predicate InstallPath(p: PathInfo) { OrdinaryPath(p) && !p.rust && !p.python && p.install }

  predicate SourcePath(p: PathInfo) { OrdinaryPath(p) && !p.rust && !p.python && !p.install }

  /** A source path with no test of its own name. */
  predicate UnmappedPath(p: PathInfo) { SourcePath(p) && p.mappedTests == [] }

  predicate MachineryPath(p: PathInfo) { !p.doc && !p.fullWorkspace && (p.workflow || p.ciHarness) }

  /** A changed full-workspace file, unless all that changed is the root manifest and release files. */
  predicate WholeWorkspace(paths: seq<PathInfo>) {
    (exists p | p in paths :: !p.doc && p.fullWorkspace)
    && !((exists p | p in paths :: !p.doc && p.packageJson)
         && forall p | p in paths && !p.doc :: p.packageJson || p.releasePublish || p.releaseHarness || p.wrapper)
  }

  // ---------------------------------------------------------------- what a path asks for, key by key

  /** Which test, by file or package name, a path asks for. */
  predicate AsksTest(p: PathInfo, total: nat, name: string) {
    || (RustPath(p) && name in p.behavioralTests)
    || (SourcePath(p)
        && (name in p.mappedTests || name in p.behavioralTests
            || (p.shardOne && name == ShardName(1, total))
            || (p.releasePublish && name == "scripts/release-evidence.test.ts")))
  }

  predicate AsksCheck(p: PathInfo, name: string) {
    SourcePath(p) && p.owner.Some? && p.owner.value.hasCheck && p.owner.value.name == name
    && (p.bridgeClient || p.mappedTests == [])
  }

  /** Keys that are fixed texts. */
  predicate AsksFixed(p: PathInfo, key: string) {
    || (key in {"rust-check", "rust-test"} && RustPath(p))
    || (key in {"python-check", "python-test", "python-build-smoke"} && PythonPath(p))
    || (key == "install-methods" && (InstallPath(p) || (!p.doc && p.darwinSmoke)))
    || (key in {"release-publish-contract", "release-publish-dry-run"} && SourcePath(p) && p.releasePublish)
    || (key == "wrapper-version" && SourcePath(p) && p.wrapper
        && (p.releasePublish || (p.mappedTests == [] && p.owner.Some?)))
    || (key == "bridge-client-sdk-package-smoke" && SourcePath(p) && p.bridgeClient)
    || (key == "cli-smoke" && UnmappedPath(p) && p.owner.Some? && p.agentRuntime)
    || (key == "root-check" && UnmappedPath(p) && p.owner.None? && p.codeIsh)
    || (key in {"ci-selftest", "ci-dry-run", "workflow-permissions"} && MachineryPath(p))
    || (key == "yaml-parse" && MachineryPath(p) && p.workflow)
  }

  predicate Asks(p: PathInfo, total: nat, key: string) {
    || AsksFixed(p, key)
    || (StartsWith(key, "check:") && AsksCheck(p, key[6..]))
    || (StartsWith(key, "test:") && AsksTest(p, total, key[5..]))
  }

  /** The tests of a package: one task, or the shards of the coding agent. */
  predicate PackageTest(o: Owner, total: nat, name: string) {
    o.hasTest
    && if o.name == CODING_AGENT then exists i | 1 <= i <= total :: name == ShardName(i, total) else name == o.name
  }

  predicate WorkspaceAsks(packages: seq<Owner>, total: nat, key: string) {
    || key in {"root-check", "root-test:release", NATIVE_KEY}
    || (StartsWith(key, "test:") && exists o | o in packages :: PackageTest(o, total, key[5..]))
  }

  /** Some changed path asks for the key, or the whole workspace does, or it is the gate of the embedded docs. */
  predicate Wanted(paths: seq<PathInfo>, packages: seq<Owner>, total: nat, key: string) {
    || (exists p | p in paths :: Asks(p, total, key))
    || (WholeWorkspace(paths) && WorkspaceAsks(packages, total, key))
    || (key == "test:" + GATE_TEST && exists p | p in paths :: p.embeddedDocs)
  }

  // ---------------------------------------------------------------- path by path

  lemma {:induction false} TestKeyMeans(name: string, key: string)
    ensures key == TestKey(name) <==> StartsWith(key, "test:") && key[5..] == name
  {
    if StartsWith(key, "test:") && key[5..] == name { assert key == key[..5] + key[5..]; }
  }

  lemma {:induction false} CheckKeyMeans(name: string, key: string)
    ensures key == CheckKey(name) <==> StartsWith(key, "check:") && key[6..] == name
  {
    if StartsWith(key, "check:") && key[6..] == name { assert key == key[..6] + key[6..]; }
  }

  lemma {:induction false} TestKeysMean(names: seq<string>, key: string)
    ensures key in TestKeys(names) <==> StartsWith(key, "test:") && key[5..] in names
  {
    forall name ensures key == TestKey(name) <==> StartsWith(key, "test:") && key[5..] == name {
      TestKeyMeans(name, key);
    }
    hide TestKey;
    if StartsWith(key, "test:") && key[5..] in names { assert key == TestKey(key[5..]); }
  }

  predicate PublishingAsks(p: PathInfo, key: string) {
    || (p.releasePublish
        && (key in {"release-publish-contract", "release-publish-dry-run"}
            || key == TestKey("scripts/release-evidence.test.ts")
            || (p.wrapper && key == "wrapper-version")))
    || (p.bridgeClient && (key == "bridge-client-sdk-package-smoke" || OwnCheck(p, key)))
  }

  predicate OwnCheck(p: PathInfo, key: string) {
    p.owner.Some? && p.owner.value.hasCheck && key == CheckKey(p.owner.value.name)
  }

  lemma {:induction false} PublishingMeans(p: PathInfo, key: string)
    ensures key in PublishingKeys(p) <==> PublishingAsks(p, key)
  {
    hide TestKey, CheckKey;
  }

  predicate UnmappedAsks(p: PathInfo, key: string) {
    if p.owner.Some? then
      OwnCheck(p, key) || (p.agentRuntime && key == "cli-smoke") || (p.wrapper && key == "wrapper-version")
    else p.codeIsh && key == "root-check"
  }

  lemma {:induction false} UnmappedMeans(p: PathInfo, key: string)
    ensures key in UnmappedKeys(p) <==> UnmappedAsks(p, key)
  {
    hide CheckKey;
  }

  lemma {:induction false} SourceMeans(p: PathInfo, total: nat, key: string)
    ensures key in SourceKeys(p, total)
            <==> PublishingAsks(p, key) || key in TestKeys(p.mappedTests) || key in TestKeys(p.behavioralTests)
                 || (p.shardOne && key == TestKey(ShardName(1, total))) || (p.mappedTests == [] && UnmappedAsks(p, key))
  {
    PublishingMeans(p, key);
    UnmappedMeans(p, key);
    hide TestKey, CheckKey, PublishingKeys, UnmappedKeys, PublishingAsks, UnmappedAsks, TestKeys, ShardName;
  }

  /** The fixed keys among those of a source path. */
  predicate SourceFixed(p: PathInfo, key: string) {
    || (p.releasePublish && key in {"release-publish-contract", "release-publish-dry-run"})
    || (p.wrapper && (p.releasePublish || (p.mappedTests == [] && p.owner.Some?)) && key == "wrapper-version")
    || (p.bridgeClient && key == "bridge-client-sdk-package-smoke")
    || (p.mappedTests == [] && p.owner.Some? && p.agentRuntime && key == "cli-smoke")
    || (p.mappedTests == [] && p.owner.None? && p.codeIsh && key == "root-check")
  }

  lemma {:induction false} SourceSplits(p: PathInfo, key: string)
    ensures PublishingAsks(p, key) || (p.mappedTests == [] && UnmappedAsks(p, key))
            <==> SourceFixed(p, key) || (p.releasePublish && key == TestKey("scripts/release-evidence.test.ts"))
                 || (OwnCheck(p, key) && (p.bridgeClient || p.mappedTests == []))
  {
    hide TestKey, CheckKey;
  }

  lemma {:induction false} SourceFixedMeans(p: PathInfo, key: string)
    requires SourcePath(p)
    ensures SourceFixed(p, key) || (p.darwinSmoke && key == "install-methods") <==> AsksFixed(p, key)
  {
  }

  /** Keys of a source path in the vocabulary of keys. */
  lemma {:induction false} SourceAsks(p: PathInfo, total: nat, key: string)
    requires SourcePath(p)
    ensures key in SourceKeys(p, total) || (p.darwinSmoke && key == "install-methods") <==> Asks(p, total, key)
  {
    SourceMeans(p, total, key);
    SourceSplits(p, key);
    SourceFixedMeans(p, key);
    TestKeysMean(p.mappedTests, key);
    TestKeysMean(p.behavioralTests, key);
    TestKeyMeans(ShardName(1, total), key);
    TestKeyMeans("scripts/release-evidence.test.ts", key);
    if p.owner.Some? { CheckKeyMeans(p.owner.value.name, key); }
    hide TestKey, CheckKey, TestKeys, ShardName, SourceKeys, StartsWith, SourceFixed, AsksFixed, PublishingAsks,
      UnmappedAsks;
  }

  /** A relevant path's keys, those added while it is visited and those its flags add, are the keys it asks for. */
  lemma {:induction false} PathMeans(p: PathInfo, total: nat, key: string)
    requires !p.doc
    ensures (key in ImmediateKeys(p, total)
             || (p.darwinSmoke && key == "install-methods")
             || (AsksSelftest(p) && key in {"ci-selftest", "ci-dry-run", "workflow-permissions"})
             || (AsksYaml(p) && key == "yaml-parse"))
            <==> Asks(p, total, key)
  {
    if SourcePath(p) {
      SourceAsks(p, total, key);
      hide SourceKeys, Asks;
    } else {
      TestKeysMean(p.behavioralTests, key);
      hide TestKeys, StartsWith, SourceKeys, ShardName;
    }
  }

  // ---------------------------------------------------------------- the whole plan

  lemma {:induction false} ShardsMean(count: nat, total: nat, key: string)
    ensures key in ShardKeys(count, total)
            <==> StartsWith(key, "test:") && exists i | 1 <= i <= count :: key[5..] == ShardName(i, total)
  {
    hide ShardName;
    if count > 0 {
      ShardsMean(count - 1, total, key);
      TestKeyMeans(ShardName(count, total), key);
    }
  }

  lemma {:induction false} PackageTestsMean(o: Owner, total: nat, key: string)
    requires o.hasTest
    ensures key in PackageTestKeys(o, total) <==> StartsWith(key, "test:") && PackageTest(o, total, key[5..])
  {
    hide ShardName, ShardKeys;
    ShardsMean(total, total, key);
    TestKeyMeans(o.name, key);
  }

  lemma {:induction false} WorkspaceTestsMean(packages: seq<Owner>, total: nat, key: string)
    ensures key in WorkspaceTestKeys(packages, total)
            <==> key == "root-test:release"
                 || (StartsWith(key, "test:") && exists o | o in packages :: PackageTest(o, total, key[5..]))
  {
    hide PackageTestKeys, PackageTest, StartsWith;
    if packages != [] {
      var front, last := packages[..|packages| - 1], packages[|packages| - 1];
      assert packages == front + [last];
      WorkspaceTestsMean(front, total, key);
      if last.hasTest {
        PackageTestsMean(last, total, key);
      } else if StartsWith(key, "test:") {
        NoPackageTest(last, total, key);
      }
    }
  }

  lemma {:induction false} NoPackageTest(o: Owner, total: nat, key: string)
    requires !o.hasTest && StartsWith(key, "test:")
    ensures !PackageTest(o, total, key[5..])
  {
  }

  lemma {:induction false} WholeWorkspaceMeans(paths: seq<PathInfo>)
    ensures FullWorkspace(Relevant(paths)) <==> WholeWorkspace(paths)
  {
    hide Relevant;
    var relevant := Relevant(paths);
    forall p ensures p in relevant <==> p in paths && !p.doc { InRelevant(paths, p); }
    assert (exists i | 0 <= i < |relevant| :: relevant[i].fullWorkspace)
        <==> (exists p | p in paths :: !p.doc && p.fullWorkspace) by {
      if p :| p in paths && !p.doc && p.fullWorkspace { assert p in relevant; }
      if i :| 0 <= i < |relevant| && relevant[i].fullWorkspace { assert relevant[i] in relevant; }
    }
    assert (exists i | 0 <= i < |relevant| :: relevant[i].packageJson)
        <==> (exists p | p in paths :: !p.doc && p.packageJson) by {
      if p :| p in paths && !p.doc && p.packageJson { assert p in relevant; }
      if i :| 0 <= i < |relevant| && relevant[i].packageJson { assert relevant[i] in relevant; }
    }
  }

  /** A key added for the paths is one that a non-documentation path asks for. */
  lemma {:induction false} VisitedMeans(paths: seq<PathInfo>, total: nat, key: string)
    ensures key in AllImmediate(Relevant(paths), total) || key in Deferred(Relevant(paths))
            <==> exists p | p in paths :: Asks(p, total, key)
  {
    hide Relevant, AllImmediate, ImmediateKeys, Asks, AsksSelftest, AsksYaml;
    var relevant := Relevant(paths);
    InImmediate(relevant, total, key);
    DeferredMeans(relevant, key);
    if p :| p in paths && Asks(p, total, key) {
      DocsAskNothing(p, total, key);
      InRelevant(paths, p);
      PathMeans(p, total, key);
    }
    if p :| p in relevant && key in ImmediateKeys(p, total) {
      InRelevant(paths, p);
      PathMeans(p, total, key);
    }
    if p :| p in relevant && DeferredAsks(p, key) {
      InRelevant(paths, p);
      PathMeans(p, total, key);
    }
  }

  lemma {:induction false} DocsAskNothing(p: PathInfo, total: nat, key: string)
    requires Asks(p, total, key)
    ensures !p.doc
  {
  }

  predicate DeferredAsks(p: PathInfo, key: string) {
    || (p.darwinSmoke && key == "install-methods")
    || (AsksSelftest(p) && key in {"ci-selftest", "ci-dry-run", "workflow-permissions"})
    || (AsksYaml(p) && key == "yaml-parse")
  }

  lemma {:induction false} DeferredMeans(relevant: seq<PathInfo>, key: string)
    ensures key in Deferred(relevant) <==> exists p | p in relevant :: DeferredAsks(p, key)
  {
    hide AsksSelftest, AsksYaml;
    if key in Deferred(relevant) {
      var i :| 0 <= i < |relevant| && DeferredAsks(relevant[i], key);
      assert relevant[i] in relevant;
    }
    if p :| p in relevant && DeferredAsks(p, key) {
      var i :| 0 <= i < |relevant| && relevant[i] == p;
    }
  }

  /** Every key the plan asks for, and no other, is wanted. */
  lemma {:induction false} AskedIsWanted(paths: seq<PathInfo>, packages: seq<Owner>, total: nat, key: string)
    ensures key in AskedKeys(paths, packages, total) <==> Wanted(paths, packages, total, key)
  {
    hide Relevant, AllImmediate, Deferred, FullWorkspace, WorkspaceTestKeys, Asks, WholeWorkspace, StartsWith;
    VisitedMeans(paths, total, key);
    WholeWorkspaceMeans(paths);
    WorkspaceTestsMean(packages, total, key);
    assert AnyDocs(paths) <==> exists p | p in paths :: p.embeddedDocs by {
      if p :| p in paths && p.embeddedDocs { var i :| 0 <= i < |paths| && paths[i] == p; }
      if AnyDocs(paths) { var i :| 0 <= i < |paths| && paths[i].embeddedDocs; assert paths[i] in paths; }
    }
  }

  /**
   * The keys of a targeted plan: a key is there if and only if it is wanted, or it is the native build and some wanted
   * key needs the addon.
   */
  lemma {:induction false} PlanKeysExactly(plan: seq<Task>, paths: seq<PathInfo>, packages: seq<Owner>, total: nat,
                                           key: string)
    requires Keys(plan) == WithProducer(AskedKeys(paths, packages, total))
    ensures key in Keys(plan)
            <==> Wanted(paths, packages, total, key)
                 || (key == NATIVE_KEY
                     && exists k | k in Keys(plan) :: NeedsNative(k) && Wanted(paths, packages, total, k))
  {
    hide AskedKeys, Wanted, NeedsNative, Keys, FullWorkspace;
    var asked := AskedKeys(paths, packages, total);
    AskedIsWanted(paths, packages, total, key);
    AskedProducer(paths, packages, total);
    AskedIsWanted(paths, packages, total, NATIVE_KEY);
    if Consumes(asked) {
      var k :| k in asked && NeedsNative(k);
      AskedIsWanted(paths, packages, total, k);
      assert k in Keys(plan);
    }
    if k :| k in Keys(plan) && NeedsNative(k) && Wanted(paths, packages, total, k) {
      AskedIsWanted(paths, packages, total, k);
      assert Consumes(asked);
      if Produces(asked) { var b :| b in asked && IsNativeBuildKey(b); }
    }
  }

  // ---------------------------------------------------------------- one key at a time

  /** A key that only single paths ask for, under one fixed text. */
  predicate SinglePathKey(key: string) {
    !StartsWith(key, "test:") && !StartsWith(key, "check:")
    && key != "root-check" && key != "root-test:release" && key != NATIVE_KEY
  }

  lemma {:induction false} SinglePathWanted(paths: seq<PathInfo>, packages: seq<Owner>, total: nat, key: string)
    requires SinglePathKey(key)
    ensures Wanted(paths, packages, total, key) <==> exists p | p in paths :: AsksFixed(p, key)
  {
    hide AsksFixed, WholeWorkspace, AsksTest, AsksCheck, PackageTest;
    TestKeyMeans(GATE_TEST, "test:" + GATE_TEST);
    assert TestKey(GATE_TEST) == "test:" + GATE_TEST;
    hide StartsWith, TestKey;
  }

  /** Such a key is planned exactly when some changed path asks for it. */
  lemma {:induction false} SinglePathPlanned(plan: seq<Task>, paths: seq<PathInfo>, packages: seq<Owner>, total: nat,
                                             key: string)
    requires Keys(plan) == WithProducer(AskedKeys(paths, packages, total)) && SinglePathKey(key)
    ensures key in Keys(plan) <==> exists p | p in paths :: AsksFixed(p, key)
  {
    hide AsksFixed, Keys, AskedKeys, WithProducer, NeedsNative, Wanted, StartsWith;
    PlanKeysExactly(plan, paths, packages, total, key);
    SinglePathWanted(paths, packages, total, key);
  }

  lemma {:induction false} RustKeyMeans(p: PathInfo, key: string)
    requires key in {"rust-check", "rust-test"}
    ensures SinglePathKey(key) && (AsksFixed(p, key) <==> RustPath(p))
  {
    hide RustPath, PythonPath, InstallPath, SourcePath, UnmappedPath, MachineryPath;
    assert |key| <= 10 && key[0] == 'r' && key[1] == 'u';
  }

  /** For instance: Rust checks and tests are planned exactly for a Rust path that is looked at on its own. */
  lemma {:induction false} RustPlanned(plan: seq<Task>, paths: seq<PathInfo>, packages: seq<Owner>, total: nat,
                                       key: string)
    requires Keys(plan) == WithProducer(AskedKeys(paths, packages, total)) && key in {"rust-check", "rust-test"}
    ensures key in Keys(plan) <==> exists p | p in paths :: RustPath(p)
  {
    hide Keys, AskedKeys, WithProducer, AsksFixed, SinglePathKey, RustPath;
    RustKeyMeans(PathInfo(false, false, false, false, false, false, false, false, false, false, false, false, false,
                          false, false, false, false, [], [], None), key);
    forall p ensures AsksFixed(p, key) <==> RustPath(p) { RustKeyMeans(p, key); }
    SinglePathPlanned(plan, paths, packages, total, key);
  }

  lemma {:induction false} FixedIsNoFamily(p: PathInfo, key: string)
    requires StartsWith(key, "test:") || StartsWith(key, "check:")
    ensures !AsksFixed(p, key)
  {
    hide RustPath, PythonPath, InstallPath, SourcePath, UnmappedPath, MachineryPath;
    if StartsWith(key, "test:") {
      assert key[..5][0] == key[0] && key[..5][1] == key[1];
      assert key[0] == 't' && key[1] == 'e';
    } else {
      assert key[..6][0] == key[0] && key[..6][1] == key[1] && key[..6][5] == key[5];
      assert key[0] == 'c' && key[1] == 'h' && key[5] == ':';
    }
  }

  lemma {:induction false} Prefixes(name: string)
    ensures StartsWith(TestKey(name), "test:") && TestKey(name)[5..] == name && !StartsWith(TestKey(name), "check:")
    ensures StartsWith(CheckKey(name), "check:") && CheckKey(name)[6..] == name && !StartsWith(CheckKey(name), "test:")
    ensures TestKey(name) != NATIVE_KEY && CheckKey(name) != NATIVE_KEY
  {
    TestKeyMeans(name, TestKey(name));
    CheckKeyMeans(name, CheckKey(name));
    assert TestKey(name)[0] == 't' && CheckKey(name)[0] == 'c' && NATIVE_KEY[0] == 'n';
    assert TestKey(name)[..1] == "t" && CheckKey(name)[..1] == "c";
  }

  lemma {:induction false} CheckWanted(paths: seq<PathInfo>, packages: seq<Owner>, total: nat, name: string)
    ensures Wanted(paths, packages, total, CheckKey(name)) <==> exists p | p in paths :: AsksCheck(p, name)
  {
    var key := CheckKey(name);
    Prefixes(name);
    forall p ensures !AsksFixed(p, key) { FixedIsNoFamily(p, key); }
    assert key[0] == 'c' && "root-check"[0] == 'r' && "root-test:release"[0] == 'r';
    hide AsksFixed, WholeWorkspace, AsksCheck, AsksTest, StartsWith, CheckKey, PackageTest;
  }

  /** A package's check is planned exactly for its source paths without tests, or those of the bridge client. */
  lemma {:induction false} CheckPlanned(plan: seq<Task>, paths: seq<PathInfo>, packages: seq<Owner>, total: nat,
                                        name: string)
    requires Keys(plan) == WithProducer(AskedKeys(paths, packages, total))
    ensures CheckKey(name) in Keys(plan) <==> exists p | p in paths :: AsksCheck(p, name)
  {
    hide Keys, AskedKeys, WithProducer, NeedsNative, Wanted, AsksCheck, CheckKey;
    PlanKeysExactly(plan, paths, packages, total, CheckKey(name));
    Prefixes(name);
    CheckWanted(paths, packages, total, name);
  }

  /** What asks for a test: a path, the whole workspace, or changed docs in the case of their gate. */
  predicate TestAsked(paths: seq<PathInfo>, packages: seq<Owner>, total: nat, name: string) {
    || (exists p | p in paths :: AsksTest(p, total, name))
    || (WholeWorkspace(paths) && exists o | o in packages :: PackageTest(o, total, name))
    || (name == GATE_TEST && exists p | p in paths :: p.embeddedDocs)
  }

  lemma {:induction false} TestWanted(paths: seq<PathInfo>, packages: seq<Owner>, total: nat, name: string)
    ensures Wanted(paths, packages, total, TestKey(name)) <==> TestAsked(paths, packages, total, name)
  {
    var key := TestKey(name);
    Prefixes(name);
    TestKeyMeans(GATE_TEST, key);
    assert TestKey(GATE_TEST) == "test:" + GATE_TEST;
    forall p ensures !AsksFixed(p, key) { FixedIsNoFamily(p, key); }
    assert key[0] == 't' && "root-check"[0] == 'r' && "root-test:release"[0] == 'r';
    hide AsksFixed, WholeWorkspace, AsksCheck, AsksTest, StartsWith, TestKey, PackageTest;
  }

  /** A test is planned exactly when it is asked for. */
  lemma {:induction false} TestPlanned(plan: seq<Task>, paths: seq<PathInfo>, packages: seq<Owner>, total: nat,
                                       name: string)
    requires Keys(plan) == WithProducer(AskedKeys(paths, packages, total))
    ensures TestKey(name) in Keys(plan) <==> TestAsked(paths, packages, total, name)
  {
    hide Keys, AskedKeys, WithProducer, NeedsNative, Wanted, TestAsked, TestKey;
    PlanKeysExactly(plan, paths, packages, total, TestKey(name));
    Prefixes(name);
    TestWanted(paths, packages, total, name);
  }

  lemma {:induction false} WorkspaceKeysMean(p: PathInfo)
    ensures AsksFixed(p, "root-check") <==> UnmappedPath(p) && p.owner.None? && p.codeIsh
    ensures !AsksFixed(p, "root-test:release") && !AsksFixed(p, NATIVE_KEY)
  {
    hide RustPath, PythonPath, InstallPath, SourcePath, UnmappedPath, MachineryPath;
    var check, release, native := "root-check", "root-test:release", NATIVE_KEY;
    assert |check| == 10 && check[0] == 'r' && check[1] == 'o';
    assert |release| == 17 && release[0] == 'r' && release[1] == 'o' && release[5] == 't';
    assert native[0] == 'n';
  }

  lemma {:induction false} WorkspaceWanted(paths: seq<PathInfo>, packages: seq<Owner>, total: nat, key: string)
    requires key in {"root-check", "root-test:release", NATIVE_KEY}
    ensures Wanted(paths, packages, total, key)
            <==> (exists p | p in paths :: AsksFixed(p, key)) || WholeWorkspace(paths)
  {
    assert !StartsWith(key, "test:") && !StartsWith(key, "check:") by {
      assert key[0] == 'r' || key[0] == 'n';
    }
    TestKeyMeans(GATE_TEST, "test:" + GATE_TEST);
    assert TestKey(GATE_TEST) == "test:" + GATE_TEST;
    hide AsksFixed, WholeWorkspace, AsksTest, AsksCheck, PackageTest, StartsWith, TestKey;
  }

  /** The root check covers the whole workspace and code that no package owns; the release tests only the former. */
  lemma {:induction false} RootPlanned(plan: seq<Task>, paths: seq<PathInfo>, packages: seq<Owner>, total: nat)
    requires Keys(plan) == WithProducer(AskedKeys(paths, packages, total))
    ensures "root-check" in Keys(plan)
            <==> WholeWorkspace(paths) || exists p | p in paths :: UnmappedPath(p) && p.owner.None? && p.codeIsh
    ensures "root-test:release" in Keys(plan) <==> WholeWorkspace(paths)
  {
    hide Keys, AskedKeys, WithProducer, NeedsNative, Wanted, AsksFixed, UnmappedPath, WholeWorkspace;
    assert "root-check"[0] == 'r' && "root-test:release"[0] == 'r' && NATIVE_KEY[0] == 'n';
    forall p
      ensures AsksFixed(p, "root-check") <==> UnmappedPath(p) && p.owner.None? && p.codeIsh
      ensures !AsksFixed(p, "root-test:release")
    {
      WorkspaceKeysMean(p);
    }
    WorkspaceWanted(paths, packages, total, "root-check");
    WorkspaceWanted(paths, packages, total, "root-test:release");
    PlanKeysExactly(plan, paths, packages, total, "root-check");
    PlanKeysExactly(plan, paths, packages, total, "root-test:release");
  }

  lemma {:induction false} NativeNeedsNoNative()
    ensures !NeedsNative(NATIVE_KEY)
  {
    assert NATIVE_KEY[0] == 'n';
  }

  /** The native build is planned exactly for the whole workspace or for a planned key that needs the addon. */
  lemma {:induction false} NativePlanned(plan: seq<Task>, paths: seq<PathInfo>, packages: seq<Owner>, total: nat)
    requires Keys(plan) == WithProducer(AskedKeys(paths, packages, total))
    ensures NATIVE_KEY in Keys(plan) <==> WholeWorkspace(paths) || exists k | k in Keys(plan) :: NeedsNative(k)
  {
    hide Keys, AskedKeys, WithProducer, NeedsNative, Wanted, AsksFixed, WholeWorkspace;
    NativeNeedsNoNative();
    forall p ensures !AsksFixed(p, NATIVE_KEY) { WorkspaceKeysMean(p); }
    WorkspaceWanted(paths, packages, total, NATIVE_KEY);
    PlanKeysExactly(plan, paths, packages, total, NATIVE_KEY);
    if k :| k in Keys(plan) && NeedsNative(k) { PlanKeysExactly(plan, paths, packages, total, k); }
  }
}
