/** The pull-request planner: an insertion-ordered task map filled path by path. */
module AffectedPlan {
  import opened Common
  import opened AffectedTask

  const GATE_TEST := "packages/coding-agent/test/docs-index-lazy.test.ts"
  const CODING_AGENT := "@gajae-code/coding-agent"
  const CODING_AGENT_DIR := "packages/coding-agent"

  /** A workspace package as the planner sees it: its directory and which scripts it has. */
  datatype Owner = Owner(name: string, dir: string, hasCheck: bool, hasTest: bool)

  /** What the path predicates and the test index say about one changed path. */
  datatype PathInfo = PathInfo(
    doc: bool, embeddedDocs: bool, packageJson: bool, fullWorkspace: bool, workflow: bool, ciHarness: bool,
    rust: bool, python: bool, install: bool, releasePublish: bool, releaseHarness: bool, wrapper: bool,
    bridgeClient: bool, shardOne: bool, agentRuntime: bool, darwinSmoke: bool, codeIsh: bool,
    mappedTests: seq<string>, behavioralTests: seq<string>, owner: Option<Owner>)

  // ---------------------------------------------------------------- plans built by add

  function Keys(tasks: seq<Task>): set<string> { set t | t in tasks :: t.key }

  /** Keys of build tasks begin with "ts-build:" or "cargo-build:"; planner keys begin otherwise. */
  predicate LegacyKey(key: string) {
    |key| >= 2 && !(key[0] == 't' && key[1] == 's') && !(key[0] == 'c' && key[1] == 'a')
  }

  /** Only the keys of the Python tasks begin with this letter. */
  predicate PythonKey(key: string) { key != "" && key[0] == 'p' }

  predicate LegacyTask(dirs: set<string>, t: Task) {
    t.identity.None? && LegacyKey(t.key) && (t.phase.Some? ==> t.capabilities.Some?)
    && (t.phase == Some(PythonPhase) <==> PythonKey(t.key))
    && (t.cwd.Some? ==> t.cwd.value in dirs)
    && (t.capabilities.Some? ==> !IsNativeBuildKey(t.key) && !t.capabilities.value.nativeProducer
                                 && t.capabilities.value.nativeConsumer == NeedsNative(t.key))
  }

  predicate LegacyPlan(dirs: set<string>, tasks: seq<Task>) {
    DistinctKeys(tasks) && forall t | t in tasks :: LegacyTask(dirs, t)
  }

  /** A map entry is set only when its key is absent; the first task under a key stays. */
  function Put(tasks: seq<Task>, t: Task): seq<Task> {
    if t.key in Keys(tasks) then tasks else tasks + [t]
  }

  lemma {:induction false} PutKeepsKeys(tasks: seq<Task>, t: Task)
    ensures DistinctKeys(tasks) ==> DistinctKeys(Put(tasks, t))
    ensures Keys(Put(tasks, t)) == Keys(tasks) + {t.key} && tasks <= Put(tasks, t)
  {
    if t.key !in Keys(tasks) {
      forall i | 0 <= i < |tasks| ensures tasks[i].key != t.key { assert tasks[i].key in Keys(tasks); }
    }
  }

  lemma {:induction false} PutKeepsPlan(dirs: set<string>, tasks: seq<Task>, t: Task)
    requires LegacyPlan(dirs, tasks) && LegacyTask(dirs, t)
    ensures LegacyPlan(dirs, Put(tasks, t))
  {
    hide LegacyTask, DistinctKeys;
    PutKeepsKeys(tasks, t);
  }

  function TestKey(name: string): string { "test:" + name }

  function CheckKey(name: string): string { "check:" + name }

  function Digit(n: nat): char
    requires n < 10
  {
    "0123456789"[n]
  }

  function Decimal(n: nat): string {
    if n < 10 then [Digit(n)] else Decimal(n / 10) + [Digit(n % 10)]
  }

  function ShardName(shard: nat, total: nat): string {
    CODING_AGENT + ":shard-" + Decimal(shard) + "-of-" + Decimal(total)
  }

  predicate OwnerDirKnown(dirs: set<string>, o: Owner) { o.dir in dirs }

  /** The directories a path's tasks would run in are among the known ones. */
  predicate PathDirsKnown(dirs: set<string>, p: PathInfo) {
    CODING_AGENT_DIR in dirs && (p.owner.Some? ==> OwnerDirKnown(dirs, p.owner.value))
  }

  lemma {:induction false} PythonNeeds()
    ensures NeedsNative("python-test") && !NeedsNative("python-check") && !NeedsNative("python-build-smoke")
  {
    var check, smoke := "python-check", "python-build-smoke";
    assert check[0] == 'p' && check[7] == 'c' && smoke[0] == 'p' && smoke[7] == 'b';
  }

  /** The tasks map that the planners fill. */
  class TaskMap {
    ghost const dirs: set<string>
    var tasks: seq<Task>

    constructor (ghost dirs: set<string>)
      ensures this.dirs == dirs && tasks == []
    {
      this.dirs := dirs;
      tasks := [];
    }

    method Add(key: string, description: string, command: seq<string>, cwd: Option<string>,
               capabilities: Option<Capabilities>, phase: Option<Phase>)
      modifies this
      ensures tasks == Put(old(tasks), Task(key, None, description, command, cwd, capabilities, phase))
      ensures Keys(tasks) == old(Keys(tasks)) + {key} && old(tasks) <= tasks
      ensures old(DistinctKeys(tasks)) ==> DistinctKeys(tasks)
      ensures old(LegacyPlan(dirs, tasks)) && LegacyTask(dirs,
              Task(key, None, description, command, cwd, capabilities, phase))
              ==> LegacyPlan(dirs, tasks)
    {
      hide LegacyTask;
      var t := Task(key, None, description, command, cwd, capabilities, phase);
      PutKeepsKeys(tasks, t);
      if LegacyPlan(dirs, tasks) && LegacyTask(dirs, t) { PutKeepsPlan(dirs, tasks, t); }
      if key !in Keys(tasks) { tasks := tasks + [t]; }
    }

    method AddPlain(key: string, description: string, command: seq<string>)
      requires LegacyPlan(dirs, tasks) && LegacyKey(key) && !PythonKey(key)
      modifies this
      ensures LegacyPlan(dirs, tasks) && Keys(tasks) == old(Keys(tasks)) + {key} && old(tasks) <= tasks
    {
      hide LegacyPlan, Keys, Put;
      Add(key, description, command, None, None, None);
    }

    method AddAt(key: string, description: string, command: seq<string>, dir: string)
      requires LegacyPlan(dirs, tasks) && LegacyKey(key) && !PythonKey(key) && dir in dirs
      modifies this
      ensures LegacyPlan(dirs, tasks) && Keys(tasks) == old(Keys(tasks)) + {key} && old(tasks) <= tasks
    {
      hide LegacyPlan, Keys, Put;
      Add(key, description, command, Some(dir), None, None);
    }

    method AddNativeBuild()
      requires LegacyPlan(dirs, tasks)
      modifies this
      ensures LegacyPlan(dirs, tasks) && Keys(tasks) == old(Keys(tasks)) + {NATIVE_KEY} && old(tasks) <= tasks
    {
      hide LegacyPlan, Keys;
      AddPlain(NATIVE_KEY, "Build linux x64 native addons", ["bash", "-lc",
          "TARGET_VARIANTS=\"baseline modern\" bun scripts/ci-build-native.ts"]);
    }

    method AddTestFile(testFile: string)
      requires LegacyPlan(dirs, tasks)
      modifies this
      ensures LegacyPlan(dirs, tasks) && Keys(tasks) == old(Keys(tasks)) + {TestKey(testFile)} && old(tasks) <= tasks
    {
      hide LegacyPlan, Keys;
      AddPlain(TestKey(testFile), "Test " + testFile, ["bun", "test", testFile]);
    }

    method AddTestFiles(testFiles: seq<string>)
      requires LegacyPlan(dirs, tasks)
      modifies this
      ensures LegacyPlan(dirs, tasks) && Keys(tasks) == old(Keys(tasks)) + TestKeys(testFiles) && old(tasks) <= tasks
    {
      hide LegacyPlan, Keys;
      for i := 0 to |testFiles|
        invariant LegacyPlan(dirs, tasks) && Keys(tasks) == old(Keys(tasks)) + TestKeys(testFiles[..i])
                  && old(tasks) <= tasks
      {
        assert testFiles[..i + 1] == testFiles[..i] + [testFiles[i]];
        AddTestFile(testFiles[i]);
      }
      assert testFiles[..|testFiles|] == testFiles;
    }

    method AddShard(shard: nat, total: nat)
      requires LegacyPlan(dirs, tasks) && CODING_AGENT_DIR in dirs
      modifies this
      ensures LegacyPlan(dirs, tasks) && Keys(tasks) == old(Keys(tasks)) + {TestKey(ShardName(shard, total))}
              && old(tasks) <= tasks
    {
      hide LegacyPlan, Keys;
      AddAt(TestKey(ShardName(shard, total)), "Test " + CODING_AGENT + " shard " + Decimal(shard) + "/"
          + Decimal(total),
            ["bun", "test", "--shard=" + Decimal(shard) + "/" + Decimal(total)], CODING_AGENT_DIR);
    }

    method AddCheck(owner: Owner)
      requires LegacyPlan(dirs, tasks) && owner.dir in dirs
      modifies this
      ensures LegacyPlan(dirs, tasks) && Keys(tasks) == old(Keys(tasks)) + {CheckKey(owner.name)} && old(tasks) <= tasks
    {
      hide LegacyPlan, Keys;
      AddAt(CheckKey(owner.name), "Check " + owner.name, ["bun", "run", "check"], owner.dir);
    }

    method AddPackageTests(owner: Owner, total: nat)
      requires LegacyPlan(dirs, tasks) && owner.dir in dirs && CODING_AGENT_DIR in dirs
      modifies this
      ensures LegacyPlan(dirs, tasks) && Keys(tasks) == old(Keys(tasks)) + PackageTestKeys(owner, total)
              && old(tasks) <= tasks
    {
      hide LegacyPlan, Keys;
      if owner.name != CODING_AGENT {
        AddAt(TestKey(owner.name), "Test " + owner.name, ["bun", "run", "test"], owner.dir);
        return;
      }
      for shard := 0 to total
        invariant LegacyPlan(dirs, tasks) && Keys(tasks) == old(Keys(tasks)) + ShardKeys(shard, total)
                  && old(tasks) <= tasks
      {
        AddShard(shard + 1, total);
      }
    }

    method AddWorkspaceTests(packages: seq<Owner>, total: nat)
      requires LegacyPlan(dirs, tasks) && CODING_AGENT_DIR in dirs
               && forall i | 0 <= i < |packages| :: OwnerDirKnown(dirs, packages[i])
      modifies this
      ensures LegacyPlan(dirs, tasks) && Keys(tasks) == old(Keys(tasks)) + WorkspaceTestKeys(packages, total)
              && old(tasks) <= tasks
    {
      hide LegacyPlan, Keys, PackageTestKeys;
      AddPlain("root-test:release", "Root release contract tests", ["bun", "run", "test:release"]);
      for i := 0 to |packages|
        invariant LegacyPlan(dirs, tasks) && Keys(tasks) == old(Keys(tasks)) + WorkspaceTestKeys(packages[..i], total)
                  && old(tasks) <= tasks
      {
        assert packages[..i + 1][..i] == packages[..i];
        assert OwnerDirKnown(dirs, packages[i]);
        if packages[i].hasTest { AddPackageTests(packages[i], total); }
      }
      assert packages[..|packages|] == packages;
    }

    method AddPythonTasks()
      requires LegacyPlan(dirs, tasks)
      modifies this
      ensures LegacyPlan(dirs, tasks) && Keys(tasks) == old(Keys(tasks)) + PYTHON_KEYS && old(tasks) <= tasks
    {
      hide LegacyPlan, Keys, Put, NeedsNative;
      PythonNeeds();
      Add("python-check", "Python SDK type check", ["bun", "run", "check:py-sdk"], None,
          Some(Capabilities(false, false, false, false)), Some(PythonPhase));
      Add("python-test", "Python SDK tests", ["bun", "run", "test:py-sdk"], None,
          Some(Capabilities(false, false, true, false)), Some(PythonPhase));
      Add("python-build-smoke", "Python SDK build smoke", ["bun", "run", "ci:test:py-sdk-build"], None,
          Some(Capabilities(false, false, false, false)), Some(PythonPhase));
    }

    method AddReleasePublishTasks()
      requires LegacyPlan(dirs, tasks)
      modifies this
      ensures LegacyPlan(dirs, tasks) && Keys(tasks) == old(Keys(tasks)) + RELEASE_KEYS && old(tasks) <= tasks
    {
      hide LegacyPlan, Keys;
      AddPlain("release-publish-contract", "Release publish contract tests", ["bun", "run", "test:release"]);
      AddPlain("release-publish-dry-run", "Release publish dry-run",
               ["bun", "scripts/ci-release-publish.ts", "--dry-run"]);
      AddTestFile("scripts/release-evidence.test.ts");
    }

    method VisitUnmapped(p: PathInfo)
      requires LegacyPlan(dirs, tasks) && PathDirsKnown(dirs, p)
      modifies this
      ensures LegacyPlan(dirs, tasks) && Keys(tasks) == old(Keys(tasks)) + UnmappedKeys(p) && old(tasks) <= tasks
    {
      hide LegacyPlan, Keys, OwnerCheck;
      if p.owner.Some? {
        AddOwnerCheck(p);
        if p.agentRuntime { AddPlain("cli-smoke", "GJC CLI smoke test", ["bun", "run", "ci:test:smoke"]); }
        if p.wrapper { AddWrapperVersion(); }
        return;
      }
      if p.codeIsh { AddRootCheck(); }
    }

    method AddRootCheck()
      requires LegacyPlan(dirs, tasks)
      modifies this
      ensures LegacyPlan(dirs, tasks) && Keys(tasks) == old(Keys(tasks)) + {"root-check"} && old(tasks) <= tasks
    {
      hide LegacyPlan, Keys;
      AddPlain("root-check", "Root TypeScript/tooling check", ["bun", "run", "ci:check:full"]);
    }

    method AddWrapperVersion()
      requires LegacyPlan(dirs, tasks)
      modifies this
      ensures LegacyPlan(dirs, tasks) && Keys(tasks) == old(Keys(tasks)) + {"wrapper-version"} && old(tasks) <= tasks
    {
      hide LegacyPlan, Keys;
      AddPlain("wrapper-version", "Unscoped wrapper CLI version smoke",
               ["bun", "packages/gajae-code/bin/gjc.js", "--version"]);
    }

    method AddInstallMethods()
      requires LegacyPlan(dirs, tasks)
      modifies this
      ensures LegacyPlan(dirs, tasks) && Keys(tasks) == old(Keys(tasks)) + {"install-methods"} && old(tasks) <= tasks
    {
      hide LegacyPlan, Keys;
      AddPlain("install-methods", "Install method smoke tests", ["bun", "run", "ci:test:install-methods"]);
    }

    method VisitPublishing(p: PathInfo)
      requires LegacyPlan(dirs, tasks) && PathDirsKnown(dirs, p)
      modifies this
      ensures LegacyPlan(dirs, tasks) && Keys(tasks) == old(Keys(tasks)) + PublishingKeys(p) && old(tasks) <= tasks
    {
      hide LegacyPlan, Keys, OwnerCheck;
      if p.releasePublish {
        AddReleasePublishTasks();
        if p.wrapper { AddWrapperVersion(); }
      }
      if p.bridgeClient {
        AddPlain("bridge-client-sdk-package-smoke", "Bridge-client SDK package smoke",
                 ["bun", "packages/coding-agent/scripts/build-sdk-package-smoke.ts"]);
        AddOwnerCheck(p);
      }
    }

    method AddOwnerCheck(p: PathInfo)
      requires LegacyPlan(dirs, tasks) && PathDirsKnown(dirs, p)
      modifies this
      ensures LegacyPlan(dirs, tasks) && Keys(tasks) == old(Keys(tasks)) + OwnerCheck(p.owner) && old(tasks) <= tasks
    {
      hide LegacyPlan, Keys;
      if p.owner.Some? && p.owner.value.hasCheck { AddCheck(p.owner.value); }
    }

    method VisitSource(p: PathInfo, total: nat)
      requires LegacyPlan(dirs, tasks) && PathDirsKnown(dirs, p)
      modifies this
      ensures LegacyPlan(dirs, tasks) && Keys(tasks) == old(Keys(tasks)) + SourceKeys(p, total) && old(tasks) <= tasks
    {
      hide LegacyPlan, Keys, TestKeys, UnmappedKeys, PublishingKeys;
      VisitPublishing(p);
      AddTestFiles(p.mappedTests);
      AddTestFiles(p.behavioralTests);
      if p.shardOne { AddShard(1, total); }
      if |p.mappedTests| > 0 { return; }
      VisitUnmapped(p);
    }

    method VisitPath(p: PathInfo, total: nat)
      requires LegacyPlan(dirs, tasks) && PathDirsKnown(dirs, p)
      modifies this
      ensures LegacyPlan(dirs, tasks) && Keys(tasks) == old(Keys(tasks)) + ImmediateKeys(p, total)
              && old(tasks) <= tasks
    {
      hide LegacyPlan, Keys, TestKeys, SourceKeys;
      if p.fullWorkspace || p.workflow || p.ciHarness { return; }
      if p.rust {
        AddPlain("rust-check", "Rust check", ["bun", "run", "check:rs"]);
        AddPlain("rust-test", "Rust tests", ["bun", "run", "test:rs"]);
        AddTestFiles(p.behavioralTests);
        return;
      }
      if p.python { AddPythonTasks(); return; }
      if p.install { AddInstallMethods(); return; }
      VisitSource(p, total);
    }

    /** Add the producer when something consumes it and nothing provides it. */
    method EnsureNativeBuild()
      requires LegacyPlan(dirs, tasks)
      modifies this
      ensures LegacyPlan(dirs, tasks) && Keys(tasks) == WithProducer(old(Keys(tasks))) && old(tasks) <= tasks
    {
      hide LegacyPlan, NeedsNative;
      var consumes, produces := false, false;
      for i := 0 to |tasks|
        invariant consumes <==> exists t | t in tasks[..i] :: NeedsNative(t.key)
        invariant produces <==> exists t | t in tasks[..i] :: IsNativeBuildKey(t.key)
        invariant tasks == old(tasks)
      {
        assert tasks[..i + 1] == tasks[..i] + [tasks[i]];
        consumes := consumes || NeedsNative(tasks[i].key);
        produces := produces || IsNativeBuildKey(tasks[i].key);
      }
      assert tasks[..|tasks|] == tasks;
      KeyQuantifiers(tasks);
      if consumes && !produces { AddNativeBuild(); }
    }
  }

  lemma {:induction false} KeyQuantifiers(tasks: seq<Task>)
    ensures (exists t | t in tasks :: NeedsNative(t.key)) <==> Consumes(Keys(tasks))
    ensures (exists t | t in tasks :: IsNativeBuildKey(t.key)) <==> Produces(Keys(tasks))
  {
    hide NeedsNative;
    if exists t | t in tasks :: NeedsNative(t.key) {
      var t :| t in tasks && NeedsNative(t.key);
      assert t.key in Keys(tasks);
    }
    if exists t | t in tasks :: IsNativeBuildKey(t.key) {
      var t :| t in tasks && IsNativeBuildKey(t.key);
      assert t.key in Keys(tasks);
    }
  }

  // ---------------------------------------------------------------- the keys a set of changed paths asks for

  const PYTHON_KEYS: set<string> := {"python-check", "python-test", "python-build-smoke"}
  const RELEASE_KEYS: set<string> := {"release-publish-contract", "release-publish-dry-run",
                                      TestKey("scripts/release-evidence.test.ts")}
  const SELFTEST_KEYS: set<string> := {"ci-selftest", "ci-dry-run"}

  predicate Consumes(keys: set<string>) { exists k | k in keys :: NeedsNative(k) }

  predicate Produces(keys: set<string>) { exists k | k in keys :: IsNativeBuildKey(k) }

  function WithProducer(keys: set<string>): set<string> {
    if Consumes(keys) && !Produces(keys) then keys + {NATIVE_KEY} else keys
  }

  function TestKeys(names: seq<string>): set<string> { set n | n in names :: TestKey(n) }

  function ShardKeys(count: nat, total: nat): set<string> {
    if count == 0 then {} else ShardKeys(count - 1, total) + {TestKey(ShardName(count, total))}
  }

  function PackageTestKeys(owner: Owner, total: nat): set<string> {
    if owner.name != CODING_AGENT then {TestKey(owner.name)} else ShardKeys(total, total)
  }

  function WorkspaceTestKeys(packages: seq<Owner>, total: nat): set<string> {
    if packages == [] then {"root-test:release"}
    else
      var last := packages[|packages| - 1];
      WorkspaceTestKeys(packages[..|packages| - 1], total) + if last.hasTest then PackageTestKeys(last, total) else {}
  }

  function If(condition: bool, keys: set<string>): set<string> { if condition then keys else {} }

  function OwnerCheck(owner: Option<Owner>): set<string> {
    if owner.Some? && owner.value.hasCheck then {CheckKey(owner.value.name)} else {}
  }

  /** Keys asked for by a path that no test maps to. */
  function UnmappedKeys(p: PathInfo): set<string> {
    if p.owner.Some? then
      OwnerCheck(p.owner) + If(p.agentRuntime, {"cli-smoke"}) + If(p.wrapper, {"wrapper-version"})
    else If(p.codeIsh, {"root-check"})
  }

  function PublishingKeys(p: PathInfo): set<string> {
    If(p.releasePublish, RELEASE_KEYS + If(p.wrapper, {"wrapper-version"}))
    + If(p.bridgeClient, {"bridge-client-sdk-package-smoke"} + OwnerCheck(p.owner))
  }

  /** Keys a source path asks for. */
  function SourceKeys(p: PathInfo, total: nat): set<string> {
    PublishingKeys(p)
    + TestKeys(p.mappedTests) + TestKeys(p.behavioralTests)
    + If(p.shardOne, {TestKey(ShardName(1, total))})
    + If(p.mappedTests == [], UnmappedKeys(p))
  }

  /** Keys added while the path is visited. */
  function ImmediateKeys(p: PathInfo, total: nat): set<string> {
    if p.fullWorkspace || p.workflow || p.ciHarness then {}
    else if p.rust then {"rust-check", "rust-test"} + TestKeys(p.behavioralTests)
    else if p.python then PYTHON_KEYS
    else if p.install then {"install-methods"}
    else SourceKeys(p, total)
  }

  predicate AsksYaml(p: PathInfo) { !p.fullWorkspace && p.workflow }

  predicate AsksSelftest(p: PathInfo) { !p.fullWorkspace && (p.workflow || p.ciHarness) }

  predicate ReleaseHarnessOnly(paths: seq<PathInfo>) {
    (exists i | 0 <= i < |paths| :: paths[i].packageJson)
    && forall i | 0 <= i < |paths| ::
         paths[i].packageJson || paths[i].releasePublish || paths[i].releaseHarness || paths[i].wrapper
  }

  predicate FullWorkspace(paths: seq<PathInfo>) {
    (exists i | 0 <= i < |paths| :: paths[i].fullWorkspace) && !ReleaseHarnessOnly(paths)
  }

  function Relevant(paths: seq<PathInfo>): seq<PathInfo> {
    if paths == [] then []
    else Relevant(paths[..|paths| - 1]) + if paths[|paths| - 1].doc then [] else [paths[|paths| - 1]]
  }

  function AllImmediate(paths: seq<PathInfo>, total: nat): set<string> {
    if paths == [] then {} else AllImmediate(paths[..|paths| - 1], total) + ImmediateKeys(paths[|paths| - 1], total)
  }

  function FullKeys(relevant: seq<PathInfo>, packages: seq<Owner>, total: nat): set<string> {
    If(FullWorkspace(relevant), {"root-check", NATIVE_KEY} + WorkspaceTestKeys(packages, total))
  }

  predicate AnyDarwin(ps: seq<PathInfo>) { exists i | 0 <= i < |ps| :: ps[i].darwinSmoke }

  predicate AnySelftest(ps: seq<PathInfo>) { exists i | 0 <= i < |ps| :: AsksSelftest(ps[i]) }

  predicate AnyYaml(ps: seq<PathInfo>) { exists i | 0 <= i < |ps| :: AsksYaml(ps[i]) }

  predicate AnyDocs(ps: seq<PathInfo>) { exists i | 0 <= i < |ps| :: ps[i].embeddedDocs }

  /** Keys that the planner adds once, after the paths. */
  function Deferred(relevant: seq<PathInfo>): set<string> {
    If(AnyDarwin(relevant), {"install-methods"})
    + If(AnySelftest(relevant), SELFTEST_KEYS + {"workflow-permissions"})
    + If(AnyYaml(relevant), {"yaml-parse"})
  }

  /** Everything the plan holds besides a producer added for its own sake. */
  function AskedKeys(paths: seq<PathInfo>, packages: seq<Owner>, total: nat): set<string> {
    var relevant := Relevant(paths);
    If(AnyDocs(paths), {TestKey(GATE_TEST)})
    + FullKeys(relevant, packages, total)
    + AllImmediate(relevant, total)
    + Deferred(relevant)
  }

  // ---------------------------------------------------------------- the planner

  method FilterRelevant(paths: seq<PathInfo>) returns (relevant: seq<PathInfo>)
    ensures relevant == Relevant(paths)
  {
    relevant := [];
    for i := 0 to |paths|
      invariant relevant == Relevant(paths[..i])
    {
      assert paths[..i + 1][..i] == paths[..i];
      if !paths[i].doc { relevant := relevant + [paths[i]]; }
    }
    assert paths[..|paths|] == paths;
  }

  lemma {:induction false} InRelevant(paths: seq<PathInfo>, p: PathInfo)
    ensures p in Relevant(paths) <==> p in paths && !p.doc
  {
    if paths != [] {
      var n := |paths| - 1;
      InRelevant(paths[..n], p);
      assert paths == paths[..n] + [paths[n]];
    }
  }

  /** The directories that tasks of a plan may run in. */
  function PlanDirs(paths: seq<PathInfo>, packages: seq<Owner>): set<string> {
    {CODING_AGENT_DIR}
    + (set p | p in packages :: p.dir)
    + (set p | p in paths && p.owner.Some? :: p.owner.value.dir)
  }

  lemma {:induction false} KnownDirs(paths: seq<PathInfo>, packages: seq<Owner>)
    ensures forall i | 0 <= i < |paths| :: PathDirsKnown(PlanDirs(paths, packages), paths[i])
    ensures forall i | 0 <= i < |packages| :: OwnerDirKnown(PlanDirs(paths, packages), packages[i])
    ensures CODING_AGENT_DIR in PlanDirs(paths, packages)
  {
    forall i | 0 <= i < |paths| ensures PathDirsKnown(PlanDirs(paths, packages), paths[i]) { assert paths[i] in paths; }
    forall i | 0 <= i < |packages|
      ensures OwnerDirKnown(PlanDirs(paths, packages), packages[i])
    {
      assert packages[i] in packages;
    }
  }

  /** The targeted plan holds exactly the keys its paths ask for, and a producer when one is needed. */
  method PlanTargetedTasks(paths: seq<PathInfo>, packages: seq<Owner>, total: nat) returns (plan: seq<Task>)
    ensures LegacyPlan(PlanDirs(paths, packages), plan)
    ensures Keys(plan) == WithProducer(AskedKeys(paths, packages, total))
  {
    hide LegacyPlan, Keys, WithProducer, FullWorkspace, WorkspaceTestKeys, AllImmediate, Relevant, PathDirsKnown,
      AnyDocs, Deferred, PlanDirs, OwnerDirKnown;
    ghost var dirs := PlanDirs(paths, packages);
    KnownDirs(paths, packages);
    var map_ := new TaskMap(dirs);
    EmptyPlan(dirs);
    var relevant := FilterRelevant(paths);
    forall i | 0 <= i < |relevant|
      ensures PathDirsKnown(dirs, relevant[i])
    {
      RelevantDirsKnown(dirs, paths, relevant[i]);
    }
    ghost var gate := If(AnyDocs(paths), {TestKey(GATE_TEST)});
    if AnyDocs(paths) { map_.AddTestFile(GATE_TEST); }
    assert Keys(map_.tasks) == gate;
    if |relevant| == 0 {
      NothingRelevant(paths, packages, total);
      map_.EnsureNativeBuild();
      return map_.tasks;
    }
    ghost var full := FullKeys(relevant, packages, total);
    AddFullWorkspace(map_, relevant, packages, total);
    var needCiSelftest, needYamlParse, needPermissionCheck := VisitRelevant(map_, relevant, total, gate + full);
    AddDeferred(map_, relevant, needCiSelftest, needYamlParse, needPermissionCheck);
    map_.EnsureNativeBuild();
    return map_.tasks;
  }

  method AddFullWorkspace(map_: TaskMap, relevant: seq<PathInfo>, packages: seq<Owner>, total: nat)
    requires LegacyPlan(map_.dirs, map_.tasks) && CODING_AGENT_DIR in map_.dirs
    requires forall i | 0 <= i < |packages| :: OwnerDirKnown(map_.dirs, packages[i])
    modifies map_
    ensures LegacyPlan(map_.dirs, map_.tasks)
    ensures Keys(map_.tasks) == old(Keys(map_.tasks)) + FullKeys(relevant, packages, total)
  {
    hide LegacyPlan, Keys, WorkspaceTestKeys, FullWorkspace;
    if FullWorkspace(relevant) {
      map_.AddRootCheck();
      map_.AddNativeBuild();
      map_.AddWorkspaceTests(packages, total);
    }
  }

  lemma {:induction false} AnyStep(ps: seq<PathInfo>, i: nat)
    requires i < |ps|
    ensures AnySelftest(ps[..i + 1]) <==> AnySelftest(ps[..i]) || AsksSelftest(ps[i])
    ensures AnyYaml(ps[..i + 1]) <==> AnyYaml(ps[..i]) || AsksYaml(ps[i])
  {
    hide AsksSelftest, AsksYaml;
    var small, large := ps[..i], ps[..i + 1];
    assert large == small + [ps[i]];
    if AnySelftest(small) {
      var k :| 0 <= k < i && AsksSelftest(small[k]);
      assert large[k] == small[k];
    }
    if AnyYaml(small) {
      var k :| 0 <= k < i && AsksYaml(small[k]);
      assert large[k] == small[k];
    }
    assert large[i] == ps[i];
  }

  lemma {:induction false} ImmediateStep(ps: seq<PathInfo>, total: nat, i: nat)
    requires i < |ps|
    ensures AllImmediate(ps[..i + 1], total) == AllImmediate(ps[..i], total) + ImmediateKeys(ps[i], total)
  {
    hide ImmediateKeys;
    assert ps[..i + 1][..i] == ps[..i];
  }

  /** The path loop with its three flags. */
  method VisitRelevant(map_: TaskMap, relevant: seq<PathInfo>, total: nat, ghost base: set<string>)
    returns (needCiSelftest: bool, needYamlParse: bool, needPermissionCheck: bool)
    requires LegacyPlan(map_.dirs, map_.tasks) && Keys(map_.tasks) == base
    requires forall i | 0 <= i < |relevant| :: PathDirsKnown(map_.dirs, relevant[i])
    modifies map_
    ensures LegacyPlan(map_.dirs, map_.tasks) && Keys(map_.tasks) == base + AllImmediate(relevant, total)
    ensures needCiSelftest == needPermissionCheck == AnySelftest(relevant)
    ensures needYamlParse == AnyYaml(relevant)
  {
    hide LegacyPlan, Keys, ImmediateKeys, PathDirsKnown, AnySelftest, AnyYaml, AllImmediate;
    needCiSelftest, needYamlParse, needPermissionCheck := false, false, false;
    NoPaths(total);
    for i := 0 to |relevant|
      invariant LegacyPlan(map_.dirs, map_.tasks) && Keys(map_.tasks) == base + AllImmediate(relevant[..i], total)
      invariant needCiSelftest == needPermissionCheck == AnySelftest(relevant[..i])
      invariant needYamlParse == AnyYaml(relevant[..i])
    {
      AnyStep(relevant, i);
      ImmediateStep(relevant, total, i);
      var p := relevant[i];
      if !p.fullWorkspace && p.workflow {
        needYamlParse, needCiSelftest, needPermissionCheck := true, true, true;
      } else if !p.fullWorkspace && p.ciHarness {
        needCiSelftest, needPermissionCheck := true, true;
      }
      map_.VisitPath(p, total);
    }
    assert relevant[..|relevant|] == relevant;
  }

  lemma {:induction false} NoPaths(total: nat)
    ensures AllImmediate([], total) == {} && !AnySelftest([]) && !AnyYaml([])
  {
  }

  method AddDeferred(map_: TaskMap, relevant: seq<PathInfo>, needCiSelftest: bool, needYamlParse: bool,
                     needPermissionCheck: bool)
    requires LegacyPlan(map_.dirs, map_.tasks)
    requires needCiSelftest == needPermissionCheck == AnySelftest(relevant)
    requires needYamlParse == AnyYaml(relevant)
    modifies map_
    ensures LegacyPlan(map_.dirs, map_.tasks)
    ensures Keys(map_.tasks) == old(Keys(map_.tasks)) + Deferred(relevant)
  {
    hide LegacyPlan, Keys, AnyDarwin, AnySelftest, AnyYaml;
    if AnyDarwin(relevant) { map_.AddInstallMethods(); }
    if needCiSelftest { AddSelftest(map_); }
    if needYamlParse {
      map_.AddPlain("yaml-parse", "Workflow YAML parse check", ["bun", "scripts/check-workflow-yaml.ts"]);
    }
    if needPermissionCheck {
      map_.AddPlain("workflow-permissions", "Workflow permission policy regression",
                    ["bun", "test", "scripts/check-workflow-permissions.test.ts", "scripts/release-policy.test.ts"]);
    }
  }

  method AddSelftest(map_: TaskMap)
    requires LegacyPlan(map_.dirs, map_.tasks)
    modifies map_
    ensures LegacyPlan(map_.dirs, map_.tasks) && Keys(map_.tasks) == old(Keys(map_.tasks)) + SELFTEST_KEYS
  {
    hide LegacyPlan, Keys;
    map_.AddPlain("ci-selftest", "Affected CI selector unit tests",
                  ["bun", "test", "scripts/ci-dev-affected.test.ts", "scripts/dev-ci-guard-topology.test.ts"]);
    map_.AddPlain("ci-dry-run", "Affected CI selector dry-run", ["bun", "scripts/ci-dev-affected.ts", "--dry-run"]);
  }

  lemma {:induction false} EmptyPlan(dirs: set<string>)
    ensures LegacyPlan(dirs, []) && Keys([]) == {}
  {
  }

  lemma {:induction false} RelevantDirsKnown(dirs: set<string>, paths: seq<PathInfo>, p: PathInfo)
    requires forall i | 0 <= i < |paths| :: PathDirsKnown(dirs, paths[i])
    requires p in Relevant(paths)
    ensures PathDirsKnown(dirs, p)
  {
    InRelevant(paths, p);
  }

  lemma {:induction false} NothingRelevant(paths: seq<PathInfo>, packages: seq<Owner>, total: nat)
    requires Relevant(paths) == []
    ensures AskedKeys(paths, packages, total) == If(AnyDocs(paths), {TestKey(GATE_TEST)})
  {
  }
}
