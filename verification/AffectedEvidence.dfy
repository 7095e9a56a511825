/** The two-file evidence protocol: a manifest, and a detached receipt that binds its bytes. */
module AffectedEvidence {
  import opened Common
  import opened AffectedTask
  import opened AffectedPlan

  type Bytes = seq<byte>

  datatype Mode = PullRequest | Push

  datatype Replay = Replay(repository: string, workflow: string, runId: string)

  datatype Aggregate = Aggregate(
    plan: string, native: string, shards: string, python: string,
    windowsDoctor: string, windowsDoctorRequired: string,
    windowsNativeToolchain: string, windowsNativeToolchainRequired: string,
    telegramGuard: string, telegramGuardRequired: string,
    telegramWindows: string, telegramWindowsRequired: string,
    hasNative: string, hasTasks: string, hasPython: string,
    darwinSmoke: string, darwinSmokeRequired: string)

  datatype Child = Child(name: string, sha256: string)

  datatype Manifest = Manifest(
    sourceSha: string, planDigest: string, mode: Mode, replay: Replay, aggregate: Aggregate,
    tasks: seq<Shard>, children: seq<Child>)

  datatype Receipt = Receipt(manifestSha256: string, sourceSha: string, planDigest: string, replay: Replay)

  datatype PlanFile = PlanFile(sourceSha: string, mode: Mode, records: seq<Record>)

  /**
   * Text formats and the digest, as the JSON and hash libraries provide them; `isDigest` is the digest's own format
   * test.
   */
  datatype World = World(
    digest: Bytes -> string, isDigest: string -> bool,
    printManifest: Manifest -> Bytes, readManifest: Bytes -> Option<Manifest>,
    printReceipt: Receipt -> Bytes, readReceipt: Bytes -> Option<Receipt>,
    readPlan: Bytes -> Option<PlanFile>, readShard: Bytes -> Option<Shard>,
    taskEnv: Env)

  /** The staging root. A shard directory maps file names to contents. */
  datatype Root = Root(plan: Option<Bytes>, shardDir: Option<map<string, Bytes>>, manifest: Option<Bytes>,
                       receipt: Option<Bytes>)

  /**
   * The environment of one job. An empty text is a variable that is missing or blank; mode and aggregate are None when
   * a variable of theirs is, or when the mode is neither of the two.
   */
  datatype Live = Live(
    planSource: string, head: string, source: string, digest: string, mode: Option<Mode>,
    repository: string, workflow: string, runId: string, aggregate: Option<Aggregate>)

  /** canonicalReplayScope: all three variables are required. */
  function ReplayScope(live: Live): Option<Replay> {
    if live.repository == "" || live.workflow == "" || live.runId == "" then None
    else Some(Replay(live.repository, live.workflow, live.runId))
  }

  predicate IsHex(s: string, length: nat) {
    |s| == length && forall i | 0 <= i < |s| :: '0' <= s[i] <= '9' || 'a' <= s[i] <= 'f'
  }

  ghost predicate GoodWorld(world: World) {
    (forall a, b :: world.digest(a) == world.digest(b) ==> a == b)
    && (forall a :: world.isDigest(world.digest(a)))
    && (forall m :: world.readManifest(world.printManifest(m)) == Some(m))
    && (forall r :: world.readReceipt(world.printReceipt(r)) == Some(r))
  }

  // ---------------------------------------------------------------- aggregate results

  /** A job ran exactly when it was planned: success if its flag is true, skipped if it is false. */
  predicate RanAsPlanned(flag: string, result: string) {
    (flag == "true" && result == "success") || (flag == "false" && result == "skipped")
  }

  predicate AggregateHolds(a: Aggregate) {
    a.plan == "success"
    && RanAsPlanned(a.hasNative, a.native) && RanAsPlanned(a.hasTasks, a.shards) && RanAsPlanned(a.hasPython, a.python)
    && RanAsPlanned(a.windowsDoctorRequired, a.windowsDoctor)
    && RanAsPlanned(a.windowsNativeToolchainRequired, a.windowsNativeToolchain)
    && RanAsPlanned(a.darwinSmokeRequired, a.darwinSmoke)
    && RanAsPlanned(a.telegramGuardRequired, a.telegramGuard)
    && RanAsPlanned(a.telegramWindowsRequired, a.telegramWindows)
  }

  function Shown(b: bool): string { if b then "true" else "false" }

  predicate CapabilitiesMatch(tasks: seq<Task>, a: Aggregate) {
    a.hasNative == Shown(DeclaresNative(tasks)) && a.hasTasks == Shown(HasShards(tasks))
        && a.hasPython == Shown(HasPython(tasks))
  }

  // ---------------------------------------------------------------- plan and children

  datatype LoadedPlan = LoadedPlan(tasks: seq<Task>, raw: Bytes, mode: Mode, sourceSha: string)

  function ReadPlan(world: World, root: Root, live: Live): Result<LoadedPlan, string> {
    if root.plan.None? then Err("missing evidence object")
    else
      var file := world.readPlan(root.plan.value);
      if file.None? then Err("malformed canonical plan")
      else if live.planSource == "" || live.digest == "" then Err("missing expected digest or source SHA")
      else if file.value.sourceSha != live.planSource then Err("source SHA mismatch")
      else if live.head != live.planSource then Err("checked-out SHA mismatch")
      else if world.digest(root.plan.value) != live.digest then Err("digest mismatch")
      else
        var tasks :- LoadPlan(world.taskEnv, file.value.records);
        Ok(LoadedPlan(tasks, root.plan.value, file.value.mode, file.value.sourceSha))
  }

  function ShardFile(index: nat): string { Decimal(index) + ".json" }

  const SHARD_DIR := ".ci-dev-shard-receipts/"
  const PLAN_NAME := ".ci-dev-affected-plan.json"

  predicate IsNumbered(name: string) {
    |name| > 5 && name[|name| - 5..] == ".json" && forall i | 0 <= i < |name| - 5 :: '0' <= name[i] <= '9'
  }

  predicate DirectoryMatches(dir: Option<map<string, Bytes>>, shards: seq<Shard>) {
    if shards == [] then dir.None?
    else dir.Some? && |dir.value.Keys| == |shards| && forall name | name in dir.value :: IsNumbered(name)
  }

  predicate ShardMatches(world: World, dir: map<string, Bytes>, shards: seq<Shard>, i: nat)
    requires i < |shards|
  {
    ShardFile(i) in dir && world.readShard(dir[ShardFile(i)]) == Some(shards[i])
  }

  predicate ReceiptsMatch(world: World, dir: Option<map<string, Bytes>>, shards: seq<Shard>) {
    DirectoryMatches(dir, shards)
    && (shards != [] ==> forall i | 0 <= i < |shards| :: ShardMatches(world, dir.value, shards, i))
  }

  function ShardChildren(world: World, dir: map<string, Bytes>, count: nat): seq<Child>
    requires forall i | 0 <= i < count :: ShardFile(i) in dir
  {
    if count == 0 then []
    else ShardChildren(world, dir, count - 1) + [Child(SHARD_DIR + ShardFile(count - 1),
                                                       world.digest(dir[ShardFile(count - 1)]))]
  }

  /** The children of a plan whose receipts match it: the plan file first, then one per shard. */
  function Children(world: World, root: Root, raw: Bytes, shards: seq<Shard>): seq<Child>
    requires ReceiptsMatch(world, root.shardDir, shards)
  {
    [Child(PLAN_NAME, world.digest(raw))]
    + if shards == [] then []
      else
        ShardsAreFiles(world, root.shardDir.value, shards);
        ShardChildren(world, root.shardDir.value, |shards|)
  }

  lemma {:induction false} ShardsAreFiles(world: World, dir: map<string, Bytes>, shards: seq<Shard>)
    requires forall i | 0 <= i < |shards| :: ShardMatches(world, dir, shards, i)
    ensures forall i | 0 <= i < |shards| :: ShardFile(i) in dir
  {
    forall i | 0 <= i < |shards| ensures ShardFile(i) in dir { assert ShardMatches(world, dir, shards, i); }
  }

  // ---------------------------------------------------------------- the manifest for a root and an environment

  /** Everything the writer checks before it touches the two files. */
  predicate Ready(world: World, root: Root, live: Live) {
    var plan := ReadPlan(world, root, live);
    plan.Ok? && live.aggregate.Some? && live.mode == Some(plan.value.mode) && live.source != ""
        && ReplayScope(live).Some?
    && AggregateHolds(live.aggregate.value)
    && CapabilitiesMatch(plan.value.tasks, live.aggregate.value)
    && ReceiptsMatch(world, root.shardDir, Shards(world.taskEnv, plan.value.tasks))
  }

  function ManifestOf(world: World, root: Root, live: Live): Manifest
    requires Ready(world, root, live)
  {
    var plan := ReadPlan(world, root, live).value;
    var shards := Shards(world.taskEnv, plan.tasks);
    Manifest(live.source, live.digest, plan.mode, ReplayScope(live).value, live.aggregate.value,
             shards, Children(world, root, plan.raw, shards))
  }

  function ReceiptOf(world: World, m: Manifest): Receipt {
    Receipt(world.digest(world.printManifest(m)), m.sourceSha, m.planDigest, m.replay)
  }

  predicate CanWrite(world: World, root: Root, live: Live) {
    Ready(world, root, live) && root.manifest.None? && root.receipt.None?
  }

  /** The jobs that run on other platforms, each with the flag that requires it. */
  function PlatformJobs(a: Aggregate): seq<(string, string)> {
    [(a.windowsDoctorRequired, a.windowsDoctor), (a.windowsNativeToolchainRequired, a.windowsNativeToolchain),
     (a.darwinSmokeRequired, a.darwinSmoke), (a.telegramGuardRequired, a.telegramGuard),
     (a.telegramWindowsRequired, a.telegramWindows)]
  }

  function Demanded(planned: bool): string { if planned then "success" else "skipped" }

  /**
   * Evidence is written only when every job came out as the plan demands: a job the plan needs succeeded, any other
   * was skipped, and no platform job that is required has any result but success.
   */
  lemma {:induction false} WritersSawSuccess(world: World, root: Root, live: Live)
    requires CanWrite(world, root, live)
    ensures ReadPlan(world, root, live).Ok? && live.aggregate.Some?
    ensures var tasks, a := ReadPlan(world, root, live).value.tasks, live.aggregate.value;
            && a.plan == "success" && a.native == Demanded(DeclaresNative(tasks))
            && a.shards == Demanded(HasShards(tasks)) && a.python == Demanded(HasPython(tasks))
            && forall i | 0 <= i < 5 :: PlatformJobs(a)[i].1 == Demanded(PlatformJobs(a)[i].0 == "true")
  {
    hide ReadPlan, DeclaresNative, HasShards, HasPython, ReceiptsMatch, Shards;
    assert "true" != "false" by { assert "true"[0] == 't' && "false"[0] == 'f'; }
    var a := live.aggregate.value;
    assert |PlatformJobs(a)| == 5;
  }

  function Written(world: World, root: Root, live: Live): Root
    requires Ready(world, root, live)
  {
    var m := ManifestOf(world, root, live);
    root.(manifest := Some(world.printManifest(m)), receipt := Some(world.printReceipt(ReceiptOf(world, m))))
  }

  // ---------------------------------------------------------------- what validation reads

  predicate WellFormedManifest(world: World, m: Manifest) {
    IsHex(m.sourceSha, 40) && world.isDigest(m.planDigest)
    && m.replay.repository != "" && m.replay.workflow != "" && m.replay.runId != ""
    && (forall i | 0 <= i < |m.tasks| :: m.tasks[i].key != "" && m.tasks[i].identity != "")
    && forall i | 0 <= i < |m.children| :: world.isDigest(m.children[i].sha256)
  }

  predicate WellFormedReceipt(world: World, r: Receipt) {
    world.isDigest(r.manifestSha256) && IsHex(r.sourceSha, 40) && world.isDigest(r.planDigest)
    && r.replay.repository != "" && r.replay.workflow != "" && r.replay.runId != ""
  }

  /** Only the canonical bytes of a well-formed value are read as that value. */
  function ParseManifest(world: World, raw: Bytes): Option<Manifest> {
    var m := world.readManifest(raw);
    if m.Some? && WellFormedManifest(world, m.value) && world.printManifest(m.value) == raw then m else None
  }

  function ParseReceipt(world: World, raw: Bytes): Option<Receipt> {
    var r := world.readReceipt(raw);
    if r.Some? && WellFormedReceipt(world, r.value) && world.printReceipt(r.value) == raw then r else None
  }

  predicate Accepts(world: World, root: Root, live: Live) {
    root.receipt.Some? && root.manifest.Some?
    && var receipt := ParseReceipt(world, root.receipt.value);
       var manifest := ParseManifest(world, root.manifest.value);
       receipt.Some? && receipt.value.manifestSha256 == world.digest(root.manifest.value) && manifest.Some?
       && Bound(world, root, live, manifest.value, receipt.value)
  }

  /** The manifest and receipt say what the plan, the shard receipts and the environment say now. */
  predicate Bound(world: World, root: Root, live: Live, m: Manifest, r: Receipt) {
    var plan := ReadPlan(world, root, live);
    plan.Ok?
    && live.source != "" && live.digest != ""
    && m.sourceSha == live.source && r.sourceSha == live.source
    && m.planDigest == live.digest && r.planDigest == live.digest
    && Some(m.replay) == ReplayScope(live) && Some(r.replay) == ReplayScope(live)
    && Some(m.mode) == live.mode && m.mode == plan.value.mode && world.digest(plan.value.raw) == live.digest
    && AggregateHolds(m.aggregate) && Some(m.aggregate) == live.aggregate
    && CapabilitiesMatch(plan.value.tasks, m.aggregate)
    && m.tasks == Shards(world.taskEnv, plan.value.tasks)
    && ReceiptsMatch(world, root.shardDir, m.tasks)
    && m.children == Children(world, root, plan.value.raw, m.tasks)
  }

  // ---------------------------------------------------------------- the jobs

  /**
   * How an output step can fail. A failed write may leave anything of the file behind, even all of it; after the
   * manifest is written, the removal that follows a failure may fail as well.
   */
  datatype Fault =
    | NoFault
    | ManifestFails(left: Option<Bytes>)
    | AfterManifest(removed: bool)
    | ReceiptFails(left: Option<Bytes>, removed: bool)

  /** What is in the root after the writer met the fault. */
  function Leftover(world: World, root: Root, live: Live, fault: Fault): Root
    requires Ready(world, root, live)
  {
    var written := Written(world, root, live);
    match fault
    case NoFault => written
    case ManifestFails(left) => root.(manifest := left)
    case AfterManifest(removed) => if removed then root else root.(manifest := written.manifest)
    case ReceiptFails(left, removed) =>
      if removed then root.(receipt := left) else root.(manifest := written.manifest, receipt := left)
  }

  class Staging {
    const world: World
    var root: Root

    constructor (world: World, root: Root)
      ensures this.world == world && this.root == root
    {
      this.world := world;
      this.root := root;
    }

    method CollectChildEvidence(raw: Bytes, shards: seq<Shard>) returns (r: Result<seq<Child>, string>)
      ensures r.Ok? <==> ReceiptsMatch(world, root.shardDir, shards)
      ensures r.Ok? ==> r.value == Children(world, root, raw, shards)
    {
      hide DirectoryMatches, ShardFile;
      if !DirectoryMatches(root.shardDir, shards) { return Err("shard receipt set does not match canonical plan"); }
      var children := [Child(PLAN_NAME, world.digest(raw))];
      if shards == [] { return Ok(children); }
      DirectoryPresent(root.shardDir, shards);
      var dir := root.shardDir.value;
      for i := 0 to |shards|
        invariant forall k | 0 <= k < i :: ShardMatches(world, dir, shards, k)
        invariant forall k | 0 <= k < i :: ShardFile(k) in dir
        invariant children == [Child(PLAN_NAME, world.digest(raw))] + ShardChildren(world, dir, i)
      {
        if ShardFile(i) !in dir || world.readShard(dir[ShardFile(i)]) != Some(shards[i]) {
          assert !ShardMatches(world, dir, shards, i);
          return Err("shard receipt set does not match canonical plan");
        }
        children := children + [Child(SHARD_DIR + ShardFile(i), world.digest(dir[ShardFile(i)]))];
      }
      return Ok(children);
    }

    /** Manifest first, then the receipt over its bytes; a failure after the manifest takes the manifest away again. */
    method WriteAffectedEvidence(live: Live, fault: Fault) returns (r: Result<(), string>)
      modifies this
      ensures r.Ok? <==> CanWrite(world, old(root), live) && fault.NoFault?
      ensures root == if CanWrite(world, old(root), live) then Leftover(world, old(root), live, fault) else old(root)
    {
      hide ReadPlan, AggregateHolds, CapabilitiesMatch, ReceiptsMatch, Children, Shards;
      var plan := ReadPlan(world, root, live);
      if plan.Err? { return Err(plan.error); }
      ReadPlanBinds(world, root, live);
      if live.aggregate.None? { return Err("missing aggregate result"); }
      var results := live.aggregate.value;
      if !AggregateHolds(results) { return Err("aggregate results do not hold"); }
      // The plan loader has already required the digest variable and compared it with the plan's bytes.
      if live.mode.None? { return Err("missing CI_DEV_PLAN_MODE"); }
      if live.mode.value != plan.value.mode { return Err("plan mode mismatch"); }
      if !CapabilitiesMatch(plan.value.tasks, results) { return Err("plan capability flags mismatch"); }
      if root.manifest.Some? || root.receipt.Some? { return Err("evidence target already exists"); }
      if live.source == "" || ReplayScope(live).None? { return Err("missing CI_DEV_SOURCE_SHA or replay scope"); }
      var shards := Shards(world.taskEnv, plan.value.tasks);
      var children := CollectChildEvidence(plan.value.raw, shards);
      if children.Err? { return Err(children.error); }
      var manifest := Manifest(
        live.source, live.digest, live.mode.value, ReplayScope(live).value, results, shards, children.value);
      var bytes := world.printManifest(manifest);
      if fault.ManifestFails? {
        root := root.(manifest := fault.left);
        return Err("manifest write failed");
      }
      root := root.(manifest := Some(bytes));
      if fault.AfterManifest? {
        if fault.removed { root := root.(manifest := None); }
        return Err("failure after the manifest");
      }
      var receipt := Receipt(world.digest(root.manifest.value), manifest.sourceSha, manifest.planDigest,
                             manifest.replay);
      if fault.ReceiptFails? {
        root := root.(receipt := fault.left);
        if fault.removed { root := root.(manifest := None); }
        return Err("receipt write failed");
      }
      root := root.(receipt := Some(world.printReceipt(receipt)));
      return Ok(());
    }

    method ValidateAffectedEvidence(live: Live) returns (r: Result<(), string>)
      ensures r.Ok? <==> Accepts(world, root, live)
    {
      hide ReadPlan, AggregateHolds, CapabilitiesMatch, ReceiptsMatch, Children, Shards, ParseManifest, ParseReceipt;
      if root.receipt.None? || root.manifest.None? { return Err("missing evidence object"); }
      var receipt := ParseReceipt(world, root.receipt.value);
      if receipt.None? { return Err("malformed receipt"); }
      if receipt.value.manifestSha256 != world.digest(root.manifest.value) { return Err("manifest digest mismatch"); }
      var manifest := ParseManifest(world, root.manifest.value);
      if manifest.None? { return Err("malformed manifest"); }
      var m, c := manifest.value, receipt.value;
      var plan := ReadPlan(world, root, live);
      if plan.Err? { return Err(plan.error); }
      if live.source == "" || live.digest == "" || ReplayScope(live).None? { return Err("missing variable"); }
      if m.sourceSha != live.source || c.sourceSha != live.source || m.planDigest != live.digest
         || c.planDigest != live.digest || Some(m.replay) != ReplayScope(live) || Some(c.replay) != ReplayScope(live)
      {
        return Err("replay binding mismatch");
      }
      if Some(m.mode) != live.mode || m.mode != plan.value.mode || world.digest(plan.value.raw) != live.digest {
        return Err("plan binding mismatch");
      }
      if !AggregateHolds(m.aggregate) { return Err("aggregate results do not hold"); }
      if Some(m.aggregate) != live.aggregate { return Err("aggregate result mismatch"); }
      if !CapabilitiesMatch(plan.value.tasks, m.aggregate) { return Err("plan capability flags mismatch"); }
      if m.tasks != Shards(world.taskEnv, plan.value.tasks) { return Err("task identity mismatch"); }
      var children := CollectChildEvidence(plan.value.raw, m.tasks);
      if children.Err? { return Err(children.error); }
      if m.children != children.value { return Err("child evidence mismatch"); }
      return Ok(());
    }
  }

  lemma {:induction false} DirectoryPresent(dir: Option<map<string, Bytes>>, shards: seq<Shard>)
    requires shards != [] && DirectoryMatches(dir, shards)
    ensures dir.Some?
  {
  }

  lemma {:induction false} ReadPlanBinds(world: World, root: Root, live: Live)
    requires ReadPlan(world, root, live).Ok?
    ensures var plan := ReadPlan(world, root, live).value;
            root.plan == Some(plan.raw) && live.digest == world.digest(plan.raw) && live.digest != ""
            && live.planSource == plan.sourceSha && live.head == plan.sourceSha
            && world.readPlan(plan.raw).Some?
            && plan.sourceSha == world.readPlan(plan.raw).value.sourceSha
  {
    hide LoadPlan;
  }

  // ---------------------------------------------------------------- validation accepts what writing would produce

  /** Readiness and the manifest depend on the plan and the shard receipts, not on the two evidence files. */
  lemma {:induction false} EvidenceFilesDoNotMatter(world: World, a: Root, b: Root, live: Live)
    requires a.plan == b.plan && a.shardDir == b.shardDir
    ensures Ready(world, a, live) <==> Ready(world, b, live)
    ensures Ready(world, a, live) ==> ManifestOf(world, a, live) == ManifestOf(world, b, live)
  {
    hide AggregateHolds, CapabilitiesMatch, ReceiptsMatch, Shards, LoadPlan, ShardChildren;
  }

  /**
   * Evidence is accepted exactly when both files are, byte for byte, what would be written now, and are well formed.
   */
  lemma {:induction false} AcceptsIffRewritten(world: World, root: Root, live: Live)
    requires GoodWorld(world)
    ensures Accepts(world, root, live)
            <==> Ready(world, root, live) && WellFormedManifest(world, ManifestOf(world, root, live))
                 && root == Written(world, root, live)
  {
    hide ReadPlan, AggregateHolds, CapabilitiesMatch, ReceiptsMatch, Children, Shards, WellFormedManifest,
      WellFormedReceipt, IsHex, GoodWorld;
    if Accepts(world, root, live) {
      var receipt := ParseReceipt(world, root.receipt.value).value;
      var manifest := ParseManifest(world, root.manifest.value).value;
      ReadPlanBinds(world, root, live);
      assert Ready(world, root, live);
      assert manifest == ManifestOf(world, root, live);
      assert receipt == ReceiptOf(world, manifest);
    }
    if Ready(world, root, live) && root == Written(world, root, live)
      && WellFormedManifest(world, ManifestOf(world, root, live)) {
      var m := ManifestOf(world, root, live);
      ReadPlanBinds(world, root, live);
      WorldReadsBack(world, m, ReceiptOf(world, m));
      ReceiptIsWellFormed(world, m);
      assert ParseManifest(world, root.manifest.value) == Some(m);
      assert ParseReceipt(world, root.receipt.value) == Some(ReceiptOf(world, m));
    }
  }

  lemma {:induction false} WorldReadsBack(world: World, m: Manifest, r: Receipt)
    requires GoodWorld(world)
    ensures world.readManifest(world.printManifest(m)) == Some(m) && world.readReceipt(world.printReceipt(r)) == Some(r)
  {
  }

  lemma {:induction false} ReceiptIsWellFormed(world: World, m: Manifest)
    requires GoodWorld(world) && WellFormedManifest(world, m)
    ensures WellFormedReceipt(world, ReceiptOf(world, m))
  {
    hide IsHex;
  }

  // ---------------------------------------------------------------- freshly written evidence

  /** What the reader checks of the environment and the plan and the writer does not. */
  predicate WellFormedRun(world: World, root: Root, live: Live)
    requires Ready(world, root, live)
  {
    var shards := Shards(world.taskEnv, ReadPlan(world, root, live).value.tasks);
    IsHex(live.source, 40) && forall i | 0 <= i < |shards| :: shards[i].key != ""
  }

  lemma {:induction false} LoadedIdentities(records: seq<Record>, i: nat)
    requires DeserializeTasks(records).Ok? && i < |DeserializeTasks(records).value|
    ensures var t := DeserializeTasks(records).value[i]; t.identity.Some? && t.identity.value != ""
  {
    if i > 0 { LoadedIdentities(records[1..], i - 1); }
  }

  lemma {:induction false} ShardIdentities(env: Env, tasks: seq<Task>)
    requires forall i | 0 <= i < |tasks| :: tasks[i].identity.Some? && tasks[i].identity.value != ""
    ensures forall i | 0 <= i < |Shards(env, tasks)| :: Shards(env, tasks)[i].identity != ""
  {
    if tasks != [] {
      assert forall i | 0 <= i < |tasks[1..]| :: tasks[1..][i] == tasks[i + 1];
      ShardIdentities(env, tasks[1..]);
    }
  }

  lemma {:induction false} ChildrenAreDigests(world: World, dir: map<string, Bytes>, count: nat)
    requires GoodWorld(world) && forall i | 0 <= i < count :: ShardFile(i) in dir
    ensures |ShardChildren(world, dir, count)| == count
    ensures forall i | 0 <= i < count ::
              ShardChildren(world, dir, count)[i].sha256 == world.digest(dir[ShardFile(i)])
              && world.isDigest(ShardChildren(world, dir, count)[i].sha256)
  {
    hide ShardFile, IsHex;
    if count > 0 { ChildrenAreDigests(world, dir, count - 1); }
  }

  lemma {:induction false} ManifestShape(world: World, root: Root, live: Live)
    requires GoodWorld(world) && Ready(world, root, live)
    ensures WellFormedManifest(world, ManifestOf(world, root, live)) <==> WellFormedRun(world, root, live)
  {
    hide AggregateHolds, CapabilitiesMatch, Shards, ReadPlan, IsHex, ShardFile, ReceiptsMatch, Children;
    var m := ManifestOf(world, root, live);
    ReadPlanBinds(world, root, live);
    PlanIdentities(world, root, live);
    ChildrenWellFormed(world, root, live);
    assert world.isDigest(m.planDigest) by { DigestFormat(world, ReadPlan(world, root, live).value.raw); }
  }

  lemma {:induction false} DigestFormat(world: World, raw: Bytes)
    requires GoodWorld(world)
    ensures world.isDigest(world.digest(raw))
  {
    hide IsHex;
  }

  lemma {:induction false} PlanIdentities(world: World, root: Root, live: Live)
    requires ReadPlan(world, root, live).Ok?
    ensures forall s | s in Shards(world.taskEnv, ReadPlan(world, root, live).value.tasks) :: s.identity != ""
  {
    hide Shards, DeserializeTasks;
    var records := world.readPlan(root.plan.value).value.records;
    var tasks := ReadPlan(world, root, live).value.tasks;
    forall i | 0 <= i < |tasks| ensures tasks[i].identity.Some? && tasks[i].identity.value != "" {
      LoadedIdentities(records, i);
    }
    ShardIdentities(world.taskEnv, tasks);
  }

  lemma {:induction false} ChildrenWellFormed(world: World, root: Root, live: Live)
    requires GoodWorld(world) && Ready(world, root, live)
    ensures forall i | 0 <= i < |ManifestOf(world, root, live).children| ::
            world.isDigest(ManifestOf(world, root, live).children[i].sha256)
  {
    hide AggregateHolds, CapabilitiesMatch, Shards, ReadPlan, IsHex, ShardFile, ShardChildren, DirectoryMatches;
    var plan := ReadPlan(world, root, live).value;
    var shards := Shards(world.taskEnv, plan.tasks);
    DigestFormat(world, plan.raw);
    if shards != [] {
      DirectoryPresent(root.shardDir, shards);
      ShardsAreFiles(world, root.shardDir.value, shards);
      ChildrenAreDigests(world, root.shardDir.value, |shards|);
    }
  }

  /** Evidence just written is accepted in the same environment exactly when the run was well formed. */
  lemma {:induction false} WrittenIsAccepted(world: World, root: Root, live: Live)
    requires GoodWorld(world) && CanWrite(world, root, live)
    ensures Accepts(world, Written(world, root, live), live) <==> WellFormedRun(world, root, live)
  {
    hide Accepts, Ready, GoodWorld, ManifestOf, WellFormedRun, WellFormedManifest;
    var written := Written(world, root, live);
    EvidenceFilesDoNotMatter(world, root, written, live);
    AcceptsIffRewritten(world, written, live);
    ManifestShape(world, root, live);
  }

  /**
   * Take any run that can write, and put a branch name for its source revision: it still writes, and what it writes
   * is accepted in no environment.
   */
  lemma {:induction false} BranchNameIsRejected(world: World, root: Root, live: Live, later: Live)
    requires GoodWorld(world) && CanWrite(world, root, live)
    ensures CanWrite(world, root, live.(source := "main"))
    ensures !Accepts(world, Written(world, root, live.(source := "main")), later)
  {
    hide Ready, GoodWorld, ManifestOf, WellFormedManifest;
    AnySourceCanWrite(world, root, live);
    var bad := live.(source := "main");
    var written := Written(world, root, bad);
    if Accepts(world, written, later) {
      hide Accepts;
      AcceptsIffRewritten(world, written, later);
      SameReceipt(world, root, bad, written, later);
      BadSource(world, root, bad);
    }
  }

  /** Whether a run may write does not depend on the text of its source revision. */
  lemma {:induction false} AnySourceCanWrite(world: World, root: Root, live: Live)
    requires CanWrite(world, root, live)
    ensures CanWrite(world, root, live.(source := "main"))
  {
    hide AggregateHolds, CapabilitiesMatch, ReceiptsMatch, Shards, LoadPlan;
  }

  lemma {:induction false} BadSource(world: World, root: Root, live: Live)
    requires Ready(world, root, live) && live.source == "main"
    ensures !WellFormedManifest(world, ManifestOf(world, root, live))
  {
    hide AggregateHolds, CapabilitiesMatch, ReceiptsMatch, Shards, ReadPlan, Children;
  }

  // ---------------------------------------------------------------- any later change is rejected

  function DecimalValue(s: string): nat {
    if s == "" then 0
    else DecimalValue(s[..|s| - 1]) * 10 + if '0' <= s[|s| - 1] <= '9' then (s[|s| - 1] - '0') as nat else 0
  }

  lemma {:induction false} DecimalRoundTrip(n: nat)
    ensures DecimalValue(Decimal(n)) == n
  {
    if n < 10 {
      var s := Decimal(n);
      assert s[..|s| - 1] == "";
      DigitValue(n);
    } else {
      DecimalRoundTrip(n / 10);
      var s := Decimal(n);
      assert s[..|s| - 1] == Decimal(n / 10);
      DigitValue(n % 10);
    }
  }

  lemma {:induction false} DigitValue(d: nat)
    requires d < 10
    ensures '0' <= Digit(d) <= '9' && (Digit(d) - '0') as nat == d
  {
  }

  lemma {:induction false} ShardFileInjective(i: nat, j: nat)
    requires ShardFile(i) == ShardFile(j)
    ensures i == j
  {
    hide Decimal;
    assert Decimal(i) == ShardFile(i)[..|ShardFile(i)| - 5] && Decimal(j) == ShardFile(j)[..|ShardFile(j)| - 5];
    DecimalRoundTrip(i);
    DecimalRoundTrip(j);
  }

  function FileNames(count: nat): set<string> {
    if count == 0 then {} else FileNames(count - 1) + {ShardFile(count - 1)}
  }

  lemma {:induction false} FileNamesCount(count: nat)
    ensures |FileNames(count)| == count
    ensures forall name | name in FileNames(count) :: exists i | 0 <= i < count :: name == ShardFile(i)
  {
    hide ShardFile;
    if count > 0 {
      FileNamesCount(count - 1);
      if ShardFile(count - 1) in FileNames(count - 1) {
        var i :| 0 <= i < count - 1 && ShardFile(count - 1) == ShardFile(i);
        ShardFileInjective(count - 1, i);
        assert false;
      }
    }
  }

  lemma {:induction false} FileNamesInside(dir: map<string, Bytes>, count: nat)
    requires forall i | 0 <= i < count :: ShardFile(i) in dir
    ensures FileNames(count) <= dir.Keys
  {
    hide ShardFile;
    if count > 0 { FileNamesInside(dir, count - 1); }
  }

  lemma {:induction false} FullSubset(a: set<string>, b: set<string>)
    requires a <= b && |a| == |b|
    ensures a == b
  {
    assert |b - a| == |b| - |a|;
  }

  /** A matching directory holds exactly the numbered receipts. */
  lemma {:induction false} DirectoryIsExact(world: World, dir: map<string, Bytes>, shards: seq<Shard>)
    requires |dir.Keys| == |shards| && forall i | 0 <= i < |shards| :: ShardMatches(world, dir, shards, i)
    ensures dir.Keys == FileNames(|shards|)
  {
    hide ShardFile, FileNames;
    ShardsAreFiles(world, dir, shards);
    FileNamesInside(dir, |shards|);
    FileNamesCount(|shards|);
    FullSubset(FileNames(|shards|), dir.Keys);
  }

  /** Equal child digests over equal shard lists mean equal directories. */
  lemma {:induction false} SameChildrenSameDirectory(world: World, a: map<string, Bytes>, b: map<string, Bytes>,
                                                     shards: seq<Shard>)
    requires GoodWorld(world)
    requires |a.Keys| == |shards| && forall i | 0 <= i < |shards| :: ShardMatches(world, a, shards, i)
    requires |b.Keys| == |shards| && forall i | 0 <= i < |shards| :: ShardMatches(world, b, shards, i)
    requires (forall i | 0 <= i < |shards| :: ShardFile(i) in a) && (forall i | 0 <= i < |shards| :: ShardFile(i) in b)
    requires ShardChildren(world, a, |shards|) == ShardChildren(world, b, |shards|)
    ensures a == b
  {
    hide ShardFile, FileNames, ShardChildren, ShardMatches, IsHex;
    var n := |shards|;
    DirectoryIsExact(world, a, shards);
    DirectoryIsExact(world, b, shards);
    ChildrenAreDigests(world, a, n);
    ChildrenAreDigests(world, b, n);
    FileNamesCount(n);
    forall name | name in a ensures name in b && a[name] == b[name] {
      var i :| 0 <= i < n && name == ShardFile(i);
      assert ShardChildren(world, a, n)[i].sha256 == ShardChildren(world, b, n)[i].sha256;
    }
  }

  lemma {:induction false} SameReceiptSameManifest(world: World, m: Manifest, n: Manifest)
    requires GoodWorld(world) && world.printReceipt(ReceiptOf(world, m)) == world.printReceipt(ReceiptOf(world, n))
    ensures m == n
  {
    hide IsHex;
    WorldReadsBack(world, m, ReceiptOf(world, m));
    WorldReadsBack(world, n, ReceiptOf(world, n));
    assert world.digest(world.printManifest(m)) == world.digest(world.printManifest(n));
  }

  lemma {:induction false} SameManifestSameInputs(world: World, a: Root, live: Live, b: Root, later: Live)
    requires GoodWorld(world) && Ready(world, a, live) && Ready(world, b, later)
    requires ManifestOf(world, a, live) == ManifestOf(world, b, later)
    ensures a.plan == b.plan && a.shardDir == b.shardDir && live == later
  {
    hide ReadPlan, AggregateHolds, CapabilitiesMatch, ReceiptsMatch, Children, Shards, IsHex;
    var p, q := ReadPlan(world, a, live).value, ReadPlan(world, b, later).value;
    ReadPlanBinds(world, a, live);
    ReadPlanBinds(world, b, later);
    assert world.digest(p.raw) == world.digest(q.raw);
    assert p.raw == q.raw;
    var shards := Shards(world.taskEnv, p.tasks);
    assert shards == Shards(world.taskEnv, q.tasks);
    SameShardDirectory(world, a, b, p.raw, shards);
  }

  lemma {:induction false} SameShardDirectory(world: World, a: Root, b: Root, raw: Bytes, shards: seq<Shard>)
    requires GoodWorld(world) && ReceiptsMatch(world, a.shardDir, shards) && ReceiptsMatch(world, b.shardDir, shards)
    requires Children(world, a, raw, shards) == Children(world, b, raw, shards)
    ensures a.shardDir == b.shardDir
  {
    hide ShardFile, ShardChildren, ShardMatches, IsHex, GoodWorld;
    if shards != [] {
      ShardsAreFiles(world, a.shardDir.value, shards);
      ShardsAreFiles(world, b.shardDir.value, shards);
      var head := [Child(PLAN_NAME, world.digest(raw))];
      var x, y := ShardChildren(world, a.shardDir.value, |shards|), ShardChildren(world, b.shardDir.value, |shards|);
      assert x == (head + x)[1..] && y == (head + y)[1..];
      SameChildrenSameDirectory(world, a.shardDir.value, b.shardDir.value, shards);
    }
  }

  /**
   * As long as the receipt is the one that was written, validation accepts if and only if the manifest, the plan, the
   * shard receipts and the whole environment (source, plan digest, mode, replay scope, aggregate) are the written ones.
   */
  lemma {:induction false} AnyChangeIsRejected(world: World, root: Root, live: Live, after: Root, later: Live)
    requires GoodWorld(world) && CanWrite(world, root, live) && WellFormedRun(world, root, live)
    requires after.receipt == Written(world, root, live).receipt
    ensures Accepts(world, after, later) <==> after == Written(world, root, live) && later == live
  {
    hide Accepts, Ready, GoodWorld, ManifestOf, WellFormedRun, WellFormedManifest, ReceiptOf;
    var written := Written(world, root, live);
    WrittenIsAccepted(world, root, live);
    if Accepts(world, after, later) {
      AcceptsIffRewritten(world, after, later);
      SameReceipt(world, root, live, after, later);
      SameManifestSameInputs(world, root, live, after, later);
    }
  }

  lemma {:induction false} SameReceipt(world: World, root: Root, live: Live, after: Root, later: Live)
    requires GoodWorld(world) && Ready(world, root, live) && Ready(world, after, later)
    requires after == Written(world, after, later) && after.receipt == Written(world, root, live).receipt
    ensures ManifestOf(world, root, live) == ManifestOf(world, after, later)
  {
    hide Ready, GoodWorld, ManifestOf, ReceiptOf;
    SameReceiptSameManifest(world, ManifestOf(world, root, live), ManifestOf(world, after, later));
  }

  // ---------------------------------------------------------------- what a failed write leaves

  /**
   * A failed write leaves evidence that validates if and only if the receipt was out in full when its write failed
   * and the manifest could not be removed; it is then the evidence of that same well-formed run.
   */
  lemma {:induction false} FailedWriteValidates(world: World, root: Root, live: Live, fault: Fault, later: Live)
    requires GoodWorld(world) && CanWrite(world, root, live) && !fault.NoFault?
    ensures Accepts(world, Leftover(world, root, live, fault), later)
            <==> fault == ReceiptFails(Written(world, root, live).receipt, false)
                 && WellFormedRun(world, root, live) && later == live
  {
    hide Ready, GoodWorld, ManifestOf, WellFormedRun, WellFormedManifest, ReceiptOf;
    var left, written := Leftover(world, root, live, fault), Written(world, root, live);
    if fault.ReceiptFails? && !fault.removed && fault.left.Some? {
      hide Accepts;
      WrittenIsAccepted(world, root, live);
      if fault.left == written.receipt {
        assert left == written;
        if Accepts(world, left, later) { OnlyItsOwnRun(world, root, live, later); }
      } else if Accepts(world, left, later) {
        AcceptsIffRewritten(world, left, later);
        SameManifest(world, root, live, left, later);
        assert false;
      }
    }
  }

  lemma {:induction false} OnlyItsOwnRun(world: World, root: Root, live: Live, later: Live)
    requires GoodWorld(world) && CanWrite(world, root, live) && Accepts(world, Written(world, root, live), later)
    ensures later == live && WellFormedRun(world, root, live)
  {
    hide Accepts, Ready, GoodWorld, ManifestOf, WellFormedRun, WellFormedManifest, ReceiptOf;
    var written := Written(world, root, live);
    AcceptsIffRewritten(world, written, later);
    SameReceipt(world, root, live, written, later);
    SameManifestSameInputs(world, root, live, written, later);
    WrittenIsAccepted(world, root, live);
  }

  /** The manifest alone already fixes the receipt that goes with it. */
  lemma {:induction false} SameManifest(world: World, root: Root, live: Live, after: Root, later: Live)
    requires GoodWorld(world) && Ready(world, root, live) && Ready(world, after, later)
    requires after == Written(world, after, later) && after.manifest == Written(world, root, live).manifest
    ensures after.receipt == Written(world, root, live).receipt
  {
    hide Ready, GoodWorld, ManifestOf, ReceiptOf;
    var m, n := ManifestOf(world, root, live), ManifestOf(world, after, later);
    WorldReadsBack(world, m, ReceiptOf(world, m));
    WorldReadsBack(world, n, ReceiptOf(world, n));
    assert m == n;
  }
}
