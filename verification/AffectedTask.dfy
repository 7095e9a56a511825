/** Planned tasks: capabilities by key, canonical identity, the serialised plan and what later jobs read from it. */
module AffectedTask {
  import opened Common
  import opened PlanPath

  datatype Capabilities = Capabilities(rust: bool, nextest: bool, nativeConsumer: bool, nativeProducer: bool)

  datatype Phase = LegacyPhase | NativeProducerPhase | TsBuildPhase | CargoBuildPhase | PythonPhase

  /** `cwd` stands for the absolute path that its text resolves to from the repository root. */
  datatype Task = Task(
    key: string,
    identity: Option<string>,
    description: string,
    command: seq<string>,
    cwd: Option<string>,
    capabilities: Option<Capabilities>,
    phase: Option<Phase>)

  /** A task as the plan file holds it; only the directory may be missing. */
  datatype Record = Record(
    key: string,
    identity: string,
    description: string,
    command: seq<string>,
    cwd: Option<string>,
    capabilities: Capabilities,
    phase: Phase)

  /** What the string libraries provide: the base64url text of a string. */
  datatype Env = Env(encode: string -> string)

  ghost predicate Encodes(encode: string -> string) {
    (forall a, b :: encode(a) == encode(b) ==> a == b) && (forall a :: ':' !in encode(a))
  }

  const LEGACY_DOMAIN := "legacy"
  const TS_DOMAIN := "ts"
  const CARGO_DOMAIN := "cargo"
  const NATIVE_KEY := "native-linux-x64"

  predicate StartsWith(s: string, prefix: string) { |prefix| <= |s| && s[..|prefix|] == prefix }

  predicate IsNativeBuildKey(key: string) { key == "native-build" || key == NATIVE_KEY }

  predicate NeedsNative(key: string) {
    key == "python-test" || key == "root-test" || key == "root-check" || key == "check:@gajae-code/coding-agent"
    || key == "cli-smoke" || key == "runtime-check" || key == "wrapper-version" || key == "deep-interview-definitions"
    || key == "deep-interview-runtime" || key == "bridge-client-sdk-package-smoke" || StartsWith(key, "test:")
  }

  predicate IsRustTestKey(key: string) { key == "rust-test" || StartsWith(key, "rust-test:partition-") }

  predicate NeedsRust(key: string) {
    key == "rust-check" || IsRustTestKey(key) || key == "ci-selftest" || key == "ci-dry-run"
    || key == "affected-selftest" || key == "affected-dry-run"
  }

  function KeyCapabilities(key: string): Capabilities {
    Capabilities(NeedsRust(key), IsRustTestKey(key), NeedsNative(key), IsNativeBuildKey(key))
  }

  /** What describeTasks reports for a task: its own capabilities, or else those its key implies. */
  function Effective(t: Task): Capabilities {
    if t.capabilities.Some? then t.capabilities.value else KeyCapabilities(t.key)
  }

  /** The directory as serialisation writes it: relative to the root, "." for the root and for none. */
  function RelativeCwd(t: Task): string { if t.cwd.Some? then Canonical(t.cwd.value) else "." }

  function StableIdentity(env: Env, domain: string, id: string, location: string): string {
    domain + ":" + env.encode(id) + ":" + env.encode(location)
  }

  function CanonicalIdentity(env: Env, t: Task): string {
    if t.identity.Some? then t.identity.value else StableIdentity(env, LEGACY_DOMAIN, t.key, RelativeCwd(t))
  }

  // ---------------------------------------------------------------- the plan file

  function SerializeTask(env: Env, t: Task): Record {
    Record(t.key, CanonicalIdentity(env, t), t.description, t.command, Some(RelativeCwd(t)), Effective(t),
           if t.phase.Some? then t.phase.value else LegacyPhase)
  }

  function SerializeTasks(env: Env, tasks: seq<Task>): seq<Record> {
    seq(|tasks|, i requires 0 <= i < |tasks| => SerializeTask(env, tasks[i]))
  }

  function DeserializeTask(r: Record): Result<Task, string> {
    if r.identity == "" then Err("missing task identity")
    else if r.cwd.Some? && !AdmittedCwd(r.cwd.value) then Err("unsafe inventory path")
    else
      var cwd := if r.cwd.Some? then Some(Canonical(r.cwd.value)) else None;
      Ok(Task(r.key, Some(r.identity), r.description, r.command, cwd, Some(r.capabilities), Some(r.phase)))
  }

  function DeserializeTasks(records: seq<Record>): Result<seq<Task>, string> {
    if records == [] then Ok([])
    else
      var first :- DeserializeTask(records[0]);
      var rest :- DeserializeTasks(records[1..]);
      Ok([first] + rest)
  }

  predicate DistinctKeys(tasks: seq<Task>) {
    forall i, j | 0 <= i < j < |tasks| :: tasks[i].key != tasks[j].key
  }

  predicate DistinctIdentities(env: Env, tasks: seq<Task>) {
    forall i, j | 0 <= i < j < |tasks| :: CanonicalIdentity(env, tasks[i]) != CanonicalIdentity(env, tasks[j])
  }

  /** Reading a plan back: every record must deserialise, and no key or identity may repeat. */
  function LoadPlan(env: Env, records: seq<Record>): Result<seq<Task>, string> {
    var tasks :- DeserializeTasks(records);
    if DistinctKeys(tasks) && DistinctIdentities(env, tasks) then Ok(tasks) else Err("duplicate task key or identity")
  }

  predicate Loadable(env: Env, t: Task) {
    CanonicalIdentity(env, t) != "" && AdmittedCwd(RelativeCwd(t))
  }

  /** What a record stands for: the original with every default filled in. */
  function Filled(env: Env, t: Task): Task {
    Task(t.key, Some(CanonicalIdentity(env, t)), t.description, t.command, Some(RelativeCwd(t)), Some(Effective(t)),
         if t.phase.Some? then t.phase else Some(LegacyPhase))
  }

  function FilledAll(env: Env, tasks: seq<Task>): seq<Task> {
    seq(|tasks|, i requires 0 <= i < |tasks| => Filled(env, tasks[i]))
  }

  lemma {:induction false} SerializeTail(env: Env, tasks: seq<Task>)
    requires tasks != []
    ensures SerializeTasks(env, tasks)[1..] == SerializeTasks(env, tasks[1..])
    ensures FilledAll(env, tasks) == [Filled(env, tasks[0])] + FilledAll(env, tasks[1..])
  {
  }

  /** A serialised list of tasks deserialises if and only if every task is loadable, and to the filled-in tasks. */
  lemma {:induction false} SerializedDeserialize(env: Env, tasks: seq<Task>)
    ensures DeserializeTasks(SerializeTasks(env, tasks)).Ok? <==> forall i | 0 <= i < |tasks| :: Loadable(env, tasks[i])
    ensures DeserializeTasks(SerializeTasks(env, tasks)).Ok?
            ==> DeserializeTasks(SerializeTasks(env, tasks)).value == FilledAll(env, tasks)
  {
    hide Filled, Loadable, CanonicalIdentity, AdmittedCwd;
    var records := SerializeTasks(env, tasks);
    if tasks == [] {
    } else {
      SerializeTail(env, tasks);
      SerializedDeserialize(env, tasks[1..]);
      assert records[0] == SerializeTask(env, tasks[0]);
      OneDeserializes(env, tasks[0]);
      assert (forall i | 0 <= i < |tasks| :: Loadable(env, tasks[i]))
        <==> Loadable(env, tasks[0]) && forall i | 0 <= i < |tasks[1..]| :: Loadable(env, tasks[1..][i]) by {
        assert forall i | 0 < i < |tasks| :: tasks[i] == tasks[1..][i - 1];
      }
    }
  }

  lemma {:induction false} OneDeserializes(env: Env, t: Task)
    ensures DeserializeTask(SerializeTask(env, t)).Ok? <==> Loadable(env, t)
    ensures Loadable(env, t) ==> DeserializeTask(SerializeTask(env, t)).value == Filled(env, t)
  {
    hide AdmittedCwd, Canonical;
    RelativeIsStable(t);
  }

  lemma {:induction false} RelativeIsStable(t: Task)
    ensures Canonical(RelativeCwd(t)) == RelativeCwd(t)
  {
    hide Canonical;
    if t.cwd.Some? { CanonicalIsStable(t.cwd.value); } else { RootIsCanonical(); }
  }

  /** The record names a directory, in the form in which serialisation would write it. */
  predicate InCanonicalForm(r: Record) { r.cwd.Some? && IsCanonical(r.cwd.value) }

  lemma {:induction false} OneSerializesBack(env: Env, r: Record)
    requires DeserializeTask(r).Ok?
    ensures SerializeTask(env, DeserializeTask(r).value) == r <==> InCanonicalForm(r)
  {
    hide AdmittedCwd, Canonical, IsCanonical;
    if r.cwd.Some? {
      CanonicalIff(r.cwd.value);
      CanonicalIsStable(r.cwd.value);
    }
  }

  lemma {:induction false} DeserializeHead(records: seq<Record>)
    requires records != [] && DeserializeTasks(records).Ok?
    ensures DeserializeTask(records[0]).Ok? && DeserializeTasks(records[1..]).Ok?
    ensures DeserializeTasks(records).value == [DeserializeTask(records[0]).value]
            + DeserializeTasks(records[1..]).value
  {
  }

  /**
   * Serialising what was deserialised gives the same records back exactly when every record names its directory in
   * canonical form; "./a", "a/.." and a missing directory are admitted and come back changed.
   */
  lemma {:induction false} SerializeAfterDeserialize(env: Env, records: seq<Record>)
    requires DeserializeTasks(records).Ok?
    ensures SerializeTasks(env, DeserializeTasks(records).value) == records
            <==> forall i | 0 <= i < |records| :: InCanonicalForm(records[i])
  {
    hide InCanonicalForm, DeserializeTask, SerializeTask;
    if records == [] {
    } else {
      DeserializeHead(records);
      OneSerializesBack(env, records[0]);
      SerializeAfterDeserialize(env, records[1..]);
      var tasks := DeserializeTasks(records).value;
      hide DeserializeTasks;
      SerializeTail(env, tasks);
      var back := SerializeTasks(env, tasks);
      assert tasks[1..] == DeserializeTasks(records[1..]).value;
      assert back[0] == SerializeTask(env, tasks[0]);
      assert back == [back[0]] + back[1..] && records == [records[0]] + records[1..];
      assert (forall i | 0 <= i < |records| :: InCanonicalForm(records[i]))
        <==> InCanonicalForm(records[0]) && forall i | 0 <= i < |records[1..]| :: InCanonicalForm(records[1..][i]) by {
        assert forall i | 0 < i < |records| :: records[i] == records[1..][i - 1];
      }
    }
  }

  /** Every serialised task is in canonical form. */
  lemma {:induction false} SerializedIsCanonical(env: Env, t: Task)
    ensures InCanonicalForm(SerializeTask(env, t))
  {
    hide Canonical, IsCanonical;
    RelativeIsStable(t);
    CanonicalIff(RelativeCwd(t));
  }

  /** Three records that are admitted and do not come back. */
  lemma {:induction false} AdmittedRecordsChange(env: Env, r: Record)
    requires r.identity != ""
    ensures var dot := DeserializeTask(r.(cwd := Some("./a")));
            dot.Ok? && SerializeTask(env, dot.value).cwd == Some("a")
    ensures var up := DeserializeTask(r.(cwd := Some("a/..")));
            up.Ok? && SerializeTask(env, up.value).cwd == Some(".")
    ensures var none := DeserializeTask(r.(cwd := None));
            none.Ok? && SerializeTask(env, none.value).cwd == Some(".")
  {
    hide Canonical, AdmittedCwd;
    DotSlashResolves();
    TrailingUpResolves();
    RootIsCanonical();
    CanonicalIsStable("./a");
  }

  /**
   * A plan survives the plan file: it loads exactly when it is loadable and free of duplicates, and then
   * re-serialises to itself.
   */
  lemma {:induction false} PlanRoundTrip(env: Env, tasks: seq<Task>)
    ensures LoadPlan(env, SerializeTasks(env, tasks)).Ok?
            <==> (forall i | 0 <= i < |tasks| :: Loadable(env, tasks[i])) && DistinctKeys(tasks)
                 && DistinctIdentities(env, tasks)
    ensures LoadPlan(env, SerializeTasks(env, tasks)).Ok?
            ==> var loaded := LoadPlan(env, SerializeTasks(env, tasks)).value;
                loaded == FilledAll(env, tasks) && SerializeTasks(env, loaded) == SerializeTasks(env, tasks)
  {
    hide DeserializeTasks, SerializeTasks, Loadable, CanonicalIdentity, InCanonicalForm;
    var records := SerializeTasks(env, tasks);
    SerializedLength(env, tasks);
    SerializedDeserialize(env, tasks);
    if DeserializeTasks(records).Ok? {
      forall i | 0 <= i < |records| ensures InCanonicalForm(records[i]) { SerializedAt(env, tasks, i); }
      SerializeAfterDeserialize(env, records);
      FilledDistinct(env, tasks);
    }
  }

  lemma {:induction false} SerializedAt(env: Env, tasks: seq<Task>, i: nat)
    requires i < |tasks|
    ensures |SerializeTasks(env, tasks)| == |tasks| && InCanonicalForm(SerializeTasks(env, tasks)[i])
  {
    hide SerializeTask, InCanonicalForm;
    SerializedIsCanonical(env, tasks[i]);
  }

  lemma {:induction false} SerializedLength(env: Env, tasks: seq<Task>)
    ensures |SerializeTasks(env, tasks)| == |tasks|
  {
  }

  lemma {:induction false} FilledDistinct(env: Env, tasks: seq<Task>)
    ensures DistinctKeys(FilledAll(env, tasks)) <==> DistinctKeys(tasks)
    ensures DistinctIdentities(env, FilledAll(env, tasks)) <==> DistinctIdentities(env, tasks)
  {
    var filled := FilledAll(env, tasks);
    assert forall i | 0 <= i < |tasks| :: filled[i].key == tasks[i].key;
    assert forall i | 0 <= i < |tasks| :: CanonicalIdentity(env, filled[i]) == CanonicalIdentity(env, tasks[i]);
  }

  // ---------------------------------------------------------------- shards, receipts and flags

  datatype Shard = Shard(key: string, identity: string)

  /** The guard both sides use: not a declared native producer and not a Python task. */
  predicate RunsAsShard(t: Task) {
    !(t.capabilities.Some? && t.capabilities.value.nativeProducer) && t.phase != Some(PythonPhase)
  }

  function Shards(env: Env, tasks: seq<Task>): seq<Shard> {
    if tasks == [] then []
    else
      (if RunsAsShard(tasks[0]) then [Shard(tasks[0].key, CanonicalIdentity(env, tasks[0]))] else [])
      + Shards(env, tasks[1..])
  }

  predicate HasNative(tasks: seq<Task>) { exists t | t in tasks :: Effective(t).nativeProducer }

  predicate HasPython(tasks: seq<Task>) { exists t | t in tasks :: t.phase == Some(PythonPhase) }

  predicate HasShards(tasks: seq<Task>) { exists t | t in tasks :: RunsAsShard(t) }

  /** What validatePlanCapabilities derives from the plan that was read back. */
  predicate DeclaresNative(tasks: seq<Task>) {
    exists t | t in tasks :: t.capabilities.Some? && t.capabilities.value.nativeProducer
  }

  /** A native build task without declared capabilities: a shard before the plan file, none after it. */
  predicate ImplicitProducer(t: Task) {
    t.capabilities.None? && IsNativeBuildKey(t.key) && t.phase != Some(PythonPhase)
  }

  lemma {:induction false} FilledShard(env: Env, t: Task)
    ensures RunsAsShard(Filled(env, t)) <==> RunsAsShard(t) && !ImplicitProducer(t)
    ensures RunsAsShard(t) ==> (RunsAsShard(Filled(env, t)) <==> !ImplicitProducer(t))
    ensures CanonicalIdentity(env, Filled(env, t)) == CanonicalIdentity(env, t) && Filled(env, t).key == t.key
    ensures ImplicitProducer(t) ==> RunsAsShard(t)
  {
  }

  lemma {:induction false} ShardsNoLonger(env: Env, tasks: seq<Task>)
    ensures |Shards(env, FilledAll(env, tasks))| <= |Shards(env, tasks)|
    ensures |Shards(env, FilledAll(env, tasks))| == |Shards(env, tasks)|
            ==> forall i | 0 <= i < |tasks| :: !ImplicitProducer(tasks[i])
  {
    if tasks == [] {
    } else {
      hide RunsAsShard, CanonicalIdentity, ImplicitProducer, Filled;
      SerializeTail(env, tasks);
      ShardsNoLonger(env, tasks[1..]);
      FilledShard(env, tasks[0]);
      assert FilledAll(env, tasks)[0] == Filled(env, tasks[0])
          && FilledAll(env, tasks)[1..] == FilledAll(env, tasks[1..]);
      forall i | 0 < i < |tasks| ensures tasks[i] == tasks[1..][i - 1] {}
    }
  }

  lemma {:induction false} ShardsKept(env: Env, tasks: seq<Task>)
    requires forall i | 0 <= i < |tasks| :: !ImplicitProducer(tasks[i])
    ensures Shards(env, FilledAll(env, tasks)) == Shards(env, tasks)
  {
    if tasks == [] {
    } else {
      hide RunsAsShard, CanonicalIdentity, ImplicitProducer, Filled;
      SerializeTail(env, tasks);
      FilledShard(env, tasks[0]);
      assert FilledAll(env, tasks)[0] == Filled(env, tasks[0])
          && FilledAll(env, tasks)[1..] == FilledAll(env, tasks[1..]);
      forall i | 0 <= i < |tasks[1..]|
        ensures !ImplicitProducer(tasks[1..][i])
      {
        assert tasks[1..][i] == tasks[i + 1];
      }
      ShardsKept(env, tasks[1..]);
    }
  }

  /** The matrix that was emitted is the receipt list that is demanded exactly when no producer is implicit. */
  lemma {:induction false} MatrixMatchesReceipts(env: Env, tasks: seq<Task>)
    requires LoadPlan(env, SerializeTasks(env, tasks)).Ok?
    ensures Shards(env, LoadPlan(env, SerializeTasks(env, tasks)).value) == Shards(env, tasks)
            <==> forall i | 0 <= i < |tasks| :: !ImplicitProducer(tasks[i])
  {
    hide Shards, ImplicitProducer;
    PlanRoundTrip(env, tasks);
    ShardsNoLonger(env, tasks);
    if forall i | 0 <= i < |tasks| :: !ImplicitProducer(tasks[i]) { ShardsKept(env, tasks); }
  }

  lemma {:induction false} InFilled(env: Env, tasks: seq<Task>, t: Task)
    requires t in tasks
    ensures Filled(env, t) in FilledAll(env, tasks)
  {
    var i :| 0 <= i < |tasks| && tasks[i] == t;
    assert FilledAll(env, tasks)[i] == Filled(env, t);
  }

  lemma {:induction false} FromFilled(env: Env, tasks: seq<Task>, f: Task) returns (t: Task)
    requires f in FilledAll(env, tasks)
    ensures t in tasks && f == Filled(env, t)
  {
    var i :| 0 <= i < |tasks| && FilledAll(env, tasks)[i] == f;
    t := tasks[i];
  }

  /** has_native and has_python always agree with the plan read back; has_tasks does when no producer is implicit. */
  lemma {:induction false} FlagsAgree(env: Env, tasks: seq<Task>)
    ensures DeclaresNative(FilledAll(env, tasks)) <==> HasNative(tasks)
    ensures HasPython(FilledAll(env, tasks)) <==> HasPython(tasks)
    ensures HasShards(FilledAll(env, tasks)) <==> exists t | t in tasks :: RunsAsShard(t) && !ImplicitProducer(t)
    ensures HasShards(tasks) <==> Shards(env, tasks) != []
  {
    hide FilledAll, Effective, Shards;
    var filled := FilledAll(env, tasks);
    forall t | t in tasks
      ensures Filled(env, t) in filled && Filled(env, t).capabilities == Some(Effective(t))
      ensures (Filled(env, t).phase == Some(PythonPhase)) == (t.phase == Some(PythonPhase))
      ensures RunsAsShard(Filled(env, t)) <==> RunsAsShard(t) && !ImplicitProducer(t)
    {
      InFilled(env, tasks, t);
      FilledShard(env, t);
    }
    forall f | f in filled ensures exists t :: t in tasks && f == Filled(env, t) {
      var t := FromFilled(env, tasks, f);
    }
    ShardsNonEmpty(env, tasks);
  }

  lemma {:induction false} ShardsNonEmpty(env: Env, tasks: seq<Task>)
    ensures HasShards(tasks) <==> Shards(env, tasks) != []
  {
    if tasks != [] {
      ShardsNonEmpty(env, tasks[1..]);
      assert forall t :: t in tasks <==> t == tasks[0] || t in tasks[1..];
    }
  }
}
