/** The appended plan as a whole: producer, distinctness, the plan file, and the shards later jobs expect. */
module BuildPlan {
  import opened Common
  import opened AffectedTask
  import opened AffectedPlan
  import opened PlanPath
  import opened TargetedPlan
  import opened BuildTasks

  function WithoutNative(tasks: seq<Task>): seq<Task> {
    if tasks == [] then []
    else
      WithoutNative(tasks[..|tasks| - 1])
      + if IsNativeBuildKey(tasks[|tasks| - 1].key) then [] else [tasks[|tasks| - 1]]
  }

  predicate LegacyNeedsProducer(legacy: seq<Task>) {
    exists t | t in legacy :: IsNativeBuildKey(t.key) || NeedsNative(t.key)
  }

  predicate TsNeedsProducer(units: seq<TsUnit>) {
    exists u | u in units :: u.nativeConsumer || u.nativeProducer
  }

  predicate CargoNeedsProducer(env: Env, inventory: Inventory, cargo: seq<Task>) {
    exists u | u in inventory.cargo ::
      u.nativeAddonSource
      && exists t | t in cargo ::
           (inventory.hasEmergency && t.key == EMERGENCY_KEY)
           || t.identity == Some(StableIdentity(env, CARGO_DOMAIN, u.id, u.manifestPath))
  }

  predicate NeedsProducer(env: Env, legacy: seq<Task>, units: seq<TsUnit>, cargo: seq<Task>, inventory: Inventory) {
    LegacyNeedsProducer(legacy) || TsNeedsProducer(units) || CargoNeedsProducer(env, inventory, cargo)
  }

  function Producer(needed: bool): seq<Task> { if needed then [NativeProducer()] else [] }

  function AppendBuildTasks(env: Env, legacy: seq<Task>, units: seq<TsUnit>, cargo: seq<Task>,
                            inventory: Inventory): seq<Task> {
    WithoutNative(legacy) + Producer(NeedsProducer(env, legacy, units, cargo, inventory)) + TsTasks(env, units) + cargo
  }

  // ---------------------------------------------------------------- the parts

  lemma {:induction false} InWithoutNative(tasks: seq<Task>, t: Task)
    ensures t in WithoutNative(tasks) <==> t in tasks && !IsNativeBuildKey(t.key)
  {
    if tasks != [] {
      var n := |tasks| - 1;
      InWithoutNative(tasks[..n], t);
      assert tasks == tasks[..n] + [tasks[n]];
    }
  }

  lemma {:induction false} WithoutNativeDistinct(tasks: seq<Task>)
    requires DistinctKeys(tasks)
    ensures DistinctKeys(WithoutNative(tasks))
  {
    if tasks != [] {
      var n := |tasks| - 1;
      var rest := WithoutNative(tasks[..n]);
      WithoutNativeDistinct(tasks[..n]);
      forall i | 0 <= i < |rest| ensures rest[i].key != tasks[n].key {
        InWithoutNative(tasks[..n], rest[i]);
        var k :| 0 <= k < n && tasks[..n][k] == rest[i];
        assert tasks[k].key != tasks[n].key;
      }
    }
  }

  lemma {:induction false} WithoutNativeIsPlan(dirs: set<string>, tasks: seq<Task>)
    requires LegacyPlan(dirs, tasks)
    ensures LegacyPlan(dirs, WithoutNative(tasks))
    ensures forall t :: t in WithoutNative(tasks) <==> t in tasks && !IsNativeBuildKey(t.key)
  {
    hide LegacyTask, WithoutNative, DistinctKeys;
    WithoutNativeDistinct(tasks);
    forall t
      ensures t in WithoutNative(tasks) <==> t in tasks && !IsNativeBuildKey(t.key)
    {
      InWithoutNative(tasks, t);
    }
  }

  lemma {:induction false} InTsTasks(env: Env, units: seq<TsUnit>, t: Task)
    ensures t in TsTasks(env, units) <==> exists u | u in units :: t == TsTask(env, u)
  {
    hide TsTask;
    if t in TsTasks(env, units) {
      var i :| 0 <= i < |units| && TsTasks(env, units)[i] == t;
      assert units[i] in units;
    }
    if exists u | u in units :: t == TsTask(env, u) {
      var u :| u in units && t == TsTask(env, u);
      var i :| 0 <= i < |units| && units[i] == u;
      assert TsTasks(env, units)[i] == t;
    }
  }

  /** What every Cargo task of a plan looks like. */
  lemma {:induction false} CargoShape(env: Env, cargo: seq<Task>, t: Task)
    requires CargoPart(env, cargo) && t in cargo
    ensures t.capabilities == Some(Capabilities(true, false, false, false)) && t.cwd == Some(".")
    ensures t.phase == Some(CargoBuildPhase) && t.identity.Some?
    ensures |t.key| > 2 && t.key[0] == 'c' && t.key[1] == 'a'
    ensures |t.identity.value| > 0 && (t.identity.value[0] == 'c' || t.identity.value[0] == 'e')
  {
    hide StableIdentity;
    if t != EmergencyTask() {
      var cargoUnits: seq<CargoUnit> :| DistinctCargoIds(cargoUnits) && cargo == CargoTasks(env, cargoUnits);
      var i :| 0 <= i < |cargo| && cargo[i] == t;
      assert t == CargoTask(env, cargoUnits[i]);
      StableStarts(env, CARGO_DOMAIN, cargoUnits[i].id, cargoUnits[i].manifestPath);
    }
  }

  lemma {:induction false} StableStarts(env: Env, domain: string, id: string, location: string)
    requires domain != ""
    ensures |StableIdentity(env, domain, id, location)| > 0 && StableIdentity(env, domain, id, location)[0] == domain[0]
  {
  }

  lemma {:induction false} InAppended(env: Env, legacy: seq<Task>, units: seq<TsUnit>, cargo: seq<Task>,
                                      inventory: Inventory, t: Task)
    ensures t in AppendBuildTasks(env, legacy, units, cargo, inventory)
            <==> t in WithoutNative(legacy)
                 || (NeedsProducer(env, legacy, units, cargo, inventory) && t == NativeProducer())
                 || t in TsTasks(env, units) || t in cargo
  {
    hide WithoutNative, NeedsProducer, NativeProducer, TsTasks;
  }

  /**
   * The tasks of an appended plan that run as shards, family by family: planner tasks that are neither native builds
   * nor Python tasks, TypeScript units that produce no addon, and every Cargo task.
   */
  lemma {:induction false} AppendedShards(env: Env, dirs: set<string>, legacy: seq<Task>, units: seq<TsUnit>,
                                          cargo: seq<Task>, inventory: Inventory, t: Task)
    requires LegacyPlan(dirs, legacy) && CargoPart(env, cargo)
    ensures t in AppendBuildTasks(env, legacy, units, cargo, inventory) && RunsAsShard(t)
            <==> || (t in legacy && !IsNativeBuildKey(t.key) && !PythonKey(t.key))
                 || (exists u | u in units :: !u.nativeProducer && t == TsTask(env, u))
                 || t in cargo
  {
    InAppended(env, legacy, units, cargo, inventory, t);
    InWithoutNative(legacy, t);
    InTsTasks(env, units, t);
    if t in cargo { CargoShape(env, cargo, t); }
    hide AppendBuildTasks, WithoutNative, TsTasks, CargoPart, NeedsProducer, IsNativeBuildKey, StableIdentity;
    assert t in legacy ==> LegacyTask(dirs, t);
  }

  // ---------------------------------------------------------------- native producer

  /** The plan has a producer exactly when one was found necessary, and every consumer makes it necessary. */
  lemma {:induction false} AppendedPlanIsCovered(env: Env, dirs: set<string>, legacy: seq<Task>, units: seq<TsUnit>,
                                                 cargo: seq<Task>, inventory: Inventory)
    requires LegacyPlan(dirs, legacy) && CargoPart(env, cargo)
    ensures var plan := AppendBuildTasks(env, legacy, units, cargo, inventory);
            (HasNative(plan) <==> NeedsProducer(env, legacy, units, cargo, inventory))
            && (ConsumesNative(plan) ==> HasNative(plan))
  {
    hide AppendBuildTasks, LegacyTask, CargoPart, NeedsNative, WithoutNative, TsTasks, CargoNeedsProducer;
    var plan := AppendBuildTasks(env, legacy, units, cargo, inventory);
    var needed := NeedsProducer(env, legacy, units, cargo, inventory);
    forall t | t in plan ensures (Effective(t).nativeProducer ==> needed) && (Effective(t).nativeConsumer ==> needed) {
      NeedIsSeen(env, dirs, legacy, units, cargo, inventory, t);
    }
    if needed {
      InAppended(env, legacy, units, cargo, inventory, NativeProducer());
      assert Effective(NativeProducer()).nativeProducer;
    }
  }

  lemma {:induction false} NeedIsSeen(env: Env, dirs: set<string>, legacy: seq<Task>, units: seq<TsUnit>,
                                      cargo: seq<Task>, inventory: Inventory, t: Task)
    requires LegacyPlan(dirs, legacy) && CargoPart(env, cargo)
    requires t in AppendBuildTasks(env, legacy, units, cargo, inventory)
    ensures Effective(t).nativeProducer || Effective(t).nativeConsumer
            ==> NeedsProducer(env, legacy, units, cargo, inventory)
  {
    hide AppendBuildTasks, LegacyTask, CargoPart, NeedsNative, WithoutNative, TsTasks, CargoNeedsProducer,
      StableIdentity;
    InAppended(env, legacy, units, cargo, inventory, t);
    if t in WithoutNative(legacy) {
      WithoutNativeIsPlan(dirs, legacy);
      LegacyEffective(dirs, t);
    } else if t in TsTasks(env, units) {
      InTsTasks(env, units, t);
    } else if t in cargo {
      CargoShape(env, cargo, t);
    }
  }

  /** Building the crate behind the addon, or the whole Cargo workspace, brings the producer along. */
  lemma {:induction false} AddonSourceBringsProducer(env: Env, dirs: set<string>, legacy: seq<Task>,
                                                     units: seq<TsUnit>, cargo: seq<Task>, inventory: Inventory,
                                                         u: CargoUnit)
    requires LegacyPlan(dirs, legacy) && CargoPart(env, cargo)
    requires u in inventory.cargo && u.nativeAddonSource
    requires CargoTask(env, u) in cargo || (inventory.hasEmergency && EmergencyTask() in cargo)
    ensures NativeProducer() in AppendBuildTasks(env, legacy, units, cargo, inventory)
  {
    hide AppendBuildTasks, LegacyPlan, CargoPart, StableIdentity;
    InAppended(env, legacy, units, cargo, inventory, NativeProducer());
    var t := if CargoTask(env, u) in cargo then CargoTask(env, u) else EmergencyTask();
    assert t in cargo && ((inventory.hasEmergency && t.key == EMERGENCY_KEY)
                          || t.identity == Some(StableIdentity(env, CARGO_DOMAIN, u.id, u.manifestPath)));
    assert CargoNeedsProducer(env, inventory, cargo);
  }

  // ---------------------------------------------------------------- distinct keys and identities

  predicate Distinct(names: seq<string>) { forall i, j | 0 <= i < j < |names| :: names[i] != names[j] }

  function KeySeq(tasks: seq<Task>): seq<string> { seq(|tasks|, i requires 0 <= i < |tasks| => tasks[i].key) }

  function IdentitySeq(env: Env, tasks: seq<Task>): seq<string> {
    seq(|tasks|, i requires 0 <= i < |tasks| => CanonicalIdentity(env, tasks[i]))
  }

  lemma {:induction false} ConcatDistinct(a: seq<string>, b: seq<string>)
    requires Distinct(a) && Distinct(b) && forall x, y | x in a && y in b :: x != y
    ensures Distinct(a + b)
  {
    forall i, j | 0 <= i < j < |a + b| ensures (a + b)[i] != (a + b)[j] {
      if i < |a| <= j { assert a[i] in a && b[j - |a|] in b; }
    }
  }

  /** Length of the part before the first colon. */
  function Head(s: string): nat { if s == "" || s[0] == ':' then 0 else 1 + Head(s[1..]) }

  lemma {:induction false} HeadOf(a: string, rest: string)
    requires ':' !in a
    ensures Head(a + ":" + rest) == |a|
  {
    if a == "" {
      assert a + ":" + rest == ":" + rest;
    } else {
      assert (a + ":" + rest)[1..] == a[1..] + ":" + rest;
      HeadOf(a[1..], rest);
    }
  }

  /** Within one domain the identity determines the id. */
  lemma {:induction false} IdentityDeterminesId(env: Env, domain: string, a: string, la: string, b: string, lb: string)
    requires Encodes(env.encode)
    requires StableIdentity(env, domain, a, la) == StableIdentity(env, domain, b, lb)
    ensures a == b
  {
    var s, t := StableIdentity(env, domain, a, la), StableIdentity(env, domain, b, lb);
    var x, y := env.encode(a) + ":" + env.encode(la), env.encode(b) + ":" + env.encode(lb);
    assert s == domain + ":" + x && t == domain + ":" + y;
    assert x == s[|domain| + 1..] && y == t[|domain| + 1..];
    HeadOf(env.encode(a), env.encode(la));
    HeadOf(env.encode(b), env.encode(lb));
    assert env.encode(a) == x[..|env.encode(a)|] && env.encode(b) == y[..|env.encode(b)|];
  }

  lemma {:induction false} LegacyDistinct(env: Env, dirs: set<string>, tasks: seq<Task>)
    requires Encodes(env.encode) && LegacyPlan(dirs, tasks)
    ensures Distinct(KeySeq(tasks)) && Distinct(IdentitySeq(env, tasks))
    ensures forall k | k in KeySeq(tasks) :: LegacyKey(k)
    ensures forall x | x in IdentitySeq(env, tasks) :: |x| > 0 && x[0] == 'l'
  {
    hide StableIdentity, Encodes;
    var ids := IdentitySeq(env, tasks);
    forall i | 0 <= i < |tasks| ensures ids[i] == StableIdentity(env, LEGACY_DOMAIN, tasks[i].key,
      RelativeCwd(tasks[i])) && LegacyKey(tasks[i].key) {
      assert tasks[i] in tasks;
    }
    forall i, j | 0 <= i < j < |tasks| ensures ids[i] != ids[j] {
      if ids[i] == ids[j] {
        IdentityDeterminesId(env, LEGACY_DOMAIN, tasks[i].key, RelativeCwd(tasks[i]), tasks[j].key,
                             RelativeCwd(tasks[j]));
      }
    }
    forall x | x in ids ensures |x| > 0 && x[0] == 'l' {
      var i :| 0 <= i < |tasks| && ids[i] == x;
      StableStarts(env, LEGACY_DOMAIN, tasks[i].key, RelativeCwd(tasks[i]));
    }
  }

  lemma {:induction false} TsDistinct(env: Env, units: seq<TsUnit>)
    requires Encodes(env.encode) && DistinctTsIds(units)
    ensures Distinct(KeySeq(TsTasks(env, units))) && Distinct(IdentitySeq(env, TsTasks(env, units)))
    ensures forall k | k in KeySeq(TsTasks(env, units)) :: |k| > 2 && k[0] == 't' && k[1] == 's'
    ensures forall x | x in IdentitySeq(env, TsTasks(env, units)) :: |x| > 0 && x[0] == 't'
  {
    hide StableIdentity, Encodes;
    var tasks := TsTasks(env, units);
    var keys, ids := KeySeq(tasks), IdentitySeq(env, tasks);
    forall i | 0 <= i < |units|
      ensures ids[i] == StableIdentity(env, TS_DOMAIN, units[i].id, units[i].dir) && keys[i] == "ts-build:" + ids[i]
              && |ids[i]| > 0 && ids[i][0] == 't'
    {
      assert tasks[i] == TsTask(env, units[i]);
      StableStarts(env, TS_DOMAIN, units[i].id, units[i].dir);
    }
    forall i, j | 0 <= i < j < |units| ensures ids[i] != ids[j] {
      if ids[i] == ids[j] {
        IdentityDeterminesId(env, TS_DOMAIN, units[i].id, units[i].dir, units[j].id, units[j].dir);
      }
    }
    PrefixedDistinct("ts-build:", ids, keys);
  }

  lemma {:induction false} PrefixedDistinct(prefix: string, ids: seq<string>, keys: seq<string>)
    requires |keys| == |ids| && Distinct(ids) && forall i | 0 <= i < |ids| :: keys[i] == prefix + ids[i]
    ensures Distinct(keys)
  {
    forall i, j | 0 <= i < j < |keys| ensures keys[i] != keys[j] {
      assert ids[i] == keys[i][|prefix|..] && ids[j] == keys[j][|prefix|..];
    }
  }

  lemma {:induction false} CargoUnitsDistinct(env: Env, units: seq<CargoUnit>)
    requires Encodes(env.encode) && DistinctCargoIds(units)
    ensures Distinct(KeySeq(CargoTasks(env, units))) && Distinct(IdentitySeq(env, CargoTasks(env, units)))
  {
    hide StableIdentity, Encodes;
    var tasks := CargoTasks(env, units);
    var keys, ids := KeySeq(tasks), IdentitySeq(env, tasks);
    forall i | 0 <= i < |units|
      ensures ids[i] == StableIdentity(env, CARGO_DOMAIN, units[i].id, units[i].manifestPath)
              && keys[i] == "cargo-build:" + ids[i]
    {
      assert tasks[i] == CargoTask(env, units[i]);
    }
    forall i, j | 0 <= i < j < |units| ensures ids[i] != ids[j] {
      if ids[i] == ids[j] {
        IdentityDeterminesId(env, CARGO_DOMAIN, units[i].id, units[i].manifestPath, units[j].id, units[j].manifestPath);
      }
    }
    PrefixedDistinct("cargo-build:", ids, keys);
  }

  lemma {:induction false} CargoDistinct(env: Env, cargo: seq<Task>)
    requires Encodes(env.encode) && CargoPart(env, cargo)
    ensures Distinct(KeySeq(cargo)) && Distinct(IdentitySeq(env, cargo))
    ensures forall k | k in KeySeq(cargo) :: |k| > 2 && k[0] == 'c' && k[1] == 'a'
    ensures forall x | x in IdentitySeq(env, cargo) :: |x| > 0 && (x[0] == 'c' || x[0] == 'e')
  {
    hide Encodes, CargoTasks, EmergencyTask, StableIdentity;
    if cargo != [EmergencyTask()] {
      var units: seq<CargoUnit> :| DistinctCargoIds(units) && cargo == CargoTasks(env, units);
      CargoUnitsDistinct(env, units);
    }
    forall i | 0 <= i < |cargo|
      ensures |cargo[i].key| > 2 && cargo[i].key[0] == 'c' && cargo[i].key[1] == 'a' && cargo[i].identity.Some?
              && |cargo[i].identity.value| > 0 && (cargo[i].identity.value[0] == 'c'
                || cargo[i].identity.value[0] == 'e')
    {
      CargoShape(env, cargo, cargo[i]);
    }
  }

  lemma {:induction false} ProducerNames(env: Env, needed: bool)
    ensures KeySeq(Producer(needed)) == (if needed then [NATIVE_KEY] else [])
    ensures IdentitySeq(env, Producer(needed)) == (if needed then [NATIVE_IDENTITY] else [])
  {
  }

  lemma {:induction false} NamesOfConcat(env: Env, a: seq<Task>, b: seq<Task>)
    ensures KeySeq(a + b) == KeySeq(a) + KeySeq(b) && IdentitySeq(env, a + b) == IdentitySeq(env, a)
            + IdentitySeq(env, b)
  {
  }

  lemma {:induction false} DistinctTasks(env: Env, tasks: seq<Task>)
    ensures Distinct(KeySeq(tasks)) <==> DistinctKeys(tasks)
    ensures Distinct(IdentitySeq(env, tasks)) <==> DistinctIdentities(env, tasks)
  {
    hide CanonicalIdentity;
    var keys, ids := KeySeq(tasks), IdentitySeq(env, tasks);
    assert forall i | 0 <= i < |tasks| :: keys[i] == tasks[i].key && ids[i] == CanonicalIdentity(env, tasks[i]);
  }

  /** Four groups of keys, told apart by their first letters. */
  lemma {:induction false} KeysApart(legacy: seq<string>, native: seq<string>, ts: seq<string>, cargo: seq<string>)
    requires Distinct(legacy) && Distinct(ts) && Distinct(cargo)
    requires native == [] || native == [NATIVE_KEY]
    requires forall k | k in legacy :: LegacyKey(k) && k != NATIVE_KEY
    requires forall k | k in ts :: |k| > 2 && k[0] == 't' && k[1] == 's'
    requires forall k | k in cargo :: |k| > 2 && k[0] == 'c' && k[1] == 'a'
    ensures Distinct(legacy + native + ts + cargo)
  {
    assert NATIVE_KEY[0] == 'n';
    ConcatDistinct(legacy, native);
    ConcatDistinct(legacy + native, ts);
    ConcatDistinct(legacy + native + ts, cargo);
  }

  lemma {:induction false} IdentitiesApart(legacy: seq<string>, native: seq<string>, ts: seq<string>,
                                           cargo: seq<string>)
    requires Distinct(legacy) && Distinct(ts) && Distinct(cargo)
    requires native == [] || native == [NATIVE_IDENTITY]
    requires forall x | x in legacy :: |x| > 0 && x[0] == 'l'
    requires forall x | x in ts :: |x| > 0 && x[0] == 't'
    requires forall x | x in cargo :: |x| > 0 && (x[0] == 'c' || x[0] == 'e')
    ensures Distinct(legacy + native + ts + cargo)
  {
    assert NATIVE_IDENTITY[0] == 'n';
    ConcatDistinct(legacy, native);
    ConcatDistinct(legacy + native, ts);
    ConcatDistinct(legacy + native + ts, cargo);
  }

  /** No key and no identity repeats in an appended plan; in particular it has at most one native-linux-x64 task. */
  lemma {:induction false} AppendedPlanIsDistinct(env: Env, dirs: set<string>, legacy: seq<Task>, units: seq<TsUnit>,
                                                  cargo: seq<Task>, inventory: Inventory)
    requires Encodes(env.encode) && LegacyPlan(dirs, legacy) && DistinctTsIds(units) && CargoPart(env, cargo)
    ensures var plan := AppendBuildTasks(env, legacy, units, cargo, inventory);
            DistinctKeys(plan) && DistinctIdentities(env, plan)
  {
    hide LegacyPlan, WithoutNative, TsTasks, NeedsProducer, KeySeq, IdentitySeq, Encodes, CargoPart, DistinctKeys,
      DistinctIdentities;
    var a, b, c := WithoutNative(legacy), Producer(NeedsProducer(env, legacy, units, cargo, inventory)),
      TsTasks(env, units);
    WithoutNativeIsPlan(dirs, legacy);
    LegacyDistinct(env, dirs, a);
    TsDistinct(env, units);
    CargoDistinct(env, cargo);
    ProducerNames(env, NeedsProducer(env, legacy, units, cargo, inventory));
    forall k | k in KeySeq(a) ensures k != NATIVE_KEY { NoNativeKey(a, k); }
    NamesOfConcat(env, a, b);
    NamesOfConcat(env, a + b, c);
    NamesOfConcat(env, a + b + c, cargo);
    KeysApart(KeySeq(a), KeySeq(b), KeySeq(c), KeySeq(cargo));
    IdentitiesApart(IdentitySeq(env, a), IdentitySeq(env, b), IdentitySeq(env, c), IdentitySeq(env, cargo));
    DistinctTasks(env, a + b + c + cargo);
  }

  lemma {:induction false} NoNativeKey(tasks: seq<Task>, k: string)
    requires forall t | t in tasks :: !IsNativeBuildKey(t.key)
    requires k in KeySeq(tasks)
    ensures k != NATIVE_KEY
  {
    var i :| 0 <= i < |tasks| && KeySeq(tasks)[i] == k;
    assert tasks[i] in tasks;
  }

  // ---------------------------------------------------------------- the plan file and the evidence

  /** A directory that the plan reader admits once it is resolved. */
  predicate SafeDir(dir: string) { AdmittedCwd(Canonical(dir)) }

  lemma {:induction false} AppendedTaskIsSound(env: Env, dirs: set<string>, legacy: seq<Task>, units: seq<TsUnit>,
                                               cargo: seq<Task>, inventory: Inventory, t: Task)
    requires LegacyPlan(dirs, legacy) && CargoPart(env, cargo)
    requires (forall d | d in dirs :: SafeDir(d)) && forall u | u in units :: SafeDir(u.dir)
    requires t in AppendBuildTasks(env, legacy, units, cargo, inventory)
    ensures Loadable(env, t) && !ImplicitProducer(t)
  {
    hide AppendBuildTasks, CargoPart, WithoutNative, TsTasks, NeedsProducer, NeedsNative;
    InAppended(env, legacy, units, cargo, inventory, t);
    if t in WithoutNative(legacy) {
      WithoutNativeIsPlan(dirs, legacy);
      StableStarts(env, LEGACY_DOMAIN, t.key, RelativeCwd(t));
    } else if t in TsTasks(env, units) {
      InTsTasks(env, units, t);
      var u :| u in units && t == TsTask(env, u);
      StableStarts(env, TS_DOMAIN, u.id, u.dir);
    } else if t in cargo {
      CargoShape(env, cargo, t);
    }
  }

  /**
   * The plan survives the plan file: it loads, re-serialises to the same records, the matrix that was emitted is
   * the receipt list demanded from the loaded plan, and all three flags agree with it.
   */
  predicate Agrees(env: Env, plan: seq<Task>) {
    var loaded := LoadPlan(env, SerializeTasks(env, plan));
    loaded.Ok?
    && SerializeTasks(env, loaded.value) == SerializeTasks(env, plan)
    && Shards(env, loaded.value) == Shards(env, plan)
    && (DeclaresNative(loaded.value) <==> HasNative(plan))
    && (HasShards(loaded.value) <==> Shards(env, plan) != [])
    && (HasPython(loaded.value) <==> HasPython(plan))
  }

  lemma {:induction false} AppendedPlanAgrees(env: Env, dirs: set<string>, legacy: seq<Task>, units: seq<TsUnit>,
                                              cargo: seq<Task>, inventory: Inventory)
    requires Encodes(env.encode) && LegacyPlan(dirs, legacy) && DistinctTsIds(units) && CargoPart(env, cargo)
    requires (forall d | d in dirs :: SafeDir(d)) && forall u | u in units :: SafeDir(u.dir)
    ensures Agrees(env, AppendBuildTasks(env, legacy, units, cargo, inventory))
  {
    hide AppendBuildTasks, LegacyPlan, CargoPart, DistinctTsIds, LoadPlan, SerializeTasks, Loadable, ImplicitProducer,
      Shards,
      DistinctKeys, DistinctIdentities, Encodes, FilledAll, HasNative, HasPython, HasShards, DeclaresNative;
    var plan := AppendBuildTasks(env, legacy, units, cargo, inventory);
    forall i | 0 <= i < |plan| ensures Loadable(env, plan[i]) && !ImplicitProducer(plan[i]) {
      AppendedTaskIsSound(env, dirs, legacy, units, cargo, inventory, plan[i]);
    }
    AppendedPlanIsDistinct(env, dirs, legacy, units, cargo, inventory);
    PlanRoundTrip(env, plan);
    MatrixMatchesReceipts(env, plan);
    FlagsAgree(env, plan);
    ShardsNonEmpty(env, FilledAll(env, plan));
  }

  /** What one planning job is given besides the changed paths. */
  datatype Inputs = Inputs(
    packages: seq<Owner>, total: nat, tsFallback: bool, touched: seq<DependentExpansion.Package>,
    workspace: seq<DependentExpansion.Package>, change: CargoChange, inventory: Inventory, metadata: Metadata)

  /** The string libraries behave, and every directory a task may run in is safe. */
  ghost predicate SafeInputs(env: Env, paths: seq<PathInfo>, inputs: Inputs) {
    Encodes(env.encode)
    && (forall d | d in PlanDirs(paths, inputs.packages) :: SafeDir(d))
    && forall u | u in inputs.inventory.typescript :: SafeDir(u.dir)
  }

  /** The pull-request plan from end to end: covered for every input, and in agreement with what later jobs read. */
  method ResolvePlannedTasks(env: Env, paths: seq<PathInfo>, inputs: Inputs) returns (r: Result<seq<Task>, string>)
    requires ValidInventory(inputs.inventory) && MetadataOf(inputs.metadata, inputs.inventory.cargo)
    ensures r.Ok? && ConsumesNative(r.value) ==> HasNative(r.value)
    ensures r.Ok? && (paths == [] || Relevant(paths) != []) && SafeInputs(env, paths, inputs) ==> Agrees(env, r.value)
    ensures r.Ok? ==> WithoutNativeKeys(WithProducer(AskedKeys(paths, inputs.packages, inputs.total))) <= Keys(r.value)
  {
    hide AskedKeys, LegacyPlan, Keys, Relevant, ValidInventory, MetadataOf, CargoPlan, CargoPart, Agrees, HasNative,
      ConsumesNative,
      AppendBuildTasks, DistinctTsIds, Encodes, PlanDirs, Quiet, BuildsAll, DependentExpansion.Names;
    hide Reachability.Reaches, DependentExpansion.Relates;
    ghost var dirs := PlanDirs(paths, inputs.packages);
    var legacy := PlanTargetedTasks(paths, inputs.packages, inputs.total);
    var relevant := FilterRelevant(paths);
    if paths != [] && relevant == [] {
      ProducerIffConsumer(dirs, legacy, paths, inputs.packages, inputs.total);
      return Ok(legacy);
    }
    var units := SelectTsBuildUnits(inputs.tsFallback, inputs.touched, inputs.workspace, inputs.inventory);
    var cargo := SelectCargoBuildTasks(env, inputs.change, inputs.inventory, inputs.metadata);
    if cargo.Err? { return Err(cargo.error); }
    CargoPlanIsPart(env, inputs.change, inputs.inventory, inputs.metadata, cargo.value);
    AppendedPlanIsCovered(env, dirs, legacy, units, cargo.value, inputs.inventory);
    if SafeInputs(env, paths, inputs) {
      AppendedPlanAgrees(env, dirs, legacy, units, cargo.value, inputs.inventory);
    }
    AppendedKeepsKeys(env, dirs, legacy, units, cargo.value, inputs.inventory);
    return Ok(AppendBuildTasks(env, legacy, units, cargo.value, inputs.inventory));
  }

  function WithoutNativeKeys(keys: set<string>): set<string> { set k | k in keys && !IsNativeBuildKey(k) }

  /** Appending build tasks drops nothing but a native build under its old declaration. */
  lemma {:induction false} AppendedKeepsKeys(env: Env, dirs: set<string>, legacy: seq<Task>, units: seq<TsUnit>,
                                             cargo: seq<Task>, inventory: Inventory)
    requires LegacyPlan(dirs, legacy)
    ensures WithoutNativeKeys(Keys(legacy)) <= Keys(AppendBuildTasks(env, legacy, units, cargo, inventory))
  {
    hide LegacyPlan, WithoutNative, NeedsProducer, TsTasks;
    WithoutNativeIsPlan(dirs, legacy);
    forall k | k in WithoutNativeKeys(Keys(legacy)) ensures k in Keys(AppendBuildTasks(env, legacy, units, cargo,
      inventory)) {
      var t :| t in legacy && t.key == k;
      assert t in WithoutNative(legacy);
      InAppended(env, legacy, units, cargo, inventory, t);
    }
  }

  /**
   * A documentation-only plan is emitted without build tasks; its matrix is then wrong exactly when the docs gate is
   * in it.
   */
  lemma {:induction false} DocOnlyPlanDisagrees(env: Env, dirs: set<string>, plan: seq<Task>, paths: seq<PathInfo>,
                                                packages: seq<Owner>, total: nat)
    requires LegacyPlan(dirs, plan) && Keys(plan) == WithProducer(AskedKeys(paths, packages, total))
    requires Relevant(paths) == []
    requires LoadPlan(env, SerializeTasks(env, plan)).Ok?
    ensures Shards(env, LoadPlan(env, SerializeTasks(env, plan)).value) == Shards(env, plan) <==> !AnyDocs(paths)
  {
    hide LoadPlan, SerializeTasks, Shards, AskedKeys, Relevant, AnyDocs, NeedsNative, TestKey;
    MatrixMatchesReceipts(env, plan);
    NothingRelevant(paths, packages, total);
    if AnyDocs(paths) {
      GateNeedsNative();
      assert WithProducer({TestKey(GATE_TEST)}) == {TestKey(GATE_TEST)} + {NATIVE_KEY};
      assert NATIVE_KEY in Keys(plan);
      var t :| t in plan && t.key == NATIVE_KEY;
      var i :| 0 <= i < |plan| && plan[i] == t;
      assert ImplicitProducer(t) by { NativeTaskIsImplicit(dirs, t); }
    } else {
      assert Keys(plan) == {};
      if plan != [] { SomeKey(plan); }
    }
  }

  /** One changed page under docs/. */
  function DocsPage(): PathInfo {
    PathInfo(true, true, false, false, false, false, false, false, false, false, false, false, false, false, false,
             false, false,
             [], [], None)
  }

  /** The plan for that page: the docs gate, and the native build it needs. */
  function DocsGatePlan(): seq<Task> {
    [Task(TestKey(GATE_TEST), None, "Test " + GATE_TEST, ["bun", "test", GATE_TEST], None, None, None),
     Task(NATIVE_KEY, None, "Build linux x64 native addons",
          ["bash", "-lc", "TARGET_VARIANTS=\"baseline modern\" bun scripts/ci-build-native.ts"], None, None, None)]
  }

  lemma {:induction false} DocsGateIsPlanned(packages: seq<Owner>, total: nat)
    ensures LegacyPlan({}, DocsGatePlan()) && Relevant([DocsPage()]) == []
    ensures Keys(DocsGatePlan()) == WithProducer(AskedKeys([DocsPage()], packages, total))
  {
    hide NeedsNative, AskedKeys, TestKey;
    var plan, gate := DocsGatePlan(), TestKey(GATE_TEST);
    GateNeedsNative();
    assert LegacyKey(gate) && !PythonKey(gate) by { GateIsLegacy(); }
    assert NATIVE_KEY[0] == 'n';
    assert LegacyTask({}, plan[0]) && LegacyTask({}, plan[1]);
    assert [DocsPage()][..0] == [];
    NothingRelevant([DocsPage()], packages, total);
    assert AnyDocs([DocsPage()]) by { assert [DocsPage()][0].embeddedDocs; }
    assert Keys(plan) == {gate, NATIVE_KEY} by { assert plan[0] in plan && plan[1] in plan; }
    assert Consumes({gate}) && !Produces({gate});
  }

  lemma {:induction false} GateIsLegacy()
    ensures LegacyKey(TestKey(GATE_TEST)) && !PythonKey(TestKey(GATE_TEST))
  {
    var key := TestKey(GATE_TEST);
    assert key[0] == 't' && key[1] == 'e';
  }

  lemma {:induction false} LegacyLoads(env: Env, dirs: set<string>, plan: seq<Task>)
    requires Encodes(env.encode) && LegacyPlan(dirs, plan) && forall d | d in dirs :: SafeDir(d)
    ensures LoadPlan(env, SerializeTasks(env, plan)).Ok?
  {
    hide LoadPlan, SerializeTasks, Encodes, Canonical, StableIdentity;
    LegacyDistinct(env, dirs, plan);
    DistinctTasks(env, plan);
    forall i | 0 <= i < |plan| ensures Loadable(env, plan[i]) {
      assert plan[i] in plan;
      StableStarts(env, LEGACY_DOMAIN, plan[i].key, RelativeCwd(plan[i]));
    }
    PlanRoundTrip(env, plan);
  }

  /**
   * Changing one docs page gives a plan that loads, and whose emitted matrix is not the receipt list demanded of it.
   */
  lemma {:induction false} DocsPageDisagrees(env: Env)
    requires Encodes(env.encode)
    ensures LoadPlan(env, SerializeTasks(env, DocsGatePlan())).Ok?
    ensures Shards(env, LoadPlan(env, SerializeTasks(env, DocsGatePlan())).value) != Shards(env, DocsGatePlan())
  {
    hide LoadPlan, SerializeTasks, Shards, AskedKeys, Encodes, LegacyPlan, DocsGatePlan, Keys, WithProducer, Relevant;
    DocsGateIsPlanned([], 0);
    LegacyLoads(env, {}, DocsGatePlan());
    DocOnlyPlanDisagrees(env, {}, DocsGatePlan(), [DocsPage()], [], 0);
    assert AnyDocs([DocsPage()]) by { assert [DocsPage()][0].embeddedDocs; }
  }

  lemma {:induction false} SomeKey(plan: seq<Task>)
    requires plan != []
    ensures Keys(plan) != {}
  {
    assert plan[0].key in Keys(plan);
  }

  lemma {:induction false} GateNeedsNative()
    ensures NeedsNative(TestKey(GATE_TEST)) && !IsNativeBuildKey(TestKey(GATE_TEST))
  {
    var key := TestKey(GATE_TEST);
    assert key[0] == 't' && key[..5] == "test:";
  }

  lemma {:induction false} NativeTaskIsImplicit(dirs: set<string>, t: Task)
    requires LegacyTask(dirs, t) && t.key == NATIVE_KEY
    ensures ImplicitProducer(t)
  {
  }
}
