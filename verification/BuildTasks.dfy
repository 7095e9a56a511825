/** Build tasks appended to a plan: which units are built, and what holds of the whole appended plan. */
module BuildTasks {
  import opened Common
  import opened AffectedTask
  import Reachability
  import DependentExpansion
  import CargoExpansion

  type CargoUnit = CargoExpansion.CargoUnit

  datatype TsUnit = TsUnit(id: string, name: string, dir: string, nativeConsumer: bool, nativeProducer: bool)

  datatype Inventory = Inventory(typescript: seq<TsUnit>, cargo: seq<CargoUnit>, hasEmergency: bool)

  const EMERGENCY_KEY := "cargo-build:emergency:workspace"
  const EMERGENCY_IDENTITY := "emergency:cargo-workspace:root"
  const NATIVE_IDENTITY := "native:linux-x64:baseline-modern"

  // ---------------------------------------------------------------- the inventory

  predicate DistinctTsIds(units: seq<TsUnit>) {
    forall i, j | 0 <= i < j < |units| :: units[i].id != units[j].id
  }

  predicate DistinctCargoIds(units: seq<CargoUnit>) {
    forall i, j | 0 <= i < j < |units| :: units[i].id != units[j].id
  }

  function Occurrences(units: seq<CargoUnit>, name: string): nat {
    if units == [] then 0
    else Occurrences(units[..|units| - 1], name) + if units[|units| - 1].name == name then 1 else 0
  }

  /** What assertInventory demands and these results use. */
  predicate ValidInventory(inventory: Inventory) {
    DistinctTsIds(inventory.typescript) && DistinctCargoIds(inventory.cargo)
    && (SharesName(inventory.cargo, inventory.cargo) ==> inventory.hasEmergency)
  }

  // ---------------------------------------------------------------- TypeScript units

  function Named(units: seq<TsUnit>, names: set<string>): seq<TsUnit> {
    if units == [] then []
    else Named(units[..|units| - 1], names) + if units[|units| - 1].name in names then [units[|units| - 1]] else []
  }

  lemma {:induction false} NamedIsSubsequence(units: seq<TsUnit>, names: set<string>)
    requires DistinctTsIds(units)
    ensures DistinctTsIds(Named(units, names))
    ensures forall u :: u in Named(units, names) <==> u in units && u.name in names
  {
    if units != [] {
      var n := |units| - 1;
      assert DistinctTsIds(units[..n]);
      NamedIsSubsequence(units[..n], names);
      assert units == units[..n] + [units[n]];
      forall u | u in units[..n] ensures u.id != units[n].id {
        var i :| 0 <= i < n && units[..n][i] == u;
        assert units[i].id != units[n].id;
      }
    }
  }

  /** The units to build are those whose package reaches a touched one, or every workspace unit on fallback. */
  method SelectTsBuildUnits(fallback: bool, touched: seq<DependentExpansion.Package>,
                            packages: seq<DependentExpansion.Package>,
                            inventory: Inventory) returns (units: seq<TsUnit>)
    requires ValidInventory(inventory)
    ensures DistinctTsIds(units)
    ensures forall u :: u in units <==>
              u in inventory.typescript
              && if fallback then u.name in DependentExpansion.Names(packages)
                 else Reachability.Reaches(DependentExpansion.Relates(packages), DependentExpansion.Names(touched),
                                           u.name)
  {
    hide Reachability.Reaches, DependentExpansion.Relates, DependentExpansion.FromWorkspace;
    var names := DependentExpansion.Names(packages);
    if !fallback {
      var selected := DependentExpansion.ExpandWithDependents(touched, packages);
      names := selected.Keys;
    }
    units := [];
    for i := 0 to |inventory.typescript|
      invariant units == Named(inventory.typescript[..i], names)
    {
      assert inventory.typescript[..i + 1][..i] == inventory.typescript[..i];
      if inventory.typescript[i].name in names { units := units + [inventory.typescript[i]]; }
    }
    assert inventory.typescript[..|inventory.typescript|] == inventory.typescript;
    NamedIsSubsequence(inventory.typescript, names);
  }

  // ---------------------------------------------------------------- Cargo units

  /**
   * What the changed paths mean for Cargo: a workspace-wide trigger, and the Rust paths with the units that own them.
   */
  datatype CargoChange = CargoChange(fallbackAll: bool, rustOwners: seq<set<string>>)

  datatype Metadata = Unusable | Drifted | Usable(workspace: CargoExpansion.Workspace)

  predicate MetadataOf(metadata: Metadata, supported: seq<CargoUnit>) {
    metadata.Usable? ==> forall u | u in metadata.workspace.byPackageId.Values :: u in supported
  }

  function WithIds(units: seq<CargoUnit>, ids: set<string>): seq<CargoUnit> {
    if units == [] then []
    else WithIds(units[..|units| - 1], ids) + if units[|units| - 1].id in ids then [units[|units| - 1]] else []
  }

  function OwnerIds(rustOwners: seq<set<string>>): set<string> { set o, id | o in rustOwners && id in o :: id }

  lemma {:induction false} WithIdsIsSubsequence(units: seq<CargoUnit>, ids: set<string>)
    requires DistinctCargoIds(units)
    ensures DistinctCargoIds(WithIds(units, ids))
    ensures forall u :: u in WithIds(units, ids) <==> u in units && u.id in ids
  {
    if units != [] {
      var n := |units| - 1;
      assert DistinctCargoIds(units[..n]);
      WithIdsIsSubsequence(units[..n], ids);
      assert units == units[..n] + [units[n]];
      forall u | u in units[..n] ensures u.id != units[n].id {
        var i :| 0 <= i < n && units[..n][i] == u;
        assert units[i].id != units[n].id;
      }
    }
  }

  predicate UnownedPath(change: CargoChange, supported: seq<CargoUnit>) {
    exists i | 0 <= i < |change.rustOwners| :: forall u | u in supported :: u.id !in change.rustOwners[i]
  }

  predicate BuildsAll(change: CargoChange, supported: seq<CargoUnit>, metadata: Metadata) {
    change.fallbackAll || (change.rustOwners != [] && (UnownedPath(change, supported) || metadata.Unusable?))
  }

  predicate Quiet(change: CargoChange) { !change.fallbackAll && change.rustOwners == [] }

  ghost predicate CargoSelected(change: CargoChange, supported: seq<CargoUnit>, metadata: Metadata, u: CargoUnit) {
    u in supported
    && (BuildsAll(change, supported, metadata)
        || (!Quiet(change) && metadata.Usable?
            && Reachability.Reaches(CargoExpansion.Relates(metadata.workspace),
                                    CargoExpansion.IdsOf(WithIds(supported, OwnerIds(change.rustOwners))), u.id)))
  }

  /** The crates to build: none, all on fallback, and otherwise those that depend on a changed one. */
  method SelectCargoUnits(change: CargoChange, supported: seq<CargoUnit>, metadata: Metadata)
      returns (r: Result<seq<CargoUnit>, string>)
    requires DistinctCargoIds(supported) && MetadataOf(metadata, supported)
    ensures r.Err? <==> !Quiet(change) && !BuildsAll(change, supported, metadata) && metadata.Drifted?
    ensures r.Ok? ==> DistinctCargoIds(r.value)
    ensures r.Ok? ==> forall u :: u in r.value <==> CargoSelected(change, supported, metadata, u)
  {
    hide Reachability.Reaches, CargoExpansion.Relates, CargoExpansion.IdsOf, DistinctCargoIds, CargoExpansion.Keyed;
    if Quiet(change) {
      NoUnits();
      return Ok([]);
    }
    if change.fallbackAll || UnownedPath(change, supported) { return Ok(supported); }
    match metadata {
      case Unusable => return Ok(supported);
      case Drifted => return Err("inventory-drift");
      case Usable(w) =>
        var direct := WithIds(supported, OwnerIds(change.rustOwners));
        var selected := CargoExpansion.ExpandCargoDependents(direct, w);
        WithIdsIsSubsequence(supported, selected.Keys);
        return Ok(WithIds(supported, selected.Keys));
    }
  }

  lemma {:induction false} NoUnits()
    ensures DistinctCargoIds([])
  {
  }

  /** Does a selected crate share its name with another one? */
  method RequiresCargoWorkspaceEmergency(selected: seq<CargoUnit>, supported: seq<CargoUnit>) returns (r: bool)
    ensures r <==> SharesName(selected, supported)
  {
    var counts: map<string, nat> := map[];
    for i := 0 to |supported|
      invariant forall name :: (if name in counts then counts[name] else 0) == Occurrences(supported[..i], name)
    {
      assert supported[..i + 1][..i] == supported[..i];
      var name := supported[i].name;
      counts := counts[name := (if name in counts then counts[name] else 0) + 1];
    }
    assert supported[..|supported|] == supported;
    r := exists u | u in selected :: (if u.name in counts then counts[u.name] else 0) > 1;
  }

  function NativeProducer(): Task {
    Task(NATIVE_KEY, Some(NATIVE_IDENTITY), "Build linux x64 native addons",
         ["bash", "-lc", "TARGET_VARIANTS=\"baseline modern\" bun scripts/ci-build-native.ts"],
         Some("."), Some(Capabilities(true, false, false, true)), Some(NativeProducerPhase))
  }

  function EmergencyTask(): Task {
    Task(EMERGENCY_KEY, Some(EMERGENCY_IDENTITY), "Build Cargo workspace", ["cargo", "build", "--workspace"],
         Some("."), Some(Capabilities(true, false, false, false)), Some(CargoBuildPhase))
  }

  function CargoTask(env: Env, u: CargoUnit): Task {
    var identity := StableIdentity(env, CARGO_DOMAIN, u.id, u.manifestPath);
    Task("cargo-build:" + identity, Some(identity), "Build Cargo crate " + u.name,
         ["cargo", "build", "--package", u.name],
         Some("."), Some(Capabilities(true, false, false, false)), Some(CargoBuildPhase))
  }

  function TsTask(env: Env, u: TsUnit): Task {
    var identity := StableIdentity(env, TS_DOMAIN, u.id, u.dir);
    Task("ts-build:" + identity, Some(identity), "Build " + u.name, ["bun", "run", "build"],
         Some(u.dir), Some(Capabilities(false, false, u.nativeConsumer, u.nativeProducer)), Some(TsBuildPhase))
  }

  function CargoTasks(env: Env, units: seq<CargoUnit>): seq<Task> {
    seq(|units|, i requires 0 <= i < |units| => CargoTask(env, units[i]))
  }

  function TsTasks(env: Env, units: seq<TsUnit>): seq<Task> {
    seq(|units|, i requires 0 <= i < |units| => TsTask(env, units[i]))
  }

  /** The Cargo part of a plan: the workspace emergency alone, or one task for each of some distinct crates. */
  ghost predicate CargoPart(env: Env, tasks: seq<Task>) {
    tasks == [EmergencyTask()] || exists units :: DistinctCargoIds(units) && tasks == CargoTasks(env, units)
  }

  predicate SharesName(units: seq<CargoUnit>, supported: seq<CargoUnit>) {
    exists u | u in units :: Occurrences(supported, u.name) > 1
  }

  /** The tasks stand for exactly the selected crates, or for the whole workspace when a name is ambiguous. */
  ghost predicate Builds(env: Env, change: CargoChange, inventory: Inventory, metadata: Metadata,
                         units: seq<CargoUnit>, tasks: seq<Task>) {
    DistinctCargoIds(units)
    && (forall u :: u in units <==> CargoSelected(change, inventory.cargo, metadata, u))
    && tasks == if SharesName(units, inventory.cargo) then [EmergencyTask()] else CargoTasks(env, units)
  }

  ghost predicate CargoPlan(env: Env, change: CargoChange, inventory: Inventory, metadata: Metadata, tasks: seq<Task>) {
    exists units :: Builds(env, change, inventory, metadata, units, tasks)
  }

  lemma {:induction false} CargoPlanIsPart(env: Env, change: CargoChange, inventory: Inventory, metadata: Metadata,
                                           tasks: seq<Task>)
    requires CargoPlan(env, change, inventory, metadata, tasks)
    ensures CargoPart(env, tasks)
  {
    hide CargoSelected, CargoTasks, EmergencyTask, SharesName, DistinctCargoIds;
    var units :| Builds(env, change, inventory, metadata, units, tasks);
  }

  /** Fails only on drifted metadata: a valid inventory never lacks the emergency build when it is needed. */
  method SelectCargoBuildTasks(env: Env, change: CargoChange, inventory: Inventory, metadata: Metadata)
    returns (r: Result<seq<Task>, string>)
    requires ValidInventory(inventory) && MetadataOf(metadata, inventory.cargo)
    ensures r.Err? <==> !Quiet(change) && !BuildsAll(change, inventory.cargo, metadata) && metadata.Drifted?
    ensures r.Ok? ==> CargoPlan(env, change, inventory, metadata, r.value)
  {
    hide CargoSelected, CargoTasks, EmergencyTask, DistinctCargoIds, Quiet, BuildsAll;
    assert DistinctCargoIds(inventory.cargo) by { ValidIds(inventory); }
    var selected := SelectCargoUnits(change, inventory.cargo, metadata);
    if selected.Err? { return Err(selected.error); }
    var emergency := RequiresCargoWorkspaceEmergency(selected.value, inventory.cargo);
    if emergency {
      EmergencyExists(change, inventory, metadata, selected.value);
      if !inventory.hasEmergency { assert false; }
      assert Builds(env, change, inventory, metadata, selected.value, [EmergencyTask()]);
      return Ok([EmergencyTask()]);
    }
    assert Builds(env, change, inventory, metadata, selected.value, CargoTasks(env, selected.value));
    return Ok(CargoTasks(env, selected.value));
  }

  lemma {:induction false} ValidIds(inventory: Inventory)
    requires ValidInventory(inventory)
    ensures DistinctCargoIds(inventory.cargo) && DistinctTsIds(inventory.typescript)
  {
  }

  lemma {:induction false} EmergencyExists(change: CargoChange, inventory: Inventory, metadata: Metadata,
                                           selected: seq<CargoUnit>)
    requires ValidInventory(inventory)
    requires forall u :: u in selected <==> CargoSelected(change, inventory.cargo, metadata, u)
    requires SharesName(selected, inventory.cargo)
    ensures inventory.hasEmergency
  {
    hide Occurrences, DistinctTsIds, DistinctCargoIds;
    var u :| u in selected && Occurrences(inventory.cargo, u.name) > 1;
    assert u in inventory.cargo;
  }
}
