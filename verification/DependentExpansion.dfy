/** Reachability over an arbitrary dependency relation on names. */
module Reachability {
  /** edge(a, b): a depends directly on b. */
  type Relation = (string, string) -> bool

  predicate ChainLink(edge: Relation, chain: seq<string>, i: nat)
    requires i + 1 < |chain|
  {
    edge(chain[i], chain[i + 1])
  }

  predicate Chain(edge: Relation, chain: seq<string>, from: string, seeds: set<string>) {
    |chain| > 0 && chain[0] == from && chain[|chain| - 1] in seeds
    && forall i | 0 <= i < |chain| - 1 :: ChainLink(edge, chain, i)
  }

  /** Some chain of direct dependencies leads from the name to a seed. */
  ghost predicate Reaches(edge: Relation, seeds: set<string>, name: string) {
    exists chain :: Chain(edge, chain, name, seeds)
  }

  lemma {:induction false} SeedReaches(edge: Relation, seeds: set<string>, name: string)
    requires name in seeds
    ensures Reaches(edge, seeds, name)
  {
    assert Chain(edge, [name], name, seeds);
  }

  lemma {:induction false} DependentReaches(edge: Relation, seeds: set<string>, a: string, b: string)
    requires edge(a, b) && Reaches(edge, seeds, b)
    ensures Reaches(edge, seeds, a)
  {
    var chain :| Chain(edge, chain, b, seeds);
    var longer := [a] + chain;
    forall i | 0 <= i < |longer| - 1 ensures ChainLink(edge, longer, i) {
      if i > 0 {
        assert ChainLink(edge, chain, i - 1);
        assert longer[i] == chain[i - 1] && longer[i + 1] == chain[i];
      }
    }
    assert Chain(edge, longer, a, seeds);
  }

  /** Every direct dependent of b is in the set. */
  ghost predicate BackwardClosed(edge: Relation, names: set<string>, b: string) {
    forall a :: edge(a, b) ==> a in names
  }

  /** Every chain into a backward closed set starts in it. */
  lemma {:induction false} ChainStaysInside(edge: Relation, seeds: set<string>, names: set<string>, chain: seq<string>)
    requires seeds <= names
    requires forall b | b in names :: BackwardClosed(edge, names, b)
    requires |chain| > 0 && Chain(edge, chain, chain[0], seeds)
    ensures chain[0] in names
    decreases |chain|
  {
    if |chain| > 1 {
      var rest := chain[1..];
      assert ChainLink(edge, chain, 0);
      forall i | 0 <= i < |rest| - 1 ensures ChainLink(edge, rest, i) { assert ChainLink(edge, chain, i + 1); }
      ChainStaysInside(edge, seeds, names, rest);
      assert BackwardClosed(edge, names, chain[1]);
    }
  }

  // ---------------------------------------------------------------- the work queue's invariants

  /** What is selected and no longer queued has all its dependents selected. */
  ghost predicate Progress(edge: Relation, selected: set<string>, queue: seq<string>) {
    forall b | b in selected :: b in queue || BackwardClosed(edge, selected, b)
  }

  /** Progress while the dependents of one name, already taken off the queue, are being added. */
  ghost predicate ProgressBut(edge: Relation, selected: set<string>, queue: seq<string>, current: string) {
    forall b | b in selected :: b == current || b in queue || BackwardClosed(edge, selected, b)
  }

  ghost predicate Sound(edge: Relation, seeds: set<string>, selected: set<string>) {
    forall n | n in selected :: Reaches(edge, seeds, n)
  }

  lemma {:induction false} TakeFirst(edge: Relation, selected: set<string>, queue: seq<string>)
    requires queue != [] && Progress(edge, selected, queue)
    ensures ProgressBut(edge, selected, queue[1..], queue[0])
  {
    hide BackwardClosed;
    forall b | b in selected && b != queue[0] && b in queue ensures b in queue[1..] {
      var i :| 0 <= i < |queue| && queue[i] == b;
      assert queue[1..][i - 1] == b;
    }
  }

  lemma {:induction false} ClosedGrows(edge: Relation, small: set<string>, large: set<string>, b: string)
    requires small <= large && BackwardClosed(edge, small, b)
    ensures BackwardClosed(edge, large, b)
  {
  }

  lemma {:induction false} AddOne(edge: Relation, selected: set<string>, queue: seq<string>, current: string,
                                  name: string)
    requires ProgressBut(edge, selected, queue, current)
    ensures ProgressBut(edge, selected + {name}, queue + [name], current)
  {
    hide BackwardClosed;
    forall b | b in selected + {name} ensures b == current || b in queue + [name]
      || BackwardClosed(edge, selected + {name}, b) {
      if b == name {
        assert (queue + [name])[|queue|] == name;
      } else if b in queue {
        assert b in queue + [name];
      } else if b != current {
        ClosedGrows(edge, selected, selected + {name}, b);
      }
    }
  }

  lemma {:induction false} FinishCurrent(edge: Relation, selected: set<string>, queue: seq<string>, current: string)
    requires ProgressBut(edge, selected, queue, current) && BackwardClosed(edge, selected, current)
    ensures Progress(edge, selected, queue)
  {
  }

  /** When the queue is empty the selection is closed, so it holds everything that reaches a seed. */
  lemma {:induction false} EmptyQueueIsComplete(edge: Relation, seeds: set<string>, selected: set<string>, name: string)
    requires seeds <= selected && Progress(edge, selected, [])
    requires Reaches(edge, seeds, name)
    ensures name in selected
  {
    hide BackwardClosed;
    var chain :| Chain(edge, chain, name, seeds);
    ChainStaysInside(edge, seeds, selected, chain);
  }
}

/** The reverse-dependency closure of the touched workspace packages. */
module DependentExpansion {
  import opened Common
  import opened Reachability

  type Dependencies = Option<map<string, string>>

  datatype Manifest = Manifest(
    dependencies: Dependencies,
    devDependencies: Dependencies,
    peerDependencies: Dependencies,
    optionalDependencies: Dependencies)

  datatype Package = Package(name: string, dir: string, manifest: Manifest)

  function Scopes(m: Manifest): seq<Dependencies> {
    [m.dependencies, m.devDependencies, m.peerDependencies, m.optionalDependencies]
  }

  predicate StartsWith(s: string, prefix: string) { |prefix| <= |s| && s[..|prefix|] == prefix }

  function Names(packages: seq<Package>): set<string> { set p | p in packages :: p.name }

  function Members(packages: seq<Package>): set<Package> { set p | p in packages }

  /** One scope names the dependency, through the workspace protocol or because it is a workspace package. */
  predicate ScopeDepends(scope: Dependencies, name: string, workspace: set<string>) {
    scope.Some? && name in scope.value && scope.value[name] != ""
    && (StartsWith(scope.value[name], "workspace:") || name in workspace)
  }

  predicate Depends(m: Manifest, name: string, workspace: set<string>) {
    ScopeDepends(m.dependencies, name, workspace)
    || ScopeDepends(m.devDependencies, name, workspace)
    || ScopeDepends(m.peerDependencies, name, workspace)
    || ScopeDepends(m.optionalDependencies, name, workspace)
  }

  predicate DirectlyDepends(packages: seq<Package>, a: string, b: string) {
    b != ""
    && exists i | 0 <= i < |packages| :: packages[i].name == a && Depends(packages[i].manifest, b, Names(packages))
  }

  function Relates(packages: seq<Package>): Relation { (a, b) => DirectlyDepends(packages, a, b) }

  method DependsOnWorkspace(m: Manifest, name: string, workspace: set<string>) returns (r: bool)
    ensures r == Depends(m, name, workspace)
  {
    var scopes := Scopes(m);
    for i := 0 to |scopes|
      invariant forall j | 0 <= j < i :: !ScopeDepends(scopes[j], name, workspace)
    {
      if scopes[i].None? { continue; }
      var versions := scopes[i].value;
      if name in versions && versions[name] != "" && (StartsWith(versions[name], "workspace:") || name in workspace) {
        return true;
      }
    }
    assert scopes[0] == m.dependencies && scopes[1] == m.devDependencies
        && scopes[2] == m.peerDependencies && scopes[3] == m.optionalDependencies;
    return false;
  }

  /** The dependents of b among the first i packages are selected. */
  predicate DependentsUpTo(packages: seq<Package>, selected: set<string>, b: string, i: nat) {
    forall k | 0 <= k < |packages| && k < i :: Depends(packages[k].manifest, b, Names(packages))
      ==> packages[k].name in selected
  }

  lemma {:induction false} DependentsGrow(packages: seq<Package>, selected: set<string>, name: string, b: string,
                                          i: nat)
    requires DependentsUpTo(packages, selected, b, i)
    ensures DependentsUpTo(packages, selected + {name}, b, i)
  {
  }

  lemma {:induction false} AllDependents(packages: seq<Package>, selected: set<string>, b: string)
    requires DependentsUpTo(packages, selected, b, |packages|)
    ensures BackwardClosed(Relates(packages), selected, b)
  {
  }

  predicate FromWorkspace(selected: map<string, Package>, known: set<Package>) {
    forall n | n in selected :: selected[n].name == n && selected[n] in known
  }

  lemma {:induction false} DirectDependentReaches(packages: seq<Package>, seeds: set<string>, i: nat, b: string)
    requires i < |packages| && b != "" && Depends(packages[i].manifest, b, Names(packages))
    requires Reaches(Relates(packages), seeds, b)
    ensures Reaches(Relates(packages), seeds, packages[i].name)
  {
    DependentReaches(Relates(packages), seeds, packages[i].name, b);
  }

  // ---------------------------------------------------------------- the work queue

  method SelectTouched(touched: seq<Package>) returns (selected: map<string, Package>, queue: seq<string>)
    ensures selected.Keys == Names(touched)
    ensures FromWorkspace(selected, Members(touched))
    ensures forall n :: n in queue <==> n in Names(touched)
  {
    selected, queue := map[], [];
    for i := 0 to |touched|
      invariant selected.Keys == Names(touched[..i])
      invariant FromWorkspace(selected, Members(touched))
      invariant forall n :: n in queue <==> n in Names(touched[..i])
    {
      NamesStep(touched, i);
      selected := selected[touched[i].name := touched[i]];
      queue := queue + [touched[i].name];
    }
    assert touched[..|touched|] == touched;
  }

  lemma {:induction false} NamesStep(packages: seq<Package>, i: nat)
    requires i < |packages|
    ensures Names(packages[..i + 1]) == Names(packages[..i]) + {packages[i].name}
  {
    assert packages[..i + 1] == packages[..i] + [packages[i]];
  }

  /** One name off the queue: every direct dependent of it is selected, and queued if it was not yet. */
  method AddDependents(packages: seq<Package>, ghost seeds: set<string>, current: string, ghost known: set<Package>,
                       selected0: map<string, Package>, queue0: seq<string>)
    returns (selected: map<string, Package>, queue: seq<string>)
    requires current != "" && Reaches(Relates(packages), seeds, current)
    requires Sound(Relates(packages), seeds, selected0.Keys) && ProgressBut(Relates(packages), selected0.Keys, queue0,
             current)
    requires forall p | p in packages :: p in known
    requires FromWorkspace(selected0, known)
    requires forall n | n in queue0 :: n in selected0
    ensures selected0.Keys <= selected.Keys
    ensures Sound(Relates(packages), seeds, selected.Keys) && Progress(Relates(packages), selected.Keys, queue)
    ensures FromWorkspace(selected, known)
    ensures forall n | n in queue :: n in selected
    ensures (selected == selected0 && queue == queue0)
            || Names(packages) - selected.Keys < Names(packages) - selected0.Keys
  {
    hide Depends, BackwardClosed, Reaches, Relates;
    selected, queue := selected0, queue0;
    var workspace := Names(packages);
    for i := 0 to |packages|
      invariant selected0.Keys <= selected.Keys
      invariant Sound(Relates(packages), seeds, selected.Keys)
                && ProgressBut(Relates(packages), selected.Keys, queue, current)
      invariant DependentsUpTo(packages, selected.Keys, current, i)
      invariant FromWorkspace(selected, known)
      invariant forall n | n in queue :: n in selected
      invariant (selected == selected0 && queue == queue0)
                || Names(packages) - selected.Keys < Names(packages) - selected0.Keys
    {
      var candidate := packages[i];
      if candidate.name in selected { continue; }
      var depends := DependsOnWorkspace(candidate.manifest, current, workspace);
      if depends {
        DirectDependentReaches(packages, seeds, i, current);
        AddOne(Relates(packages), selected.Keys, queue, current, candidate.name);
        DependentsGrow(packages, selected.Keys, candidate.name, current, i);
        assert candidate in packages && candidate.name in Names(packages) - selected.Keys;
        ghost var keys := selected.Keys;
        selected := selected[candidate.name := candidate];
        assert selected.Keys == keys + {candidate.name};
        queue := queue + [candidate.name];
      }
    }
    AllDependents(packages, selected.Keys, current);
    FinishCurrent(Relates(packages), selected.Keys, queue, current);
  }

  /** The selected names are exactly those with a chain of workspace dependencies into the touched packages. */
  method ExpandWithDependents(touched: seq<Package>, packages: seq<Package>) returns (selected: map<string, Package>)
    ensures forall n :: n in selected <==> Reaches(Relates(packages), Names(touched), n)
    ensures FromWorkspace(selected, Members(touched) + Members(packages))
  {
    hide BackwardClosed, Reaches, Relates, Names, FromWorkspace;
    ghost var seeds := Names(touched);
    ghost var known := Members(touched) + Members(packages);
    var queue;
    selected, queue := SelectTouched(touched);
    assert FromWorkspace(selected, known) by { WiderKnown(selected, Members(touched), known); }
    forall n | n in selected ensures Reaches(Relates(packages), seeds, n) { SeedReaches(Relates(packages), seeds, n); }
    while queue != []
      invariant seeds <= selected.Keys
      invariant Sound(Relates(packages), seeds, selected.Keys) && Progress(Relates(packages), selected.Keys, queue)
      invariant FromWorkspace(selected, known)
      invariant forall n | n in queue :: n in selected
      decreases Names(packages) - selected.Keys, |queue|
    {
      var current := queue[0];
      TakeFirst(Relates(packages), selected.Keys, queue);
      assert current in queue;
      queue := queue[1..];
      if current == "" {
        EmptyNameHasNoDependents(packages, selected.Keys);
        FinishCurrent(Relates(packages), selected.Keys, queue, "");
        continue;
      }
      selected, queue := AddDependents(packages, seeds, current, known, selected, queue);
    }
    forall n ensures n in selected <==> Reaches(Relates(packages), seeds, n) {
      if Reaches(Relates(packages), seeds, n) { EmptyQueueIsComplete(Relates(packages), seeds, selected.Keys, n); }
    }
  }

  lemma {:induction false} EmptyNameHasNoDependents(packages: seq<Package>, selected: set<string>)
    ensures BackwardClosed(Relates(packages), selected, "")
  {
  }

  lemma {:induction false} WiderKnown(selected: map<string, Package>, small: set<Package>, large: set<Package>)
    requires small <= large && FromWorkspace(selected, small)
    ensures FromWorkspace(selected, large)
  {
  }

  predicate DistinctNames(packages: seq<Package>) {
    forall i, j | 0 <= i < j < |packages| :: packages[i].name != packages[j].name
  }

  /** With distinct names and touched packages from the workspace, the result is the set of reaching packages. */
  lemma {:induction false} ExpansionIsExact(touched: seq<Package>, packages: seq<Package>,
                                            selected: map<string, Package>)
    requires DistinctNames(packages) && forall p | p in touched :: p in packages
    requires forall n :: n in selected <==> Reaches(Relates(packages), Names(touched), n)
    requires FromWorkspace(selected, Members(touched) + Members(packages))
    ensures forall p :: p in selected.Values <==> p in packages && Reaches(Relates(packages), Names(touched), p.name)
  {
    hide Reaches, Relates;
    forall p ensures p in selected.Values <==> p in packages && Reaches(Relates(packages), Names(touched), p.name) {
      if p in packages && p.name in selected {
        var q := selected[p.name];
        var i :| 0 <= i < |packages| && packages[i] == p;
        var j :| 0 <= j < |packages| && packages[j] == q;
        assert i == j;
        assert p in selected.Values;
      }
    }
  }
}

/** The same closure over the Cargo workspace, through path dependencies and package ids. */
module CargoExpansion {
  import opened Reachability

  datatype CargoUnit = CargoUnit(id: string, name: string, manifestPath: string, nativeAddonSource: bool)

  /** One metadata package: its id and the manifests its path dependencies resolve to. */
  datatype Entry = Entry(id: string, dependencies: seq<string>)

  datatype Workspace = Workspace(entries: seq<Entry>, byManifest: map<string, CargoUnit>,
                                 byPackageId: map<string, CargoUnit>)

  predicate EntryDepends(dependencies: seq<string>, byManifest: map<string, CargoUnit>, b: string) {
    exists j | 0 <= j < |dependencies| :: dependencies[j] in byManifest && byManifest[dependencies[j]].id == b
  }

  /** Some metadata package with this id has a path dependency on unit b. */
  predicate DependentId(entries: seq<Entry>, byManifest: map<string, CargoUnit>, b: string, x: string) {
    exists i | 0 <= i < |entries| :: entries[i].id == x && EntryDepends(entries[i].dependencies, byManifest, b)
  }

  predicate DirectlyDepends(w: Workspace, a: string, b: string) {
    b != "" && exists x | x in w.byPackageId :: w.byPackageId[x].id == a && DependentId(w.entries, w.byManifest, b, x)
  }

  function Relates(w: Workspace): Relation { (a, b) => DirectlyDepends(w, a, b) }

  function Listed(reverse: map<string, seq<string>>, b: string): seq<string> {
    if b in reverse then reverse[b] else []
  }

  method AddReverse(reverse0: map<string, seq<string>>, entry: Entry, byManifest: map<string, CargoUnit>)
    returns (reverse: map<string, seq<string>>)
    ensures forall b, x :: x in Listed(reverse, b)
              <==> x in Listed(reverse0, b) || (x == entry.id && EntryDepends(entry.dependencies, byManifest, b))
  {
    reverse := reverse0;
    var deps := entry.dependencies;
    for j := 0 to |deps|
      invariant forall b, x :: x in Listed(reverse, b)
                  <==> x in Listed(reverse0, b) || (x == entry.id && EntryDepends(deps[..j], byManifest, b))
    {
      ghost var before := reverse;
      forall b ensures EntryDepends(deps[..j + 1], byManifest, b)
                       <==> EntryDepends(deps[..j], byManifest, b)
                            || (deps[j] in byManifest && byManifest[deps[j]].id == b)
      {
        DependsStep(deps, byManifest, b, j);
      }
      if deps[j] in byManifest {
        var id := byManifest[deps[j]].id;
        reverse := reverse[id := Listed(reverse, id) + [entry.id]];
        assert forall b, x :: x in Listed(reverse, b) <==> x in Listed(before, b) || (b == id && x == entry.id);
      }
    }
    assert deps[..|deps|] == deps;
  }

  lemma {:induction false} DependsStep(deps: seq<string>, byManifest: map<string, CargoUnit>, b: string, j: nat)
    requires j < |deps|
    ensures EntryDepends(deps[..j + 1], byManifest, b)
            <==> EntryDepends(deps[..j], byManifest, b) || (deps[j] in byManifest && byManifest[deps[j]].id == b)
  {
    if EntryDepends(deps[..j], byManifest, b) {
      var k :| 0 <= k < j && deps[..j][k] in byManifest && byManifest[deps[..j][k]].id == b;
      assert deps[..j + 1][k] == deps[..j][k];
    }
    if deps[j] in byManifest && byManifest[deps[j]].id == b {
      assert deps[..j + 1][j] == deps[j];
    }
    if EntryDepends(deps[..j + 1], byManifest, b) {
      var k :| 0 <= k < j + 1 && deps[..j + 1][k] in byManifest && byManifest[deps[..j + 1][k]].id == b;
      if k < j { assert deps[..j][k] == deps[..j + 1][k]; }
    }
  }

  /** The reverse map lists, for each unit, exactly the ids of the packages that depend on it. */
  method BuildReverse(w: Workspace) returns (reverse: map<string, seq<string>>)
    ensures forall b, x :: x in Listed(reverse, b) <==> DependentId(w.entries, w.byManifest, b, x)
  {
    hide EntryDepends, Listed;
    reverse := map[];
    forall b, x ensures x !in Listed(reverse, b) { NothingListed(b); }
    for i := 0 to |w.entries|
      invariant forall b, x :: x in Listed(reverse, b) <==> DependentId(w.entries[..i], w.byManifest, b, x)
    {
      reverse := AddReverse(reverse, w.entries[i], w.byManifest);
      forall b, x ensures DependentId(w.entries[..i + 1], w.byManifest, b, x)
                          <==> DependentId(w.entries[..i], w.byManifest, b, x)
                               || (x == w.entries[i].id && EntryDepends(w.entries[i].dependencies, w.byManifest, b))
      {
        DependentIdStep(w, b, x, i);
      }
    }
    assert w.entries[..|w.entries|] == w.entries;
  }

  lemma {:induction false} NothingListed(b: string)
    ensures Listed(map[], b) == []
  {
  }

  lemma {:induction false} DependentIdStep(w: Workspace, b: string, x: string, i: nat)
    requires i < |w.entries|
    ensures DependentId(w.entries[..i + 1], w.byManifest, b, x)
            <==> DependentId(w.entries[..i], w.byManifest, b, x)
                 || (x == w.entries[i].id && EntryDepends(w.entries[i].dependencies, w.byManifest, b))
  {
    hide EntryDepends;
    var small, large := w.entries[..i], w.entries[..i + 1];
    assert large == small + [w.entries[i]];
    if DependentId(small, w.byManifest, b, x) {
      var k :| 0 <= k < i && small[k].id == x && EntryDepends(small[k].dependencies, w.byManifest, b);
      assert large[k] == small[k];
    }
    if x == w.entries[i].id && EntryDepends(w.entries[i].dependencies, w.byManifest, b) {
      assert large[i] == w.entries[i];
    }
  }

  // ---------------------------------------------------------------- the work queue

  function UnitIds(w: Workspace): set<string> { set x | x in w.byPackageId :: w.byPackageId[x].id }

  function IdsOf(units: seq<CargoUnit>): set<string> { set u | u in units :: u.id }

  predicate Keyed(selected: map<string, CargoUnit>, known: set<CargoUnit>) {
    forall n | n in selected :: selected[n].id == n && selected[n] in known
  }

  method SelectInitial(initial: seq<CargoUnit>) returns (selected: map<string, CargoUnit>, queue: seq<string>)
    ensures selected.Keys == IdsOf(initial)
    ensures Keyed(selected, set u | u in initial)
    ensures forall n :: n in queue <==> n in selected
  {
    selected, queue := map[], [];
    for i := 0 to |initial|
      invariant selected.Keys == IdsOf(initial[..i])
      invariant Keyed(selected, set u | u in initial)
      invariant forall n :: n in queue <==> n in selected
    {
      assert initial[..i + 1] == initial[..i] + [initial[i]];
      var isNew := initial[i].id !in selected;
      selected := selected[initial[i].id := initial[i]];
      if isNew { queue := queue + [initial[i].id]; }
    }
    assert initial[..|initial|] == initial;
  }

  predicate ListedUpTo(w: Workspace, ids: seq<string>, selected: set<string>, i: nat) {
    forall k | 0 <= k < |ids| && k < i :: ids[k] in w.byPackageId ==> w.byPackageId[ids[k]].id in selected
  }

  lemma {:induction false} ListedGrows(w: Workspace, ids: seq<string>, selected: set<string>, name: string, i: nat)
    requires ListedUpTo(w, ids, selected, i)
    ensures ListedUpTo(w, ids, selected + {name}, i)
  {
  }

  lemma {:induction false} ListedCloses(w: Workspace, ids: seq<string>, selected: set<string>, b: string)
    requires forall x :: x in ids <==> DependentId(w.entries, w.byManifest, b, x)
    requires ListedUpTo(w, ids, selected, |ids|)
    ensures BackwardClosed(Relates(w), selected, b)
  {
    hide DependentId;
    forall a | Relates(w)(a, b) ensures a in selected {
      var x :| x in w.byPackageId && w.byPackageId[x].id == a && DependentId(w.entries, w.byManifest, b, x);
      var k :| 0 <= k < |ids| && ids[k] == x;
    }
  }

  lemma {:induction false} ListedReaches(w: Workspace, seeds: set<string>, x: string, b: string)
    requires b != "" && x in w.byPackageId && DependentId(w.entries, w.byManifest, b, x)
    requires Reaches(Relates(w), seeds, b)
    ensures Reaches(Relates(w), seeds, w.byPackageId[x].id)
  {
    hide DependentId;
    DependentReaches(Relates(w), seeds, w.byPackageId[x].id, b);
  }

  method AddListed(w: Workspace, ghost seeds: set<string>, current: string, ids: seq<string>,
                   ghost known: set<CargoUnit>,
                   selected0: map<string, CargoUnit>, queue0: seq<string>)
    returns (selected: map<string, CargoUnit>, queue: seq<string>)
    requires current != "" && Reaches(Relates(w), seeds, current)
    requires forall x :: x in ids <==> DependentId(w.entries, w.byManifest, current, x)
    requires Sound(Relates(w), seeds, selected0.Keys) && ProgressBut(Relates(w), selected0.Keys, queue0, current)
    requires forall x | x in w.byPackageId :: w.byPackageId[x] in known
    requires Keyed(selected0, known)
    requires forall n | n in queue0 :: n in selected0
    ensures selected0.Keys <= selected.Keys
    ensures Sound(Relates(w), seeds, selected.Keys) && Progress(Relates(w), selected.Keys, queue)
    ensures Keyed(selected, known)
    ensures forall n | n in queue :: n in selected
    ensures (selected == selected0 && queue == queue0) || UnitIds(w) - selected.Keys < UnitIds(w) - selected0.Keys
  {
    hide DependentId, BackwardClosed, Reaches, Relates;
    selected, queue := selected0, queue0;
    for i := 0 to |ids|
      invariant selected0.Keys <= selected.Keys
      invariant Sound(Relates(w), seeds, selected.Keys) && ProgressBut(Relates(w), selected.Keys, queue, current)
      invariant ListedUpTo(w, ids, selected.Keys, i)
      invariant Keyed(selected, known)
      invariant forall n | n in queue :: n in selected
      invariant (selected == selected0 && queue == queue0) || UnitIds(w) - selected.Keys < UnitIds(w) - selected0.Keys
    {
      if ids[i] in w.byPackageId {
        var cargoUnit := w.byPackageId[ids[i]];
        if cargoUnit.id !in selected {
          assert ids[i] in ids;
          ListedReaches(w, seeds, ids[i], current);
          AddOne(Relates(w), selected.Keys, queue, current, cargoUnit.id);
          ListedGrows(w, ids, selected.Keys, cargoUnit.id, i);
          assert cargoUnit.id in UnitIds(w) - selected.Keys;
          ghost var keys := selected.Keys;
          selected := selected[cargoUnit.id := cargoUnit];
          assert selected.Keys == keys + {cargoUnit.id};
          queue := queue + [cargoUnit.id];
        }
      }
    }
    ListedCloses(w, ids, selected.Keys, current);
    FinishCurrent(Relates(w), selected.Keys, queue, current);
  }

  /** The selected units are exactly those with a chain of path dependencies into the initial units. */
  method ExpandCargoDependents(initial: seq<CargoUnit>, w: Workspace) returns (selected: map<string, CargoUnit>)
    ensures forall n :: n in selected <==> Reaches(Relates(w), IdsOf(initial), n)
    ensures Keyed(selected, (set u | u in initial) + w.byPackageId.Values)
  {
    hide BackwardClosed, Reaches, Relates, IdsOf, Keyed, DependentId, UnitIds;
    ghost var seeds := IdsOf(initial);
    ghost var own := set u | u in initial;
    ghost var known := own + w.byPackageId.Values;
    var reverse := BuildReverse(w);
    var queue;
    selected, queue := SelectInitial(initial);
    KnownGrows(selected, own, known);
    forall n | n in selected ensures Reaches(Relates(w), seeds, n) { SeedReaches(Relates(w), seeds, n); }
    while queue != []
      invariant seeds <= selected.Keys
      invariant Sound(Relates(w), seeds, selected.Keys) && Progress(Relates(w), selected.Keys, queue)
      invariant Keyed(selected, known)
      invariant forall n | n in queue :: n in selected
      decreases UnitIds(w) - selected.Keys, |queue|
    {
      var current := queue[0];
      TakeFirst(Relates(w), selected.Keys, queue);
      assert current in queue;
      queue := queue[1..];
      if current == "" {
        EmptyIdHasNoDependents(w, selected.Keys);
        FinishCurrent(Relates(w), selected.Keys, queue, "");
        continue;
      }
      selected, queue := AddListed(w, seeds, current, Listed(reverse, current), known, selected, queue);
    }
    forall n ensures n in selected <==> Reaches(Relates(w), seeds, n) {
      if Reaches(Relates(w), seeds, n) { EmptyQueueIsComplete(Relates(w), seeds, selected.Keys, n); }
    }
  }

  lemma {:induction false} EmptyIdHasNoDependents(w: Workspace, selected: set<string>)
    ensures BackwardClosed(Relates(w), selected, "")
  {
  }

  lemma {:induction false} KnownGrows(selected: map<string, CargoUnit>, small: set<CargoUnit>, large: set<CargoUnit>)
    requires small <= large && Keyed(selected, small)
    ensures Keyed(selected, large)
  {
  }
}
