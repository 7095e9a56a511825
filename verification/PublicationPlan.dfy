/** planExpectedEvidencePublication: the indegree loop that computes the publication order. */
module PublicationPlan {
  import opened Common
  import opened VersionOrder
  import opened ReleaseEvidence
  import opened PublicationOrder

  datatype PlanError =
    | DuplicateRecord(name: string)
    | DuplicateDeclaration(name: string)
    | MissingRecord(name: string)
    | WrongDirectory(name: string)
    | UnexpectedRecords
    | NoRecords
    | MixedVersions
    | InexactDependency(name: string)
    | CyclicDependencies(names: seq<string>)

  // ---------------------------------------------------------------- the dependency graph

  /** The names of the records that depend on `d`, in list order. */
  function DependentsOf(records: seq<PackageRecord>, d: string): seq<string> {
    if records == [] then []
    else
      var before, last := DependentsOf(records[..|records| - 1], d), records[|records| - 1];
      if d in Needs(last) then before + [last.name] else before
  }

  /** `dependents` with `name` appended to the list of every dependency in `done`. */
  function Listed(dependents: map<string, seq<string>>, done: set<string>, name: string): (m: map<string, seq<string>>)
    ensures m.Keys == dependents.Keys
  {
    map d | d in dependents :: if d in done then dependents[d] + [name] else dependents[d]
  }

  lemma {:induction false} ListedStep(dependents: map<string, seq<string>>, done: set<string>, name: string, d: string)
    requires d in dependents && d !in done
    ensures Listed(dependents, done, name)[d := Listed(dependents, done, name)[d] + [name]]
            == Listed(dependents, done + {d}, name)
  {
  }

  lemma {:induction false} CountStep(indegree: map<string, int>, name: string, done: set<string>, d: string)
    requires d !in done
    ensures indegree[name := |done|][name := |done| + 1] == indegree[name := |done + {d}|]
  {
    assert |done + {d}| == |done| + 1;
  }

  lemma {:induction false} Unfinished(done: set<string>, needs: set<string>)
    requires done <= needs && done != needs
    ensures exists d :: d in needs - done
  {
    assert !(needs <= done);
    var d :| d in needs && d !in done;
    assert d in needs - done;
  }

  lemma {:induction false} ListedKeeps(dependents: map<string, seq<string>>, done: set<string>, name: string)
    ensures Listed(dependents, done, name).Keys == dependents.Keys
  {
  }

  /** The inner loop: one more dependency counted, one more dependent listed, per internal dependency. */
  method AddRecord(record: PackageRecord, indegree0: map<string, int>, dependents0: map<string, seq<string>>)
    returns (indegree: map<string, int>, dependents: map<string, seq<string>>)
    requires record.name in indegree0 && indegree0[record.name] == 0 && Needs(record) <= dependents0.Keys
    ensures indegree == indegree0[record.name := |Needs(record)|]
    ensures dependents == Listed(dependents0, Needs(record), record.name)
  {
    hide Needs, Listed;
    var needs, done: set<string> := Needs(record), {};
    indegree, dependents := indegree0, dependents0;
    assert dependents0 == Listed(dependents0, {}, record.name) by { ListedNone(dependents0, record.name); }
    while done != needs
      invariant done <= needs
      invariant indegree == indegree0[record.name := |done|]
      invariant dependents == Listed(dependents0, done, record.name)
      decreases needs - done
    {
      Unfinished(done, needs);
      ListedKeeps(dependents0, done, record.name);
      var dependency :| dependency in needs - done;
      ListedStep(dependents0, done, record.name, dependency);
      CountStep(indegree0, record.name, done, dependency);
      indegree := indegree[record.name := indegree[record.name] + 1];
      dependents := dependents[dependency := dependents[dependency] + [record.name]];
      done := done + {dependency};
    }
  }

  lemma {:induction false} ListedNone(dependents: map<string, seq<string>>, name: string)
    ensures Listed(dependents, {}, name) == dependents
  {
  }

  function DependentMap(records: seq<PackageRecord>, names: set<string>): map<string, seq<string>> {
    map d | d in names :: DependentsOf(records, d)
  }

  /** How many dependencies of the record called `name` are not yet placed. */
  function CountFor(records: seq<PackageRecord>, name: string, placed: set<string>): int {
    if records == [] then 0
    else
      var last := records[|records| - 1];
      if last.name == name then |Needs(last) - placed| else CountFor(records[..|records| - 1], name, placed)
  }

  function CountMap(records: seq<PackageRecord>, names: set<string>, placed: set<string>): map<string, int> {
    map n | n in names :: CountFor(records, n, placed)
  }

  lemma {:induction false} GraphStep(records: seq<PackageRecord>, i: nat, names: set<string>)
    requires i < |records| && records[i].name in names
    ensures DependentMap(records[..i + 1], names)
            == Listed(DependentMap(records[..i], names), Needs(records[i]), records[i].name)
    ensures CountMap(records[..i + 1], names, {}) == CountMap(records[..i], names,
            {})[records[i].name := |Needs(records[i])|]
  {
    assert records[..i + 1][..i] == records[..i];
    assert Needs(records[i]) - {} == Needs(records[i]);
  }

  lemma {:induction false} CountForRecord(records: seq<PackageRecord>, name: string, placed: set<string>)
    requires DistinctNames(records)
    ensures name !in NamesOf(records) ==> CountFor(records, name, placed) == 0
    ensures forall r | r in records && r.name == name :: CountFor(records, name, placed) == |Needs(r) - placed|
  {
    if records != [] {
      var front, last := records[..|records| - 1], records[|records| - 1];
      assert records == front + [last];
      CountForRecord(front, name, placed);
    }
  }

  method BuildGraph(records: seq<PackageRecord>) returns (indegree: map<string, int>,
      dependents: map<string, seq<string>>)
    requires DistinctNames(records) && Closed(records)
    ensures indegree == CountMap(records, NamesOf(records), {}) && dependents == DependentMap(records, NamesOf(records))
  {
    hide Needs;
    var names := NamesOf(records);
    indegree := map name | name in names :: 0;
    dependents := map name | name in names :: [];
    for i := 0 to |records|
      invariant indegree == CountMap(records[..i], names, {}) && dependents == DependentMap(records[..i], names)
    {
      hide CountMap, DependentMap, Listed;
      assert records[i] in records && records[i].name in names;
      PrefixLacks(records, i);
      CountForRecord(records[..i], records[i].name, {});
      MapKeys(records[..i], names);
      GraphStep(records, i, names);
      assert Needs(records[i]) <= names;
      indegree, dependents := AddRecord(records[i], indegree, dependents);
    }
    assert records[..|records|] == records;
  }

  lemma {:induction false} MapKeys(records: seq<PackageRecord>, names: set<string>)
    ensures DependentMap(records, names).Keys == names
    ensures CountMap(records, names, {}).Keys == names
    ensures forall n | n in names :: CountMap(records, names, {})[n] == CountFor(records, n, {})
  {
  }

  lemma {:induction false} PrefixLacks(records: seq<PackageRecord>, i: nat)
    requires DistinctNames(records) && i < |records|
    ensures DistinctNames(records[..i]) && NamesOf(records[..i]) <= NamesOf(records)
    ensures records[i].name !in NamesOf(records[..i])
  {
  }

  // ---------------------------------------------------------------- the ready list

  function Key(index: map<string, nat>, r: PackageRecord): nat { if r.name in index then index[r.name] else 0 }

  predicate SortedByIndex(index: map<string, nat>, s: seq<PackageRecord>) {
    |s| > 1 ==> Key(index, s[0]) <= Key(index, s[1]) && SortedByIndex(index, s[1..])
  }

  lemma {:induction false} HeadIsLeast(index: map<string, nat>, s: seq<PackageRecord>, i: nat)
    requires SortedByIndex(index, s) && i < |s|
    ensures Key(index, s[0]) <= Key(index, s[i])
  {
    if i > 0 { HeadIsLeast(index, s[1..], i - 1); }
  }

  function InsertByIndex(index: map<string, nat>, r: PackageRecord, s: seq<PackageRecord>): seq<PackageRecord> {
    if s == [] || Key(index, r) <= Key(index, s[0]) then [r] + s else [s[0]] + InsertByIndex(index, r, s[1..])
  }

  /** ready.sort by declaration index. */
  function SortByIndex(index: map<string, nat>, s: seq<PackageRecord>): seq<PackageRecord> {
    if s == [] then [] else InsertByIndex(index, s[0], SortByIndex(index, s[1..]))
  }

  lemma {:induction false} InsertByIndexSorts(index: map<string, nat>, r: PackageRecord, s: seq<PackageRecord>)
    requires SortedByIndex(index, s)
    ensures var t := InsertByIndex(index, r, s);
            && SortedByIndex(index, t) && multiset(t) == multiset(s) + multiset{r}
            && t != [] && (t[0] == r || (s != [] && t[0] == s[0]))
  {
    hide Key;
    if s != [] && Key(index, r) > Key(index, s[0]) {
      InsertByIndexSorts(index, r, s[1..]);
      assert s == [s[0]] + s[1..];
    }
  }

  lemma {:induction false} SortByIndexSorts(index: map<string, nat>, s: seq<PackageRecord>)
    ensures SortedByIndex(index, SortByIndex(index, s)) && multiset(SortByIndex(index, s)) == multiset(s)
  {
    hide SortedByIndex, InsertByIndex;
    if s == [] {
      NothingIsSorted(index);
    } else {
      SortByIndexSorts(index, s[1..]);
      InsertByIndexSorts(index, s[0], SortByIndex(index, s[1..]));
      assert s == [s[0]] + s[1..];
    }
  }

  lemma {:induction false} NothingIsSorted(index: map<string, nat>)
    ensures SortedByIndex(index, [])
  {
  }


  // ---------------------------------------------------------------- placing one record

  lemma {:induction false} DependentsMembers(records: seq<PackageRecord>, d: string)
    requires DistinctNames(records)
    ensures forall n :: n in DependentsOf(records, d) <==> DependsOn(records, n, d)
    ensures forall i, j | 0 <= i < j < |DependentsOf(records, d)| ::
            DependentsOf(records, d)[i] != DependentsOf(records, d)[j]
  {
    if records != [] {
      var front, last := records[..|records| - 1], records[|records| - 1];
      assert records == front + [last];
      DependentsMembers(front, d);
      forall n
        ensures n in DependentsOf(records, d) <==> DependsOn(records, n, d)
      {
        assert DependsOn(records, n, d) <==> DependsOn(front, n, d) || (last.name == n && d in Needs(last));
      }
      assert !DependsOn(front, last.name, d) by {
        assert forall r | r in front :: r.name != last.name;
      }
    }
  }

  /** The counts while the dependents of `next` are being released; those in `done` already see it placed. */
  function MixedMap(records: seq<PackageRecord>, names: set<string>, placed: set<string>, next: string,
                    done: set<string>)
    : map<string, int>
  {
    map n | n in names :: CountFor(records, n, if n in done then placed + {next} else placed)
  }

  lemma {:induction false} MixedStep(records: seq<PackageRecord>, names: set<string>, placed: set<string>, next: string,
                                     done: set<string>, r: PackageRecord)
    requires DistinctNames(records) && r in records && r.name in names
    requires r.name !in done && next in Needs(r) && next !in placed
    ensures var m := MixedMap(records, names, placed, next, done);
            && m[r.name := m[r.name] - 1] == MixedMap(records, names, placed, next, done + {r.name})
            && (m[r.name] - 1 == 0 <==> Needs(r) <= placed + {next})
  {
    hide CountFor, DistinctNames;
    CountForRecord(records, r.name, placed);
    CountForRecord(records, r.name, placed + {next});
    OneFewer(Needs(r), placed, next);
    hide Needs;
  }

  /** Placing one dependency leaves one fewer missing. */
  lemma {:induction false} OneFewer(needs: set<string>, placed: set<string>, next: string)
    requires next in needs && next !in placed
    ensures |needs - placed| == |needs - (placed + {next})| + 1
    ensures |needs - (placed + {next})| == 0 <==> needs <= placed + {next}
  {
    var left := needs - (placed + {next});
    assert needs - placed == left + {next};
    assert left == {} <==> needs <= placed + {next};
  }

  lemma {:induction false} MixedEnds(records: seq<PackageRecord>, names: set<string>, placed: set<string>, next: string,
                                     done: set<string>)
    requires DistinctNames(records) && names == NamesOf(records)
    requires forall n :: n in done <==> DependsOn(records, n, next)
    ensures MixedMap(records, names, placed, next, {}) == CountMap(records, names, placed)
    ensures MixedMap(records, names, placed, next, done) == CountMap(records, names, placed + {next})
  {
    hide CountFor;
    forall n | n in names && n !in done
      ensures CountFor(records, n, placed) == CountFor(records, n, placed + {next})
    {
      var r :| r in records && r.name == n;
      CountForRecord(records, n, placed);
      CountForRecord(records, n, placed + {next});
      assert next !in Needs(r);
      assert Needs(r) - placed == Needs(r) - (placed + {next});
    }
  }

  function AvailableSet(records: seq<PackageRecord>, placed: set<string>): set<PackageRecord> {
    set r | r in records && Available(r, placed)
  }

  /** Dependents in `done` whose dependencies are all placed now. */
  function Released(records: seq<PackageRecord>, done: set<string>, placed: set<string>): set<PackageRecord> {
    set r | r in records && r.name in done && Needs(r) <= placed
  }

  lemma {:induction false} ReleasedStep(records: seq<PackageRecord>, done: set<string>, placed: set<string>,
                                        r: PackageRecord)
    requires DistinctNames(records) && r in records && r.name !in done
    ensures Released(records, done + {r.name}, placed)
            == if Needs(r) <= placed then Released(records, done, placed) + {r} else Released(records, done, placed)
    ensures r !in Released(records, done, placed)
  {
    hide Needs;
    forall x | x in records && x.name == r.name
      ensures x == r
    {
      SameNameSameRecord(records, x, r);
    }
  }

  lemma {:induction false} AvailableAfter(records: seq<PackageRecord>, placed: set<string>, next: PackageRecord,
                                          done: set<string>)
    requires DistinctNames(records) && next in AvailableSet(records, placed)
    requires forall n :: n in done <==> DependsOn(records, n, next.name)
    requires forall r | r in records && r.name in placed :: Needs(r) <= placed
    ensures var released := Released(records, done, placed + {next.name});
            && released !! (AvailableSet(records, placed) - {next})
            && AvailableSet(records, placed + {next.name}) == (AvailableSet(records, placed) - {next}) + released
  {
    var placed', released := placed + {next.name}, Released(records, done, placed + {next.name});
    forall r | r in records
      ensures r.name in done <==> next.name in Needs(r)
    {
      if r.name in done {
        var s :| s in records && s.name == r.name && next.name in Needs(s);
        SameNameSameRecord(records, r, s);
      }
    }
    forall r | r in records && r.name == next.name
      ensures r == next
    {
      SameNameSameRecord(records, r, next);
    }
    hide DependsOn;
    forall r | r in records
      ensures Available(r, placed') <==> (Available(r, placed) && r != next) || r in released
    {
      if next.name in Needs(r) {
        assert !(Needs(r) <= placed);
      }
    }
  }

  predicate ByName(records: seq<PackageRecord>, recordsByName: map<string, PackageRecord>) {
    recordsByName.Keys == NamesOf(records)
    && forall n | n in recordsByName :: recordsByName[n] in records && recordsByName[n].name == n
  }

  lemma {:induction false} MultisetOfUnion(a: set<PackageRecord>, b: set<PackageRecord>)
    requires a !! b
    ensures multiset(a + b) == multiset(a) + multiset(b)
  {
  }

  function SetOf(s: seq<string>): set<string> { set n | n in s }

  lemma {:induction false} SetOfPrefix(s: seq<string>, j: nat)
    requires j < |s|
    ensures SetOf(s[..j + 1]) == SetOf(s[..j]) + {s[j]}
    ensures (forall i, k | 0 <= i < k < |s| :: s[i] != s[k]) ==> s[j] !in SetOf(s[..j])
  {
    assert s[..j + 1] == s[..j] + [s[j]];
  }

  /** The inner loop of the order: every dependent of `next` loses one missing dependency and may become ready. */
  method ReleaseDependents(records: seq<PackageRecord>, recordsByName: map<string, PackageRecord>, list: seq<string>,
                           indegree0: map<string, int>, ready0: seq<PackageRecord>, next: PackageRecord,
                           ghost placed: set<string>)
    returns (indegree: map<string, int>, ready: seq<PackageRecord>)
    requires DistinctNames(records) && ByName(records, recordsByName) && next in records
    requires list == DependentsOf(records, next.name) && next.name !in placed
    requires indegree0 == CountMap(records, NamesOf(records), placed)
    ensures indegree == CountMap(records, NamesOf(records), placed + {next.name})
    ensures multiset(ready) == multiset(ready0) + multiset(Released(records, SetOf(list), placed + {next.name}))
  {
    hide CountMap, MixedMap, Released, DependentsOf, Needs, SetOf;
    ghost var names, placed' := NamesOf(records), placed + {next.name};
    DependentsMembers(records, next.name);
    SetOfMembers(list);
    MixedEnds(records, names, placed, next.name, SetOf(list));
    indegree, ready := indegree0, ready0;
    assert SetOf(list[..0]) == {} && Released(records, {}, placed') == {} by {
      NothingReleased(records, placed'); SetOfMembers(list[..0]);
    }
    for j := 0 to |list|
      invariant indegree == MixedMap(records, names, placed, next.name, SetOf(list[..j]))
      invariant multiset(ready) == multiset(ready0) + multiset(Released(records, SetOf(list[..j]), placed'))
    {
      SetOfPrefix(list, j);
      assert list[j] in list && DependsOn(records, list[j], next.name);
      var r := recordsByName[list[j]];
      DependentNeeds(records, r, next.name);
      MixedStep(records, names, placed, next.name, SetOf(list[..j]), r);
      ReleasedStep(records, SetOf(list[..j]), placed', r);
      MixedKeys(records, names, placed, next.name, SetOf(list[..j]));
      var remaining := indegree[list[j]] - 1;
      indegree := indegree[list[j] := remaining];
      if remaining == 0 {
        MultisetOfUnion(Released(records, SetOf(list[..j]), placed'), {r});
        ready := ready + [r];
      }
    }
    assert list[..|list|] == list;
  }

  lemma {:induction false} MixedKeys(records: seq<PackageRecord>, names: set<string>, placed: set<string>,
                                     next: string, done: set<string>)
    ensures MixedMap(records, names, placed, next, done).Keys == names
  {
  }

  lemma {:induction false} SetOfMembers(s: seq<string>)
    ensures forall n :: n in SetOf(s) <==> n in s
  {
  }

  lemma {:induction false} NothingReleased(records: seq<PackageRecord>, placed: set<string>)
    ensures Released(records, {}, placed) == {}
  {
  }

  lemma {:induction false} DependentNeeds(records: seq<PackageRecord>, r: PackageRecord, d: string)
    requires DistinctNames(records) && r in records && DependsOn(records, r.name, d)
    ensures d in Needs(r)
  {
    var s :| s in records && s.name == r.name && d in Needs(s);
    SameNameSameRecord(records, r, s);
  }

  // ---------------------------------------------------------------- the order loop

  predicate IndexOf(records: seq<PackageRecord>, index: map<string, nat>) {
    forall i | 0 <= i < |records| :: records[i].name in index && index[records[i].name] == i
  }

  /** The head of the sorted ready list is the available record declared first. */
  lemma {:induction false} HeadIsGreedy(records: seq<PackageRecord>, index: map<string, nat>, ready: seq<PackageRecord>,
                                        placed: set<string>) returns (i: nat)
    requires IndexOf(records, index) && ready != [] && multiset(ready) == multiset(AvailableSet(records, placed))
    ensures var next := SortByIndex(index, ready);
            && next != [] && next[0] in records && Available(next[0], placed)
            && i < |records| && records[i] == next[0] && forall j | 0 <= j < i :: !Available(records[j], placed)
  {
    hide SortByIndex, Available, SortedByIndex;
    SortByIndexSorts(index, ready);
    var sorted := SortByIndex(index, ready);
    assert |sorted| == |multiset(sorted)| == |multiset(ready)| == |ready|;
    assert sorted[0] in multiset(sorted) && sorted[0] in AvailableSet(records, placed);
    i :| 0 <= i < |records| && records[i] == sorted[0];
    forall j | 0 <= j < i
      ensures !Available(records[j], placed)
    {
      if Available(records[j], placed) {
        assert records[j] in AvailableSet(records, placed);
        assert records[j] in multiset(sorted);
        var k :| 0 <= k < |sorted| && sorted[k] == records[j];
        HeadIsLeast(index, sorted, k);
      }
    }
  }

  lemma {:induction false} GreedyExtends(records: seq<PackageRecord>, ordered: seq<PackageRecord>,
                                         next: PackageRecord, i: nat)
    requires Greedy(records, ordered) && i < |records| && records[i] == next
    requires Available(next, NamesOf(ordered)) && forall j | 0 <= j < i :: !Available(records[j], NamesOf(ordered))
    ensures Greedy(records, ordered + [next]) && NamesOf(ordered + [next]) == NamesOf(ordered) + {next.name}
  {
    hide Available, NamesOf;
    var longer := ordered + [next];
    forall k | 0 <= k < |longer|
      ensures GreedyAt(records, longer, k)
    {
      if k < |ordered| {
        assert GreedyAt(records, ordered, k);
        assert longer[..k] == ordered[..k];
      } else {
        assert longer[..k] == ordered;
      }
    }
    PrefixNames(longer, |ordered|);
    assert longer[..|ordered|] == ordered && longer[..|ordered| + 1] == longer;
  }

  lemma {:induction false} PlacedNeedsPlaced(records: seq<PackageRecord>, ordered: seq<PackageRecord>)
    requires DistinctNames(records) && Greedy(records, ordered)
    ensures forall r | r in records && r.name in NamesOf(ordered) :: Needs(r) <= NamesOf(ordered)
  {
    GreedyIsTopological(records, ordered);
    forall r | r in records && r.name in NamesOf(ordered)
      ensures Needs(r) <= NamesOf(ordered)
    {
      var s :| s in ordered && s.name == r.name;
      SameNameSameRecord(records, r, s);
      var k :| 0 <= k < |ordered| && ordered[k] == s;
      assert NamesOf(ordered[..k]) <= NamesOf(ordered);
    }
  }

  lemma {:induction false} NothingIsGreedy(records: seq<PackageRecord>)
    ensures Greedy(records, [])
  {
  }

  /** Taking the head off the ready list takes one record out of the available set. */
  lemma {:induction false} ShiftReady(ready: seq<PackageRecord>, available: set<PackageRecord>)
    requires ready != [] && multiset(ready) == multiset(available)
    ensures multiset(ready[1..]) == multiset(available - {ready[0]})
  {
    assert ready == [ready[0]] + ready[1..];
    assert multiset(ready) == multiset{ready[0]} + multiset(ready[1..]);
    assert ready[0] in multiset(ready);
    assert multiset({ready[0]}) == multiset{ready[0]};
    var rest := available - {ready[0]};
    assert available == rest + {ready[0]};
    MultisetOfUnion(rest, {ready[0]});
    assert multiset(ready[1..]) == multiset(ready) - multiset{ready[0]};
    assert multiset(rest) == multiset(available) - multiset{ready[0]};
  }

  function ReadyOf(records: seq<PackageRecord>, indegree: map<string, int>): seq<PackageRecord> {
    if records == [] then []
    else
      var before, last := ReadyOf(records[..|records| - 1], indegree), records[|records| - 1];
      if last.name in indegree && indegree[last.name] == 0 then before + [last] else before
  }

  function ZeroSet(records: seq<PackageRecord>, indegree: map<string, int>): set<PackageRecord> {
    set r | r in records && r.name in indegree && indegree[r.name] == 0
  }

  lemma {:induction false} ZeroSetStep(front: seq<PackageRecord>, last: PackageRecord, indegree: map<string, int>)
    requires DistinctNames(front + [last])
    ensures last !in ZeroSet(front, indegree)
    ensures ZeroSet(front + [last], indegree)
            == if last.name in indegree && indegree[last.name] == 0 then ZeroSet(front, indegree) + {last}
               else ZeroSet(front, indegree)
  {
    var all := front + [last];
    assert all[|front|] == last;
    assert forall i | 0 <= i < |front| :: all[i] == front[i];
    assert last !in front;
  }

  lemma {:induction false} ReadyOfMultiset(records: seq<PackageRecord>, indegree: map<string, int>)
    requires DistinctNames(records)
    ensures multiset(ReadyOf(records, indegree)) == multiset(ZeroSet(records, indegree))
  {
    if records != [] {
      hide ZeroSet;
      var front, last := records[..|records| - 1], records[|records| - 1];
      assert records == front + [last];
      ReadyOfMultiset(front, indegree);
      ZeroSetStep(front, last, indegree);
      MultisetOfUnion(ZeroSet(front, indegree), {last});
      assert multiset({last}) == multiset{last};
    }
  }

  lemma {:induction false} InitiallyReady(records: seq<PackageRecord>, indegree: map<string, int>)
    requires DistinctNames(records) && indegree == CountMap(records, NamesOf(records), {})
    ensures multiset(ReadyOf(records, indegree)) == multiset(AvailableSet(records, {}))
  {
    hide CountFor, ReadyOf;
    ReadyOfMultiset(records, indegree);
    forall r | r in records
      ensures r in ZeroSet(records, indegree) <==> Available(r, {})
    {
      CountForRecord(records, r.name, {});
      assert r.name in NamesOf(records);
      assert |Needs(r) - {}| == 0 <==> Needs(r) - {} == {};
    }
    assert ZeroSet(records, indegree) == AvailableSet(records, {});
  }

  lemma {:induction false} NothingLeft(a: set<PackageRecord>)
    requires multiset(a) == multiset{}
    ensures a == {}
  {
    assert forall x | x in a :: x in multiset(a);
  }

  method OrderRecords(records: seq<PackageRecord>, recordsByName: map<string, PackageRecord>, index: map<string, nat>,
                      indegree0: map<string, int>, dependents: map<string, seq<string>>)
    returns (ordered: seq<PackageRecord>, indegree: map<string, int>)
    requires DistinctNames(records) && ByName(records, recordsByName) && IndexOf(records, index)
    requires indegree0 == CountMap(records, NamesOf(records), {})
             && dependents == DependentMap(records, NamesOf(records))
    ensures Greedy(records, ordered) && AvailableSet(records, NamesOf(ordered)) == {}
    ensures indegree == CountMap(records, NamesOf(records), NamesOf(ordered))
  {
    hide CountMap, DependentsOf, Greedy, Released, SortByIndex, SortedByIndex, ByName, IndexOf, DistinctNames, ReadyOf;
    ghost var names := NamesOf(records);
    indegree, ordered := indegree0, [];
    var ready := ReadyOf(records, indegree);
    InitiallyReady(records, indegree);
    assert Greedy(records, []) by { NothingIsGreedy(records); }
    ghost var placed: set<string> := {};
    while ready != []
      invariant placed == NamesOf(ordered) && placed <= names
      invariant Greedy(records, ordered)
      invariant indegree == CountMap(records, names, placed)
      invariant multiset(ready) == multiset(AvailableSet(records, placed))
      decreases names - placed
    {
      ghost var i := HeadIsGreedy(records, index, ready, placed);
      PlacedNeedsPlaced(records, ordered);
      SortByIndexSorts(index, ready);
      ready := SortByIndex(index, ready);
      var next := ready[0];
      ShiftReady(ready, AvailableSet(records, placed));
      ready := ready[1..];
      var list := dependents[next.name];
      DependentsMembers(records, next.name);
      SetOfMembers(list);
      AvailableAfter(records, placed, next, SetOf(list));
      GreedyExtends(records, ordered, next, i);
      ordered := ordered + [next];
      indegree, ready := ReleaseDependents(records, recordsByName, list, indegree, ready, next, placed);
      MultisetOfUnion(AvailableSet(records, placed) - {next}, Released(records, SetOf(list), placed + {next.name}));
      placed := placed + {next.name};
    }
    NothingLeft(AvailableSet(records, placed));
  }

  // ---------------------------------------------------------------- matching records to declarations

  predicate DistinctDeclarations(declared: seq<Definition>) {
    forall i, j | 0 <= i < j < |declared| :: declared[i].name != declared[j].name
  }

  predicate DeclaresName(declared: seq<Definition>, name: string) {
    exists i | 0 <= i < |declared| :: declared[i].name == name
  }

  predicate HasRecord(records: seq<PackageRecord>, d: Definition) {
    exists i | 0 <= i < |records| :: records[i].name == d.name && records[i].dir == d.dir
  }

  /** The records and the declared packages are in one-to-one correspondence. */
  predicate Matched(records: seq<PackageRecord>, declared: seq<Definition>) {
    && DistinctNames(records) && DistinctDeclarations(declared)
    && (forall i | 0 <= i < |declared| :: HasRecord(records, declared[i]))
    && (forall i | 0 <= i < |records| :: DeclaresName(declared, records[i].name))
  }

  predicate ExactDependencies(declared: seq<Definition>, r: PackageRecord, version: string) {
    Stable(version)
    && forall d | d in r.internalDependencies :: DeclaresName(declared, d) && r.internalDependencies[d] == version
  }

  predicate SameVersion(records: seq<PackageRecord>, version: string) {
    forall r | r in records :: r.version == version
  }

  predicate AllExact(records: seq<PackageRecord>, declared: seq<Definition>, version: string) {
    forall r | r in records :: ExactDependencies(declared, r, version)
  }

  /** Everything the planner checks before it orders the packages. */
  predicate Admissible(records: seq<PackageRecord>, declared: seq<Definition>) {
    && Matched(records, declared) && records != []
    && SameVersion(records, records[0].version)
    && AllExact(records, declared, records[0].version)
  }

  /** `ordered` lists the records in declaration order. */
  predicate InDeclarationOrder(records: seq<PackageRecord>, declared: seq<Definition>, ordered: seq<PackageRecord>) {
    |ordered| == |declared|
    && forall i | 0 <= i < |declared| :: ordered[i] in records && ordered[i].name == declared[i].name
  }

  /** recordsByName, or the duplicate that prevents it. */
  method GroupByName(records: seq<PackageRecord>) returns (r: Result<map<string, PackageRecord>, PlanError>)
    ensures r.Ok? <==> DistinctNames(records)
    ensures r.Ok? ==> ByName(records, r.value)
    ensures r.Err? ==> r.error.DuplicateRecord?
  {
    var m: map<string, PackageRecord> := map[];
    for i := 0 to |records|
      invariant DistinctNames(records[..i]) && ByName(records[..i], m)
    {
      PrefixNames(records, i);
      assert records[..i + 1] == records[..i] + [records[i]];
      if records[i].name in m {
        var k :| 0 <= k < i && records[k] == m[records[i].name];
        return Err(DuplicateRecord(records[i].name));
      }
      m := m[records[i].name := records[i]];
    }
    assert records[..|records|] == records;
    return Ok(m);
  }

  function DeclaredNames(declared: seq<Definition>): set<string> { set d | d in declared :: d.name }

  lemma {:induction false} DeclaredNamesPrefix(declared: seq<Definition>, i: nat)
    requires i < |declared|
    ensures DeclaredNames(declared[..i + 1]) == DeclaredNames(declared[..i]) + {declared[i].name}
  {
    assert declared[..i + 1] == declared[..i] + [declared[i]];
  }

  lemma {:induction false} DeclaresNameMeaning(declared: seq<Definition>, name: string)
    ensures DeclaresName(declared, name) <==> name in DeclaredNames(declared)
  {
    if name in DeclaredNames(declared) {
      var d :| d in declared && d.name == name;
      var i :| 0 <= i < |declared| && declared[i] == d;
      assert declared[i].name == name;
    }
  }

  /** A record is found under a declared name exactly when it is the one grouped under that name. */
  lemma {:induction false} HasRecordMeaning(records: seq<PackageRecord>, m: map<string, PackageRecord>, d: Definition)
    requires DistinctNames(records) && ByName(records, m)
    ensures HasRecord(records, d) <==> d.name in m && m[d.name].dir == d.dir
  {
    if HasRecord(records, d) {
      var i :| 0 <= i < |records| && records[i].name == d.name && records[i].dir == d.dir;
      assert d.name in NamesOf(records);
      SameNameSameRecord(records, records[i], m[d.name]);
    }
    if d.name in m && m[d.name].dir == d.dir {
      var i :| 0 <= i < |records| && records[i] == m[d.name];
      assert records[i].name == d.name && records[i].dir == d.dir;
    }
  }

  method MatchDeclarations(records: seq<PackageRecord>, m: map<string, PackageRecord>, declared: seq<Definition>)
    returns (r: Result<seq<PackageRecord>, PlanError>)
    requires DistinctNames(records) && ByName(records, m)
    ensures r.Ok? <==> Matched(records, declared)
    ensures r.Ok? ==> InDeclarationOrder(records, declared, r.value)
    ensures r.Err? ==> !r.error.CyclicDependencies?
  {
    hide NamesOf, HasRecord, DeclaredNames;
    var names: set<string>, unmatched, list := {}, m, [];
    assert declared[..0] == [] && DeclaredNames([]) == {} by { NoDeclarations(); }
    for i := 0 to |declared|
      invariant names == DeclaredNames(declared[..i]) && unmatched.Keys == m.Keys - names
      invariant DistinctDeclarations(declared[..i])
      invariant forall k | 0 <= k < i :: HasRecord(records, declared[k])
      invariant InDeclarationOrder(records, declared[..i], list)
    {
      var d := declared[i];
      HasRecordMeaning(records, m, d);
      DeclaresNameMeaning(declared[..i], d.name);
      DeclaredNamesPrefix(declared, i);
      if d.name in names {
        var k :| 0 <= k < i && declared[..i][k].name == d.name;
        assert declared[k].name == declared[i].name;
        return Err(DuplicateDeclaration(d.name));
      }
      if d.name !in m { return Err(MissingRecord(d.name)); }
      if m[d.name].dir != d.dir { return Err(WrongDirectory(d.name)); }
      names, unmatched, list := names + {d.name}, unmatched - {d.name}, list + [m[d.name]];
    }
    assert declared[..|declared|] == declared;
    if unmatched != map[] {
      var n :| n in unmatched;
      DeclaresNameMeaning(declared, n);
      var k :| 0 <= k < |records| && records[k] == m[n];
      assert !DeclaresName(declared, records[k].name);
      return Err(UnexpectedRecords);
    }
    assert unmatched.Keys == {};
    assert m.Keys <= names;
    AllDeclared(records, m, declared);
    return Ok(list);
  }

  lemma {:induction false} NoDeclarations()
    ensures DeclaredNames([]) == {}
  {
  }

  lemma {:induction false} AllDeclared(records: seq<PackageRecord>, m: map<string, PackageRecord>,
                                       declared: seq<Definition>)
    requires ByName(records, m) && m.Keys <= DeclaredNames(declared)
    ensures forall i | 0 <= i < |records| :: DeclaresName(declared, records[i].name)
  {
    hide DeclaredNames, DeclaresName;
    forall i | 0 <= i < |records|
      ensures DeclaresName(declared, records[i].name)
    {
      assert records[i].name in NamesOf(records);
      DeclaresNameMeaning(declared, records[i].name);
    }
  }

  // ---------------------------------------------------------------- the planner

  lemma {:induction false} DeclarationOrderFacts(records: seq<PackageRecord>, declared: seq<Definition>,
                                                 list: seq<PackageRecord>)
    requires Matched(records, declared) && InDeclarationOrder(records, declared, list)
    ensures DistinctNames(list) && (forall r :: r in list <==> r in records) && NamesOf(list) == NamesOf(records)
  {
    hide HasRecord;
    forall i, j | 0 <= i < j < |list|
      ensures list[i].name != list[j].name
    {
      assert declared[i].name != declared[j].name;
    }
    forall r | r in records
      ensures r in list
    {
      var k :| 0 <= k < |records| && records[k] == r;
      assert DeclaresName(declared, records[k].name);
      var i :| 0 <= i < |declared| && declared[i].name == r.name;
      SameNameSameRecord(records, list[i], r);
    }
  }

  /** The declaration order of matched records is unique, whatever the order of the records. */
  lemma {:induction false} DeclarationOrderUnique(a: seq<PackageRecord>, b: seq<PackageRecord>,
                                                  declared: seq<Definition>,
                                                  listA: seq<PackageRecord>, listB: seq<PackageRecord>)
    requires DistinctNames(a) && (forall r :: r in a <==> r in b)
    requires InDeclarationOrder(a, declared, listA) && InDeclarationOrder(b, declared, listB)
    ensures listA == listB
  {
    forall i | 0 <= i < |declared|
      ensures listA[i] == listB[i]
    {
      SameNameSameRecord(a, listA[i], listB[i]);
    }
  }

  ghost predicate IsPlan(records: seq<PackageRecord>, declared: seq<Definition>, ordered: seq<PackageRecord>) {
    exists list :: InDeclarationOrder(records, declared, list) && IsOrder(list, ordered)
  }

  lemma {:induction false} AdmissibleIsClosed(records: seq<PackageRecord>, declared: seq<Definition>,
                                              list: seq<PackageRecord>)
    requires Admissible(records, declared) && InDeclarationOrder(records, declared, list)
    ensures Closed(list)
  {
    DeclarationOrderFacts(records, declared, list);
    forall r, d | r in list && d in Needs(r)
      ensures d in NamesOf(list)
    {
      assert ExactDependencies(declared, r, records[0].version);
      assert DeclaresName(declared, d);
      var i :| 0 <= i < |declared| && declared[i].name == d;
      assert list[i] in list;
    }
  }

  lemma {:induction false} SameCycles(a: seq<PackageRecord>, b: seq<PackageRecord>)
    requires forall r :: r in a <==> r in b
    ensures HasCycle(a) <==> HasCycle(b)
    ensures forall x, y :: DependsOn(a, x, y) <==> DependsOn(b, x, y)
  {
    assert forall x, y :: DependsOn(a, x, y) <==> DependsOn(b, x, y);
    if c :| IsCycle(a, c) { assert IsCycle(b, c); }
    if c :| IsCycle(b, c) { assert IsCycle(a, c); }
  }

  /** A topological order made of the records, whether or not it holds all of them, in which the name occurs. */
  predicate Places(records: seq<PackageRecord>, order: seq<PackageRecord>, n: string) {
    Topological(order) && (forall r | r in order :: r in records) && n in NamesOf(order)
  }

  ghost predicate Placeable(records: seq<PackageRecord>, n: string) {
    exists order :: Places(records, order, n)
  }

  /** The packages a cycle error names: exactly those that no topological order can hold. */
  ghost predicate StuckNames(records: seq<PackageRecord>, names: seq<string>) {
    names != [] && forall n :: n in names <==> n in NamesOf(records) && !Placeable(records, n)
  }

  /** Nothing outside a maximal order can be placed: the first such record of another order would be available. */
  lemma {:induction false} NothingElsePlaces(records: seq<PackageRecord>, placed: set<string>,
                                             order: seq<PackageRecord>, k: nat)
    requires AvailableSet(records, placed) == {} && Topological(order) && (forall r | r in order :: r in records)
    requires k <= |order|
    ensures NamesOf(order[..k]) <= placed
  {
    hide Needs;
    if k > 0 {
      NothingElsePlaces(records, placed, order, k - 1);
      PrefixNames(order, k - 1);
      assert order[k - 1] in order && order[k - 1] !in AvailableSet(records, placed);
    }
  }

  lemma {:induction false} UnplacedIsStuck(records: seq<PackageRecord>, ordered: seq<PackageRecord>, n: string)
    requires DistinctNames(records) && Greedy(records, ordered) && AvailableSet(records, NamesOf(ordered)) == {}
    ensures Placeable(records, n) <==> n in NamesOf(ordered)
  {
    hide Greedy, AvailableSet, Topological, DistinctNames, NamesOf;
    GreedyIsTopological(records, ordered);
    if n in NamesOf(ordered) {
      assert Places(records, ordered, n);
    }
    if Placeable(records, n) {
      var order :| Places(records, order, n);
      NothingElsePlaces(records, NamesOf(ordered), order, |order|);
      assert order[..|order|] == order;
    }
  }

  function Unplaced(records: seq<PackageRecord>, indegree: map<string, int>): seq<string> {
    if records == [] then []
    else
      var before, last := Unplaced(records[..|records| - 1], indegree), records[|records| - 1];
      if last.name in indegree && indegree[last.name] > 0 then before + [last.name] else before
  }

  lemma {:induction false} UnplacedMembers(records: seq<PackageRecord>, indegree: map<string, int>, n: string)
    ensures n in Unplaced(records, indegree) <==> n in NamesOf(records) && n in indegree && indegree[n] > 0
  {
    if records != [] {
      var front, last := records[..|records| - 1], records[|records| - 1];
      assert records == front + [last];
      UnplacedMembers(front, indegree, n);
    }
  }

  lemma {:induction false} RecordNamed(records: seq<PackageRecord>, n: string) returns (r: PackageRecord)
    requires n in NamesOf(records)
    ensures r in records && r.name == n
  {
    r :| r in records && r.name == n;
  }

  lemma {:induction false} MissingNeeds(records: seq<PackageRecord>, placed: set<string>, r: PackageRecord)
    requires r in records && AvailableSet(records, placed) == {}
    ensures |Needs(r) - placed| > 0 <==> !(Needs(r) <= placed)
    ensures r.name !in placed ==> !(Needs(r) <= placed)
  {
    assert |Needs(r) - placed| == 0 <==> Needs(r) - placed == {};
    if !(Needs(r) <= placed) {
      var d :| d in Needs(r) && d !in placed;
      assert d in Needs(r) - placed;
    }
    assert r !in AvailableSet(records, placed);
  }

  /** When nothing is available, the records with missing dependencies are exactly the unplaced ones. */
  lemma {:induction false} UnplacedMeaning(records: seq<PackageRecord>, ordered: seq<PackageRecord>,
                                           indegree: map<string, int>, n: string)
    requires DistinctNames(records) && Greedy(records, ordered) && AvailableSet(records, NamesOf(ordered)) == {}
    requires indegree == CountMap(records, NamesOf(records), NamesOf(ordered))
    ensures n in Unplaced(records, indegree) <==> n in NamesOf(records) && n !in NamesOf(ordered)
  {
    hide Unplaced, CountFor, Greedy, DistinctNames, NamesOf, AvailableSet, Needs;
    UnplacedMembers(records, indegree, n);
    PlacedNeedsPlaced(records, ordered);
    if n in NamesOf(records) {
      var r := RecordNamed(records, n);
      CountForRecord(records, n, NamesOf(ordered));
      MissingNeeds(records, NamesOf(ordered), r);
    }
  }

  lemma {:induction false} StuckDepends(records: seq<PackageRecord>, placed: set<string>, names: seq<string>, n: string)
    requires Closed(records) && AvailableSet(records, placed) == {} && n in names
    requires forall m :: m in names <==> m in NamesOf(records) && m !in placed
    ensures DependsWithin(records, SetOf(names), n)
  {
    var r :| r in records && r.name == n;
    assert r !in AvailableSet(records, placed);
    var d :| d in Needs(r) && d !in placed;
    assert d in SetOf(names) && DependsOn(records, n, d);
  }

  lemma {:induction false} CycleIsStuck(records: seq<PackageRecord>, ordered: seq<PackageRecord>, c: seq<string>,
                                        i: nat)
    requires DistinctNames(records) && Greedy(records, ordered) && IsCycle(records, c) && i < |c|
    ensures c[i] in NamesOf(records) && c[i] !in NamesOf(ordered)
  {
    GreedyIsTopological(records, ordered);
    CycleNeverPlaced(records, ordered, c, |ordered|);
    assert ordered[..|ordered|] == ordered;
    assert DependsOn(records, c[i], c[if i + 1 == |c| then 0 else i + 1]);
  }

  lemma {:induction false} StuckMeansCycle(records: seq<PackageRecord>, ordered: seq<PackageRecord>, names: seq<string>)
    requires DistinctNames(records) && Closed(records) && Greedy(records, ordered)
    requires AvailableSet(records, NamesOf(ordered)) == {}
    requires forall n :: n in names <==> n in NamesOf(records) && n !in NamesOf(ordered)
    ensures names != [] ==> StuckNames(records, names) && HasCycle(records)
    ensures HasCycle(records) ==> names != []
  {
    hide DistinctNames, Closed, Greedy, AvailableSet, NamesOf, DependsWithin, IsCycle, Placeable;
    forall n
      ensures n in names <==> n in NamesOf(records) && !Placeable(records, n)
    {
      UnplacedIsStuck(records, ordered, n);
    }
    forall n | n in names
      ensures DependsWithin(records, SetOf(names), n)
    {
      StuckDepends(records, NamesOf(ordered), names, n);
    }
    forall c, i | IsCycle(records, c) && 0 <= i < |c|
      ensures c[i] in names
    {
      CycleIsStuck(records, ordered, c, i);
    }
    if names != [] {
      assert names[0] in names;
      WalkFindsCycle(records, SetOf(names), [names[0]]);
    }
    if c :| IsCycle(records, c) {
      CycleIsNotEmpty(records, c);
      assert c[0] in names;
    }
  }

  lemma {:induction false} CycleIsNotEmpty(records: seq<PackageRecord>, c: seq<string>)
    requires IsCycle(records, c)
    ensures c != []
  {
  }

  lemma {:induction false} PlacedAll(records: seq<PackageRecord>, ordered: seq<PackageRecord>)
    requires DistinctNames(records) && Greedy(records, ordered)
    ensures |ordered| == |records| <==> NamesOf(records) <= NamesOf(ordered)
  {
    GreedyIsTopological(records, ordered);
    DistinctCount(records);
    DistinctCount(ordered);
    assert NamesOf(ordered) <= NamesOf(records);
    if |ordered| == |records| { SubsetOfSameSize(NamesOf(ordered), NamesOf(records)); }
    if NamesOf(records) <= NamesOf(ordered) { assert NamesOf(records) == NamesOf(ordered); }
  }

  lemma {:induction false} UnplacedEmpty(records: seq<PackageRecord>, ordered: seq<PackageRecord>, names: seq<string>)
    requires forall n :: n in names <==> n in NamesOf(records) && n !in NamesOf(ordered)
    ensures names == [] <==> NamesOf(records) <= NamesOf(ordered)
  {
    if names != [] { assert names[0] in names; }
  }

  method IndexByName(records: seq<PackageRecord>) returns (index: map<string, nat>)
    requires DistinctNames(records)
    ensures IndexOf(records, index)
  {
    index := map[];
    for i := 0 to |records|
      invariant forall k | 0 <= k < i :: records[k].name in index && index[records[k].name] == k
    {
      index := index[records[i].name := i];
    }
  }

  /** The ordering half, on records already matched to their declarations. */
  method OrderDeclared(list: seq<PackageRecord>, recordsByName: map<string, PackageRecord>)
    returns (r: Result<seq<PackageRecord>, PlanError>)
    requires DistinctNames(list) && Closed(list) && ByName(list, recordsByName)
    ensures r.Ok? <==> !HasCycle(list)
    ensures r.Ok? ==> IsOrder(list, r.value)
    ensures r.Err? ==> r.error.CyclicDependencies? && StuckNames(list, r.error.names)
  {
    hide CountMap, DependentMap, AvailableSet, Greedy, NamesOf, HasCycle, StuckNames, Closed, DistinctNames, ByName;
    var indegree, dependents := BuildGraph(list);
    var index := IndexByName(list);
    var ordered, left := OrderRecords(list, recordsByName, index, indegree, dependents);
    var names := Unplaced(list, left);
    forall n
      ensures n in names <==> n in NamesOf(list) && n !in NamesOf(ordered)
    {
      UnplacedMeaning(list, ordered, left, n);
    }
    StuckMeansCycle(list, ordered, names);
    PlacedAll(list, ordered);
    UnplacedEmpty(list, ordered, names);
    if |ordered| != |list| { return Err(CyclicDependencies(names)); }
    return Ok(ordered);
  }

  lemma {:induction false} MatchedFacts(records: seq<PackageRecord>, declared: seq<Definition>)
    requires Matched(records, declared)
    ensures DistinctNames(records) && (declared == [] <==> records == [])
  {
    if declared != [] { assert HasRecord(records, declared[0]); }
    if records != [] { assert DeclaresName(declared, records[0].name); }
  }

  /** The version checks see the same records whichever way they are listed. */
  lemma {:induction false} ListedChecks(records: seq<PackageRecord>, list: seq<PackageRecord>,
                                        declared: seq<Definition>)
    requires records != [] && list != [] && forall r :: r in records <==> r in list
    ensures SameVersion(records, records[0].version) <==> SameVersion(list, list[0].version)
    ensures SameVersion(list, list[0].version) ==>
              (AllExact(records, declared, records[0].version) <==> AllExact(list, declared, list[0].version))
  {
    hide ExactDependencies;
    assert records[0] in list && list[0] in records;
  }

  method CheckVersions(list: seq<PackageRecord>, declared: seq<Definition>) returns (r: Result<(), PlanError>)
    requires list != []
    ensures r.Ok? <==> SameVersion(list, list[0].version) && AllExact(list, declared, list[0].version)
    ensures r.Err? ==> !r.error.CyclicDependencies?
  {
    hide ExactDependencies;
    var version := list[0].version;
    for i := 0 to |list|
      invariant forall k | 0 <= k < i :: list[k].version == version
    {
      if list[i].version != version {
        assert list[i] in list;
        return Err(MixedVersions);
      }
    }
    for i := 0 to |list|
      invariant forall k | 0 <= k < i :: ExactDependencies(declared, list[k], version)
    {
      if !ExactDependencies(declared, list[i], version) {
        assert list[i] in list;
        return Err(InexactDependency(list[i].name));
      }
    }
    return Ok(());
  }

  lemma {:induction false} SameEmptiness(records: seq<PackageRecord>, list: seq<PackageRecord>)
    requires forall r :: r in list <==> r in records
    ensures records == [] <==> list == []
  {
    if records != [] { assert records[0] in list; }
    if list != [] { assert list[0] in records; }
  }

  lemma {:induction false} ByNameTransfers(records: seq<PackageRecord>, list: seq<PackageRecord>,
                                           m: map<string, PackageRecord>)
    requires ByName(records, m) && (forall r :: r in list <==> r in records) && NamesOf(list) == NamesOf(records)
    ensures ByName(list, m)
  {
  }

  lemma {:induction false} PlaceableTransfers(a: seq<PackageRecord>, b: seq<PackageRecord>, n: string)
    requires (forall r :: r in a <==> r in b) && Placeable(a, n)
    ensures Placeable(b, n)
  {
    hide Topological, NamesOf;
    var order :| Places(a, order, n);
    assert Places(b, order, n);
  }

  lemma {:induction false} StuckTransfers(list: seq<PackageRecord>, records: seq<PackageRecord>, names: seq<string>)
    requires (forall r :: r in list <==> r in records) && StuckNames(list, names)
    ensures StuckNames(records, names)
  {
    hide Placeable;
    assert NamesOf(list) == NamesOf(records);
    forall n
      ensures Placeable(list, n) <==> Placeable(records, n)
    {
      if Placeable(list, n) { PlaceableTransfers(list, records, n); }
      if Placeable(records, n) { PlaceableTransfers(records, list, n); }
    }
  }

  /** planExpectedEvidencePublication, for any list of declared packages. */
  method PlanExpectedEvidencePublication(records: seq<PackageRecord>, declared: seq<Definition>)
    returns (r: Result<seq<PackageRecord>, PlanError>)
    ensures r.Ok? <==> Admissible(records, declared) && !HasCycle(records)
    ensures r.Ok? ==> IsPlan(records, declared, r.value)
    ensures r.Err? && r.error.CyclicDependencies? <==> Admissible(records, declared) && HasCycle(records)
    ensures r.Err? && r.error.CyclicDependencies? ==> StuckNames(records, r.error.names)
  {
    hide HasCycle, StuckNames, Closed, DistinctNames, ByName, IsOrder, InDeclarationOrder, Matched, SameVersion,
      AllExact, NamesOf;
    var grouped := GroupByName(records);
    if grouped.Err? {
      if Matched(records, declared) { MatchedFacts(records, declared); }
      return Err(grouped.error);
    }
    var matched := MatchDeclarations(records, grouped.value, declared);
    if matched.Err? { return Err(matched.error); }
    var list := matched.value;
    MatchedFacts(records, declared);
    DeclarationOrderFacts(records, declared, list);
    SameCycles(records, list);
    if list == [] {
      SameEmptiness(records, list);
      return Err(NoRecords);
    }
    assert list[0] in records;
    ListedChecks(records, list, declared);
    var checked := CheckVersions(list, declared);
    if checked.Err? { return Err(checked.error); }
    AdmissibleIsClosed(records, declared, list);
    ByNameTransfers(records, list, grouped.value);
    r := OrderDeclared(list, grouped.value);
    if r.Err? { StuckTransfers(list, records, r.error.names); }
  }

  // ---------------------------------------------------------------- what a plan is worth

  /**
   * A plan holds every record once, each after its dependencies; any other such order takes a later-declared
   * package at the first position where it differs.
   */
  lemma {:induction false} PlanIsLeastTopologicalOrder(records: seq<PackageRecord>, declared: seq<Definition>,
                                                       plan: seq<PackageRecord>, other: seq<PackageRecord>)
    requires Matched(records, declared) && IsPlan(records, declared, plan)
    ensures Topological(plan) && DistinctNames(plan) && (forall r :: r in plan <==> r in records)
    ensures |other| == |plan| && DistinctNames(other) && Topological(other) && (forall r | r in other :: r in records)
            && other != plan
            ==> exists k, i, j :: 0 <= k < |plan| && 0 <= i < j < |declared| && plan[..k] == other[..k]
                                  && declared[i].name == plan[k].name && declared[j].name == other[k].name
  {
    var list :| InDeclarationOrder(records, declared, list) && IsOrder(list, plan);
    DeclarationOrderFacts(records, declared, list);
    OrderIsPermutation(list, plan);
    GreedyIsTopological(list, plan);
    if |other| == |plan| && DistinctNames(other) && Topological(other) && (forall r | r in other :: r in records)
      && other != plan {
      var k, i, j := LexicographicallyLeast(list, plan, other);
      assert declared[i].name == plan[k].name && declared[j].name == other[k].name;
    }
  }

  /** The plan does not depend on the order in which the records are given. */
  lemma {:induction false} PlanIgnoresInputOrder(a: seq<PackageRecord>, b: seq<PackageRecord>,
                                                 declared: seq<Definition>,
                                                 planA: seq<PackageRecord>, planB: seq<PackageRecord>)
    requires Matched(a, declared) && (forall r :: r in a <==> r in b)
    requires IsPlan(a, declared, planA) && IsPlan(b, declared, planB)
    ensures planA == planB
  {
    var listA :| InDeclarationOrder(a, declared, listA) && IsOrder(listA, planA);
    var listB :| InDeclarationOrder(b, declared, listB) && IsOrder(listB, planB);
    DeclarationOrderUnique(a, b, declared, listA, listB);
    DeclarationOrderFacts(a, declared, listA);
    OrderIsUnique(listA, planA, planB);
  }
}
