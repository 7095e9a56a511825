/** What a publication order is: greedy by declaration index, hence topological, least and unique. */
module PublicationOrder {
  import opened ReleaseEvidence

  function NamesOf(records: seq<PackageRecord>): set<string> { set r | r in records :: r.name }

  predicate DistinctNames(records: seq<PackageRecord>) {
    forall i, j | 0 <= i < j < |records| :: records[i].name != records[j].name
  }

  function Needs(r: PackageRecord): set<string> { r.internalDependencies.Keys }

  /** Every dependency names a record of the list. */
  predicate Closed(records: seq<PackageRecord>) {
    forall r | r in records :: Needs(r) <= NamesOf(records)
  }

  // ---------------------------------------------------------------- orders

  /** Every record comes after all records it depends on. */
  predicate Topological(ordered: seq<PackageRecord>) {
    forall k | 0 <= k < |ordered| :: Needs(ordered[k]) <= NamesOf(ordered[..k])
  }

  predicate Available(r: PackageRecord, placed: set<string>) {
    r.name !in placed && Needs(r) <= placed
  }

  /** Position k holds the available record declared first. */
  predicate GreedyAt(declared: seq<PackageRecord>, ordered: seq<PackageRecord>, k: nat)
    requires k < |ordered|
  {
    var placed := NamesOf(ordered[..k]);
    exists i | 0 <= i < |declared| ::
      && declared[i] == ordered[k]
      && Available(declared[i], placed)
      && forall j | 0 <= j < i :: !Available(declared[j], placed)
  }

  predicate Greedy(declared: seq<PackageRecord>, ordered: seq<PackageRecord>) {
    forall k | 0 <= k < |ordered| :: GreedyAt(declared, ordered, k)
  }

  /** A full publication order of the declared records. */
  predicate IsOrder(declared: seq<PackageRecord>, ordered: seq<PackageRecord>) {
    Greedy(declared, ordered) && |ordered| == |declared|
  }

  lemma {:induction false} PrefixNames(ordered: seq<PackageRecord>, k: nat)
    requires k < |ordered|
    ensures NamesOf(ordered[..k + 1]) == NamesOf(ordered[..k]) + {ordered[k].name}
  {
    assert ordered[..k + 1] == ordered[..k] + [ordered[k]];
  }

  lemma {:induction false} GreedyIsTopological(declared: seq<PackageRecord>, ordered: seq<PackageRecord>)
    requires Greedy(declared, ordered)
    ensures Topological(ordered) && DistinctNames(ordered)
    ensures forall k | 0 <= k < |ordered| :: ordered[k] in declared
  {
    hide NamesOf;
    forall k | 0 <= k < |ordered|
      ensures Available(ordered[k], NamesOf(ordered[..k])) && ordered[k] in declared
    {
      assert GreedyAt(declared, ordered, k);
    }
    forall i, j | 0 <= i < j < |ordered|
      ensures ordered[i].name != ordered[j].name
    {
      NameInPrefix(ordered, i, j);
      assert Available(ordered[j], NamesOf(ordered[..j]));
    }
  }

  lemma {:induction false} NameInPrefix(ordered: seq<PackageRecord>, i: nat, j: nat)
    requires i < j <= |ordered|
    ensures ordered[i].name in NamesOf(ordered[..j])
  {
    assert ordered[..j][i] == ordered[i];
  }

  lemma {:induction false} DistinctCount(records: seq<PackageRecord>)
    requires DistinctNames(records)
    ensures |NamesOf(records)| == |records|
  {
    if records != [] {
      var front, last := records[..|records| - 1], records[|records| - 1];
      DistinctCount(front);
      assert records == front + [last];
      assert NamesOf(records) == NamesOf(front) + {last.name};
      assert last.name !in NamesOf(front);
    }
  }

  /** A complete greedy order holds exactly the declared records. */
  lemma {:induction false} OrderIsPermutation(declared: seq<PackageRecord>, ordered: seq<PackageRecord>)
    requires DistinctNames(declared) && IsOrder(declared, ordered)
    ensures DistinctNames(ordered) && NamesOf(ordered) == NamesOf(declared)
    ensures forall r :: r in ordered <==> r in declared
  {
    GreedyIsTopological(declared, ordered);
    DistinctCount(ordered);
    DistinctCount(declared);
    assert NamesOf(ordered) <= NamesOf(declared);
    SubsetOfSameSize(NamesOf(ordered), NamesOf(declared));
    forall r | r in declared
      ensures r in ordered
    {
      assert r.name in NamesOf(ordered);
      var s :| s in ordered && s.name == r.name;
      SameNameSameRecord(declared, r, s);
    }
  }

  lemma {:induction false} SubsetOfSameSize(a: set<string>, b: set<string>)
    requires a <= b && |a| == |b|
    ensures a == b
  {
    assert |b - a| == 0;
  }

  lemma {:induction false} SameNameSameRecord(records: seq<PackageRecord>, r: PackageRecord, s: PackageRecord)
    requires DistinctNames(records) && r in records && s in records && r.name == s.name
    ensures r == s
  {
    var i :| 0 <= i < |records| && records[i] == r;
    var j :| 0 <= j < |records| && records[j] == s;
    assert i == j;
  }

  /** The declaration index of a record. */
  predicate At(declared: seq<PackageRecord>, i: int, r: PackageRecord) { 0 <= i < |declared| && declared[i] == r }

  /**
   * Least among all: any other topological order that holds the declared records leaves the greedy one at some
   * position, where it takes a record declared later.
   */
  lemma {:induction false} LexicographicallyLeast(declared: seq<PackageRecord>, ordered: seq<PackageRecord>,
                                                  other: seq<PackageRecord>) returns (k: nat, i: nat, j: nat)
    requires DistinctNames(declared) && IsOrder(declared, ordered)
    requires |other| == |declared| && DistinctNames(other) && Topological(other) && other != ordered
    requires forall r | r in other :: r in declared
    ensures k < |declared| && ordered[..k] == other[..k]
    ensures At(declared, i, ordered[k]) && At(declared, j, other[k]) && i < j
  {
    hide NamesOf, Topological;
    k := FirstDifference(ordered, other);
    var placed := NamesOf(ordered[..k]);
    assert GreedyAt(declared, ordered, k);
    i :| 0 <= i < |declared| && declared[i] == ordered[k] && Available(declared[i], placed)
         && forall j | 0 <= j < i :: !Available(declared[j], placed);
    assert other[k] in declared;
    j :| 0 <= j < |declared| && declared[j] == other[k];
    TopologicalAvailable(other, k);
    assert Available(declared[j], placed);
    assert j != i;
  }

  lemma {:induction false} TopologicalAvailable(other: seq<PackageRecord>, k: nat)
    requires DistinctNames(other) && Topological(other) && k < |other|
    ensures Available(other[k], NamesOf(other[..k]))
  {
  }

  lemma {:induction false} FirstDifference(a: seq<PackageRecord>, b: seq<PackageRecord>) returns (k: nat)
    requires |a| == |b| && a != b
    ensures k < |a| && a[..k] == b[..k] && a[k] != b[k]
  {
    if a[0] != b[0] {
      k := 0;
    } else {
      assert a == [a[0]] + a[1..] && b == [b[0]] + b[1..];
      var l := FirstDifference(a[1..], b[1..]);
      k := l + 1;
      assert a[..k] == [a[0]] + a[1..][..l] && b[..k] == [b[0]] + b[1..][..l];
    }
  }

  lemma {:induction false} SameGreedyPrefix(declared: seq<PackageRecord>, a: seq<PackageRecord>,
                                            b: seq<PackageRecord>, k: nat)
    requires DistinctNames(declared) && IsOrder(declared, a) && IsOrder(declared, b) && k <= |a|
    ensures a[..k] == b[..k]
  {
    if k > 0 {
      hide Available, NamesOf;
      SameGreedyPrefix(declared, a, b, k - 1);
      assert GreedyAt(declared, a, k - 1) && GreedyAt(declared, b, k - 1);
      assert a[..k] == a[..k - 1] + [a[k - 1]] && b[..k] == b[..k - 1] + [b[k - 1]];
    }
  }

  /** There is at most one greedy order. */
  lemma {:induction false} OrderIsUnique(declared: seq<PackageRecord>, a: seq<PackageRecord>, b: seq<PackageRecord>)
    requires DistinctNames(declared) && IsOrder(declared, a) && IsOrder(declared, b)
    ensures a == b
  {
    SameGreedyPrefix(declared, a, b, |a|);
    assert a == a[..|a|] && b == b[..|a|];
  }

  // ---------------------------------------------------------------- cycles

  predicate DependsOn(records: seq<PackageRecord>, a: string, b: string) {
    exists r | r in records :: r.name == a && b in Needs(r)
  }

  predicate IsCycle(records: seq<PackageRecord>, c: seq<string>) {
    c != [] && forall i | 0 <= i < |c| :: DependsOn(records, c[i], c[if i + 1 == |c| then 0 else i + 1])
  }

  ghost predicate HasCycle(records: seq<PackageRecord>) { exists c :: IsCycle(records, c) }

  /** No member of a cycle is ever placed by a topological order. */
  lemma {:induction false} CycleNeverPlaced(declared: seq<PackageRecord>, ordered: seq<PackageRecord>, c: seq<string>,
                                            k: nat)
    requires DistinctNames(declared) && Topological(ordered) && (forall r | r in ordered :: r in declared)
    requires IsCycle(declared, c) && k <= |ordered|
    ensures forall i | 0 <= i < |c| :: c[i] !in NamesOf(ordered[..k])
  {
    if k > 0 {
      hide NamesOf;
      CycleNeverPlaced(declared, ordered, c, k - 1);
      PrefixNames(ordered, k - 1);
      forall i | 0 <= i < |c|
        ensures c[i] != ordered[k - 1].name
      {
        var next := if i + 1 == |c| then 0 else i + 1;
        assert DependsOn(declared, c[i], c[next]);
        var r :| r in declared && r.name == c[i] && c[next] in Needs(r);
        assert c[next] !in NamesOf(ordered[..k - 1]);
        if r.name == ordered[k - 1].name { SameNameSameRecord(declared, r, ordered[k - 1]); }
      }
    }
  }

  predicate DependsWithin(records: seq<PackageRecord>, stuck: set<string>, x: string) {
    exists y | y in stuck :: DependsOn(records, x, y)
  }

  predicate WalkEdge(records: seq<PackageRecord>, walk: seq<string>, i: nat)
    requires i + 1 < |walk|
  {
    DependsOn(records, walk[i], walk[i + 1])
  }

  /** A path along dependencies that stays in `stuck` and repeats nothing. */
  predicate IsWalk(records: seq<PackageRecord>, stuck: set<string>, walk: seq<string>) {
    && walk != [] && (forall i | 0 <= i < |walk| :: walk[i] in stuck)
    && (forall i | 0 <= i < |walk| - 1 :: WalkEdge(records, walk, i))
    && forall i, j | 0 <= i < j < |walk| :: walk[i] != walk[j]
  }

  lemma {:induction false} ExtendWalk(records: seq<PackageRecord>, stuck: set<string>, walk: seq<string>, y: string)
    requires IsWalk(records, stuck, walk) && y in stuck && DependsOn(records, walk[|walk| - 1], y) && y !in walk
    ensures IsWalk(records, stuck, walk + [y]) && |walk| + 1 <= |stuck|
  {
    hide DependsOn;
    var longer := walk + [y];
    DistinctWithin(longer, stuck);
    forall i | 0 <= i < |longer| - 1
      ensures WalkEdge(records, longer, i)
    {
      if i + 1 < |walk| { assert WalkEdge(records, walk, i); }
    }
  }

  lemma {:induction false} NextStuck(records: seq<PackageRecord>, stuck: set<string>, x: string) returns (y: string)
    requires DependsWithin(records, stuck, x)
    ensures y in stuck && DependsOn(records, x, y)
  {
    y :| y in stuck && DependsOn(records, x, y);
  }

  /** A set whose members all depend on members of the set contains a cycle. */
  lemma {:induction false} WalkFindsCycle(records: seq<PackageRecord>, stuck: set<string>, walk: seq<string>)
    requires forall x | x in stuck :: DependsWithin(records, stuck, x)
    requires IsWalk(records, stuck, walk)
    ensures HasCycle(records)
    decreases |stuck| - |walk|
  {
    hide DependsOn, HasCycle, DependsWithin;
    var y := NextStuck(records, stuck, walk[|walk| - 1]);
    if y in walk {
      var i :| 0 <= i < |walk| && walk[i] == y;
      CloseCycle(records, walk, i);
    } else {
      ExtendWalk(records, stuck, walk, y);
      hide IsWalk;
      WalkFindsCycle(records, stuck, walk + [y]);
    }
  }

  lemma {:induction false} CloseCycle(records: seq<PackageRecord>, walk: seq<string>, i: nat)
    requires i < |walk| && DependsOn(records, walk[|walk| - 1], walk[i])
    requires forall j | 0 <= j < |walk| - 1 :: WalkEdge(records, walk, j)
    ensures HasCycle(records)
  {
    hide DependsOn;
    var c := walk[i..];
    forall j | 0 <= j < |c|
      ensures DependsOn(records, c[j], c[if j + 1 == |c| then 0 else j + 1])
    {
      if j + 1 < |c| { assert WalkEdge(records, walk, i + j); }
    }
    assert IsCycle(records, c);
  }

  lemma {:induction false} DistinctWithin(s: seq<string>, within: set<string>)
    requires (forall i | 0 <= i < |s| :: s[i] in within) && forall i, j | 0 <= i < j < |s| :: s[i] != s[j]
    ensures |s| <= |within|
  {
    if s != [] {
      var last := s[|s| - 1];
      DistinctWithin(s[..|s| - 1], within - {last});
    }
  }
}
