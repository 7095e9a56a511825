/** Merging line intervals and the coverage counts drawn from the merged list. */
module IntervalMerge {

  /** Inclusive bounds. */
  datatype Interval = Interval(start: int, end: int)

  function Range(start: int, end: int): set<int>
    decreases end - start + 1
  {
    if start > end then {} else Range(start, end - 1) + {end}
  }

  function Lines(i: Interval): set<int> { Range(i.start, i.end) }

  lemma {:induction false} RangeMembers(start: int, end: int, x: int)
    ensures x in Range(start, end) <==> start <= x <= end
    decreases end - start + 1
  {
    if start <= end { RangeMembers(start, end - 1, x); }
  }

  function Union(s: seq<Interval>): set<int> {
    if s == [] then {} else Union(s[..|s| - 1]) + Lines(s[|s| - 1])
  }

  function Length(i: Interval): int { i.end - i.start + 1 }

  /** covered_lines of the analysis. */
  function TotalLength(s: seq<Interval>): int {
    if s == [] then 0 else TotalLength(s[..|s| - 1]) + Length(s[|s| - 1])
  }

  // ---------------------------------------------------------------- sorting

  predicate Leq(a: Interval, b: Interval) { a.start < b.start || (a.start == b.start && a.end <= b.end) }

  function Insert(i: Interval, s: seq<Interval>): seq<Interval> {
    if s == [] || Leq(i, s[0]) then [i] + s else [s[0]] + Insert(i, s[1..])
  }

  /** sorted(ivs) on pairs. */
  function Sorted(s: seq<Interval>): seq<Interval> {
    if s == [] then [] else Insert(s[0], Sorted(s[1..]))
  }

  predicate Ascending(s: seq<Interval>) { |s| > 1 ==> Leq(s[0], s[1]) && Ascending(s[1..]) }

  lemma {:induction false} InsertAscending(i: Interval, s: seq<Interval>)
    requires Ascending(s)
    ensures Ascending(Insert(i, s)) && multiset(Insert(i, s)) == multiset(s) + multiset{i}
    ensures Insert(i, s) != [] && (Insert(i, s)[0] == i || (s != [] && Insert(i, s)[0] == s[0]))
  {
    if s != [] && !Leq(i, s[0]) {
      InsertAscending(i, s[1..]);
      assert s == [s[0]] + s[1..];
    }
  }

  lemma {:induction false} SortedAscending(s: seq<Interval>)
    ensures Ascending(Sorted(s)) && multiset(Sorted(s)) == multiset(s)
  {
    hide Ascending, Insert;
    if s == [] {
      AscendingShort();
    } else {
      SortedAscending(s[1..]);
      InsertAscending(s[0], Sorted(s[1..]));
      assert s == [s[0]] + s[1..];
    }
  }

  lemma {:induction false} AscendingShort()
    ensures Ascending([])
  {
  }

  lemma {:induction false} AscendingAt(s: seq<Interval>, k: nat)
    requires Ascending(s) && k + 1 < |s|
    ensures Leq(s[k], s[k + 1])
  {
    if k > 0 { AscendingAt(s[1..], k - 1); }
  }

  lemma {:induction false} UnionMembers(s: seq<Interval>, x: int)
    ensures x in Union(s) <==> exists i | 0 <= i < |s| :: x in Lines(s[i])
  {
    hide Lines;
    if s != [] {
      var front := s[..|s| - 1];
      UnionMembers(front, x);
      if x in Union(front) {
        var i :| 0 <= i < |front| && x in Lines(front[i]);
        assert x in Lines(s[i]);
      }
      if i :| 0 <= i < |s| && x in Lines(s[i]) {
        assert i < |front| ==> x in Lines(front[i]);
      }
    }
  }

  lemma {:induction false} SortedUnion(s: seq<Interval>)
    ensures Union(Sorted(s)) == Union(s)
  {
    hide Lines, Union, Sorted;
    SortedAscending(s);
    forall x
      ensures x in Union(Sorted(s)) <==> x in Union(s)
    {
      UnionMembers(s, x);
      UnionMembers(Sorted(s), x);
      if i :| 0 <= i < |s| && x in Lines(s[i]) {
        assert s[i] in multiset(Sorted(s));
        var j :| 0 <= j < |Sorted(s)| && Sorted(s)[j] == s[i];
      }
      if i :| 0 <= i < |Sorted(s)| && x in Lines(Sorted(s)[i]) {
        assert Sorted(s)[i] in multiset(s);
        var j :| 0 <= j < |s| && s[j] == Sorted(s)[i];
      }
    }
  }

  // ---------------------------------------------------------------- merging

  predicate SeparatedAt(out: seq<Interval>, k: nat)
    requires k + 1 < |out|
  {
    out[k].end + 1 < out[k + 1].start && out[k].start <= out[k + 1].start
  }

  /** Neighbours leave at least one line between them, and starts do not decrease. */
  predicate Separated(out: seq<Interval>) { forall k | 0 <= k < |out| - 1 :: SeparatedAt(out, k) }

  /** Bounds reversed by more than one line, so that the length is negative. */
  predicate Reversed(i: Interval) { i.end + 1 < i.start }

  predicate NoneReversed(s: seq<Interval>) { forall k | 0 <= k < |s| :: !Reversed(s[k]) }

  /** Some interval that starts earlier reaches the line before `i`. */
  predicate Absorbed(s: seq<Interval>, i: Interval) {
    exists j | 0 <= j < |s| :: s[j].start < i.start <= s[j].end + 1
  }

  /** Every reversed interval is swallowed by an earlier one; a caller can check this before merging. */
  predicate ReversedAreAbsorbed(s: seq<Interval>) {
    forall i | 0 <= i < |s| && Reversed(s[i]) :: Absorbed(s, s[i])
  }

  function Max(a: int, b: int): int { if a < b then b else a }

  lemma {:induction false} UnionLast(out: seq<Interval>, i: Interval)
    ensures Union(out + [i]) == Union(out) + Lines(i)
  {
    assert (out + [i])[..|out|] == out;
  }

  lemma {:induction false} TouchingLines(last: Interval, next: Interval)
    requires last.start <= next.start <= last.end + 1
    ensures Lines(Interval(last.start, Max(last.end, next.end))) == Lines(last) + Lines(next)
  {
    hide Range;
    forall x
      ensures x in Range(last.start, Max(last.end, next.end))
              <==> x in Range(last.start, last.end) || x in Range(next.start, next.end)
    {
      RangeMembers(last.start, Max(last.end, next.end), x);
      RangeMembers(last.start, last.end, x);
      RangeMembers(next.start, next.end, x);
    }
  }

  /** The merge loop, over the first k sorted intervals. */
  predicate Merging(sorted: seq<Interval>, k: nat, out: seq<Interval>) {
    && 0 < k <= |sorted| && out != [] && Separated(out)
    && out[|out| - 1].start <= sorted[k - 1].start
    && (forall j | 0 <= j < k :: sorted[j].end <= out[|out| - 1].end || sorted[j].end + 1 < out[|out| - 1].start)
    && (exists j | 0 <= j < k :: sorted[j].end == out[|out| - 1].end)
    && (NoneReversed(out) <==> forall i | 0 <= i < k && Reversed(sorted[i]) :: Absorbed(sorted, sorted[i]))
  }

  lemma {:induction false} AscendingPair(s: seq<Interval>, i: nat, j: nat)
    requires Ascending(s) && i <= j < |s|
    ensures Leq(s[i], s[j])
    decreases j - i
  {
    if i < j {
      AscendingPair(s, i, j - 1);
      AscendingAt(s, j - 1);
    }
  }

  /** The next interval touches the last one. */
  lemma {:induction false} MergeExtends(sorted: seq<Interval>, k: nat, out: seq<Interval>)
    requires Ascending(sorted) && Merging(sorted, k, out) && k < |sorted| && sorted[k].start <= out[|out| - 1].end + 1
    ensures var last := out[|out| - 1];
            Merging(sorted, k + 1, out[..|out| - 1] + [Interval(last.start, Max(last.end, sorted[k].end))])
  {
    var last, next := out[|out| - 1], sorted[k];
    var merged := Interval(last.start, Max(last.end, next.end));
    var longer := out[..|out| - 1] + [merged];
    ReplaceLast(out, merged.end);
    AscendingPair(sorted, k - 1, k);
    hide Ascending, Separated;
    var j :| 0 <= j < k && sorted[j].end == last.end;
    AscendingPair(sorted, j, k);
    assert sorted[if next.end <= last.end then j else k].end == merged.end;
    assert !Reversed(last) && !Reversed(merged);
    if Reversed(next) {
      assert sorted[j].start < next.start <= sorted[j].end + 1;
      assert Absorbed(sorted, next);
    }
    assert NoneReversed(longer) <==> NoneReversed(out) by {
      assert forall m | 0 <= m < |out| - 1 :: longer[m] == out[m];
      assert out[|out| - 1] == last && longer[|out| - 1] == merged;
    }
  }

  /** The next interval starts a part of its own. */
  lemma {:induction false} MergeAppends(sorted: seq<Interval>, k: nat, out: seq<Interval>)
    requires Ascending(sorted) && Merging(sorted, k, out) && k < |sorted| && sorted[k].start > out[|out| - 1].end + 1
    ensures Merging(sorted, k + 1, out + [sorted[k]])
  {
    var last, next := out[|out| - 1], sorted[k];
    var longer := out + [next];
    AscendingPair(sorted, k - 1, k);
    AppendSeparated(out, next);
    if Absorbed(sorted, next) {
      var j :| 0 <= j < |sorted| && sorted[j].start < next.start <= sorted[j].end + 1;
      if j > k { AscendingPair(sorted, k, j); }
      assert false;
    }
    hide Ascending, Separated, Absorbed;
    assert sorted[k].end == longer[|longer| - 1].end;
    assert NoneReversed(longer) <==> NoneReversed(out) && !Reversed(next) by {
      assert forall m | 0 <= m < |out| :: longer[m] == out[m];
      assert longer[|out|] == next;
    }
  }

  lemma {:induction false} MergeBegins(sorted: seq<Interval>)
    requires Ascending(sorted) && sorted != []
    ensures Merging(sorted, 1, [sorted[0]])
  {
    if Absorbed(sorted, sorted[0]) {
      var j :| 0 <= j < |sorted| && sorted[j].start < sorted[0].start <= sorted[j].end + 1;
      AscendingPair(sorted, 0, j);
      assert false;
    }
  }

  /**
   * merge_intervals: the merged list covers exactly the same lines and keeps its parts apart, for all inputs; it
   * is free of negative lengths exactly when every reversed input interval is absorbed by an earlier one.
   */
  method MergeIntervals(ivs: seq<Interval>) returns (out: seq<Interval>)
    ensures Union(out) == Union(ivs) && Separated(out)
    ensures NoneReversed(out) <==> ReversedAreAbsorbed(ivs)
    ensures out == [] <==> ivs == []
  {
    hide Lines, Union, Ascending, Sorted, Merging, Absorbed;
    SortedUnion(ivs);
    SortedAscending(ivs);
    SortedAbsorbs(ivs);
    if ivs == [] { return []; }
    var sorted := Sorted(ivs);
    out := [sorted[0]];
    assert sorted[..1] == out;
    MergeBegins(sorted);
    for k := 1 to |sorted|
      invariant out != [] && Union(out) == Union(sorted[..k]) && Merging(sorted, k, out)
    {
      var next, last := sorted[k], out[|out| - 1];
      LastStart(sorted, k, out);
      assert sorted[..k + 1] == sorted[..k] + [next];
      UnionLast(sorted[..k], next);
      if next.start <= last.end + 1 {
        var front, merged := out[..|out| - 1], Interval(last.start, Max(last.end, next.end));
        assert out == front + [last];
        UnionLast(front, last);
        TouchingLines(last, next);
        UnionLast(front, merged);
        MergeExtends(sorted, k, out);
        out := front + [merged];
      } else {
        UnionLast(out, next);
        MergeAppends(sorted, k, out);
        out := out + [next];
      }
    }
    assert sorted[..|sorted|] == sorted;
    MergeEnds(sorted, out);
  }

  lemma {:induction false} LastStart(sorted: seq<Interval>, k: nat, out: seq<Interval>)
    requires Ascending(sorted) && Merging(sorted, k, out) && k < |sorted|
    ensures out[|out| - 1].start <= sorted[k].start
  {
    AscendingPair(sorted, k - 1, k);
  }

  lemma {:induction false} MergeEnds(sorted: seq<Interval>, out: seq<Interval>)
    requires Merging(sorted, |sorted|, out)
    ensures Separated(out) && (NoneReversed(out) <==> ReversedAreAbsorbed(sorted))
  {
  }

  lemma {:induction false} SortedAbsorbs(s: seq<Interval>)
    ensures ReversedAreAbsorbed(s) <==> ReversedAreAbsorbed(Sorted(s))
    ensures |Sorted(s)| == |s|
  {
    SortedAscending(s);
    hide Sorted;
    assert |multiset(Sorted(s))| == |multiset(s)|;
    if ReversedAreAbsorbed(s) { SameMembersAbsorb(s, Sorted(s)); }
    if ReversedAreAbsorbed(Sorted(s)) { SameMembersAbsorb(Sorted(s), s); }
  }

  lemma {:induction false} SameMembersAbsorb(a: seq<Interval>, b: seq<Interval>)
    requires multiset(a) == multiset(b) && ReversedAreAbsorbed(a)
    ensures ReversedAreAbsorbed(b)
  {
    forall i | 0 <= i < |b| && Reversed(b[i])
      ensures Absorbed(b, b[i])
    {
      assert b[i] in multiset(a);
      var k :| 0 <= k < |a| && a[k] == b[i];
      assert Absorbed(a, a[k]);
      var j :| 0 <= j < |a| && a[j].start < a[k].start <= a[j].end + 1;
      assert a[j] in multiset(b);
      var l :| 0 <= l < |b| && b[l] == a[j];
    }
  }

  lemma {:induction false} ReplaceLast(out: seq<Interval>, end: int)
    requires out != [] && Separated(out)
    ensures Separated(out[..|out| - 1] + [Interval(out[|out| - 1].start, end)])
  {
    var new_ := out[..|out| - 1] + [Interval(out[|out| - 1].start, end)];
    forall k | 0 <= k < |new_| - 1
      ensures SeparatedAt(new_, k)
    {
      assert SeparatedAt(out, k);
    }
  }

  lemma {:induction false} AppendSeparated(out: seq<Interval>, next: Interval)
    requires out != [] && Separated(out) && out[|out| - 1].end + 1 < next.start && out[|out| - 1].start <= next.start
    ensures Separated(out + [next])
  {
    var longer := out + [next];
    forall k | 0 <= k < |longer| - 1
      ensures SeparatedAt(longer, k)
    {
      if k + 1 < |out| { assert SeparatedAt(out, k); }
    }
  }

  // ---------------------------------------------------------------- counting

  lemma {:induction false} RangeSize(start: int, end: int)
    ensures |Range(start, end)| == if start <= end then end - start + 1 else 0
    decreases end - start + 1
  {
    if start <= end {
      RangeSize(start, end - 1);
      RangeMembers(start, end - 1, end);
    }
  }

  /** Everything covered before part k lies below it. */
  lemma {:induction false} EarlierIsBelow(out: seq<Interval>, k: nat, x: int)
    requires Separated(out) && k < |out| && x in Union(out[..k])
    ensures x + 1 < out[k].start
  {
    hide Lines;
    assert out[..k][..k - 1] == out[..k - 1];
    assert SeparatedAt(out, k - 1);
    if x in Lines(out[k - 1]) {
      RangeMembers(out[k - 1].start, out[k - 1].end, x);
      assert x <= out[k - 1].end by { LinesBound(out[k - 1], x); }
    } else {
      EarlierIsBelow(out, k - 1, x);
    }
  }

  lemma {:induction false} LinesBound(i: Interval, x: int)
    ensures x in Lines(i) <==> i.start <= x <= i.end
  {
    RangeMembers(i.start, i.end, x);
  }

  /** The summed length of separated parts never exceeds the number of lines, and equals it without reversed parts. */
  lemma {:induction false} PrefixCount(out: seq<Interval>, k: nat)
    requires Separated(out) && k <= |out|
    ensures TotalLength(out[..k]) <= |Union(out[..k])|
    ensures TotalLength(out[..k]) == |Union(out[..k])| <==> NoneReversed(out[..k])
  {
    hide Union, TotalLength, Lines, Separated;
    if k == 0 {
      EmptyCounts();
      assert out[..k] == [];
    } else {
      PrefixCount(out, k - 1);
      var front, last := out[..k - 1], out[k - 1];
      assert out[..k] == front + [last];
      LastCounts(out, k);
      NoneReversedLast(front, last);
      LinesSize(last);
    }
  }

  lemma {:induction false} EmptyCounts()
    ensures TotalLength([]) == 0 && Union([]) == {}
  {
  }

  lemma {:induction false} NoneReversedLast(front: seq<Interval>, last: Interval)
    ensures NoneReversed(front + [last]) <==> NoneReversed(front) && !Reversed(last)
  {
    hide Reversed;
    var all := front + [last];
    assert all[|front|] == last && forall i | 0 <= i < |front| :: all[i] == front[i];
  }

  /** The last part adds its length to the sum, and its own lines to the union. */
  lemma {:induction false} LastCounts(out: seq<Interval>, k: nat)
    requires Separated(out) && 0 < k <= |out|
    ensures TotalLength(out[..k - 1] + [out[k - 1]]) == TotalLength(out[..k - 1]) + Length(out[k - 1])
    ensures |Union(out[..k - 1] + [out[k - 1]])| == |Union(out[..k - 1])| + |Lines(out[k - 1])|
  {
    var front, last := out[..k - 1], out[k - 1];
    assert (front + [last])[..k - 1] == front;
    UnionLast(front, last);
    hide Union, Lines, TotalLength;
    forall x | x in Union(front)
      ensures x !in Lines(last)
    {
      EarlierIsBelow(out, k - 1, x);
      LinesBound(last, x);
    }
    assert Union(front) !! Lines(last);
  }

  /** covered_lines is the number of distinct lines read, exactly when reversed inputs are absorbed. */
  lemma {:induction false} CoveredLinesMeaning(ivs: seq<Interval>, merged: seq<Interval>)
    requires Union(merged) == Union(ivs) && Separated(merged) && (NoneReversed(merged) <==> ReversedAreAbsorbed(ivs))
    ensures TotalLength(merged) == |Union(ivs)| <==> ReversedAreAbsorbed(ivs)
  {
    PrefixCount(merged, |merged|);
    assert merged[..|merged|] == merged;
  }

  lemma {:induction false} UnionWithin(out: seq<Interval>, x: int)
    requires Separated(out) && NoneReversed(out) && out != [] && x in Union(out)
    ensures out[0].start <= x <= out[|out| - 1].end
    decreases |out|
  {
    var n := |out| - 1;
    var last := out[n];
    LinesBound(last, x);
    StartsBelow(out, n);
    if x !in Lines(last) {
      EarlierIsBelow(out, n, x);
      FrontSeparated(out);
      assert out[..n] != [];
      UnionWithin(out[..n], x);
    }
  }

  lemma {:induction false} StartsBelow(out: seq<Interval>, k: nat)
    requires Separated(out) && k < |out|
    ensures out[0].start <= out[k].start
  {
    if k > 0 {
      StartsBelow(out, k - 1);
      assert SeparatedAt(out, k - 1);
    }
  }

  lemma {:induction false} FrontSeparated(out: seq<Interval>)
    requires Separated(out) && out != []
    ensures Separated(out[..|out| - 1])
  {
    var front := out[..|out| - 1];
    forall k | 0 <= k < |front| - 1
      ensures SeparatedAt(front, k)
    {
      assert SeparatedAt(out, k);
    }
  }

  /**
   * The derived statistics, whenever reversed intervals are absorbed: gap_lines counts the lines of the bounding box
   * nobody read; extra_lines counts the lines read outside the initial interval, and an absorbed reversed initial
   * interval, which covers no line, raises it further by the lines between its swapped bounds.
   */
  lemma {:induction false} CoverageStatistics(initial: Interval, ivs: seq<Interval>, merged: seq<Interval>)
    requires initial in ivs && merged != [] && ReversedAreAbsorbed(ivs)
    requires Union(merged) == Union(ivs) && Separated(merged) && (NoneReversed(merged) <==> ReversedAreAbsorbed(ivs))
    ensures var covered, span := TotalLength(merged), merged[|merged| - 1].end - merged[0].start + 1;
            && covered == |Union(ivs)|
            && span - covered == |Range(merged[0].start, merged[|merged| - 1].end) - Union(ivs)|
            && Max(0, covered - Length(initial)) == |Union(ivs) - Lines(initial)| + Max(0, -Length(initial))
  {
    PrefixCount(merged, |merged|);
    assert merged[..|merged|] == merged;
    var box, all := Range(merged[0].start, merged[|merged| - 1].end), Union(ivs);
    forall x | x in all
      ensures x in box
    {
      UnionWithin(merged, x);
      RangeMembers(merged[0].start, merged[|merged| - 1].end, x);
    }
    var i :| 0 <= i < |ivs| && ivs[i] == initial;
    forall x | x in Lines(initial)
      ensures x in all
    {
      assert x in Lines(ivs[i]);
      UnionMembers(ivs, x);
    }
    hide Union, Range, Lines, TotalLength, ReversedAreAbsorbed;
    RangeSize(merged[0].start, merged[|merged| - 1].end);
    StartsBelow(merged, |merged| - 1);
    CardinalityOfDifference(box, all);
    CardinalityOfDifference(all, Lines(initial));
    LinesSize(initial);
  }

  /**
   * The selector ":10-5" gives one reversed interval, absorbed by nothing: it reads no line, yet is not counted as
   * none.
   */
  lemma {:induction false} ReversedSelectorMiscounts(merged: seq<Interval>)
    requires var ivs := [Interval(10, 5)];
             Union(merged) == Union(ivs) && Separated(merged) && (NoneReversed(merged) <==> ReversedAreAbsorbed(ivs))
    ensures Union([Interval(10, 5)]) == {} && TotalLength(merged) < 0
    ensures TotalLength([Interval(10, 5)]) == -4
  {
    var ivs := [Interval(10, 5)];
    assert Reversed(ivs[0]) && !Absorbed(ivs, ivs[0]);
    assert ivs[..0] == [];
    assert Union(ivs) == Union([]) + Range(10, 5);
    PrefixCount(merged, |merged|);
    assert merged[..|merged|] == merged;
  }

  lemma {:induction false} LinesSize(i: Interval)
    ensures |Lines(i)| == Max(0, Length(i))
  {
    RangeSize(i.start, i.end);
  }

  lemma {:induction false} CardinalityOfDifference(a: set<int>, b: set<int>)
    requires b <= a
    ensures |a - b| == |a| - |b|
  {
    assert a == (a - b) + b;
  }
}
