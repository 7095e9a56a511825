/** What release reproducibility rests on: reader and writer undo each other, and the canonical form is unique. */
module TarCanonical {
  import opened Common
  import opened TarText
  import opened TarFormat
  import opened TarReader
  import opened TarWriter

  // ---------------------------------------------------------------- reading one canonical member back

  /** Cutting a block at its checksum field. */
  lemma {:induction false} CutBlock(front: seq<byte>, sum: seq<byte>, back: seq<byte>)
    requires |front| == 148 && |sum| == 8 && |back| == 356
    ensures var h := front + sum + back;
            && h[..148] == front && h[148..156] == sum && h[156..] == back && h[156] == back[0]
            && h[0..100] == front[0..100] && h[100..108] == front[100..108] && h[124..136] == front[124..136]
            && h[345..500] == back[189..344]
  {
  }

  /** Where each field of a printed header lies. */
  lemma {:induction false} BlockSlices(h: Header)
    requires HeaderFits(h)
    ensures var b := BlockBytes(h);
            && b[0..100] == PadRight(h.path.name, 100)
            && b[100..108] == OctalField(h.mode, 8)
            && b[124..136] == OctalField(h.size, 12)
            && b[..148] == HeaderFront(h)
            && b[148..156] == PadZeros(OctalText(ChecksumOf(h)), 6) + [0, 32]
            && b[156..] == HeaderBack(h)
            && b[156] == h.kind
            && b[345..500] == PadRight(h.path.prefix, 155)
  {
    hide HeaderFront, HeaderBack, OctalText, ChecksumOf, OctalField, PadRight;
    ChecksumFits(h);
    FrontSlices(h);
    BackSlices(h);
    var sum := PadZeros(OctalText(ChecksumOf(h)), 6) + [0, 32];
    assert BlockBytes(h) == HeaderFront(h) + sum + HeaderBack(h);
    CutBlock(HeaderFront(h), sum, HeaderBack(h));
  }

  lemma {:induction false} FrontSlices(h: Header)
    requires HeaderFits(h)
    ensures var f := HeaderFront(h);
            && f[0..100] == PadRight(h.path.name, 100)
            && f[100..108] == OctalField(h.mode, 8)
            && f[124..136] == OctalField(h.size, 12)
  {
    hide OctalText;
  }

  lemma {:induction false} BackSlices(h: Header)
    requires HeaderFits(h)
    ensures HeaderBack(h)[0] == h.kind
    ensures HeaderBack(h)[189..344] == PadRight(h.path.prefix, 155)
  {
    hide OctalText;
  }

  /** The same for a canonical header. */
  lemma {:induction false} HeaderSlices(e: TarEntry)
    requires Printable(e)
    ensures var h, u := HeaderBytes(e), SplitUstarPath(e.path).value;
            && h[0..100] == PadRight(u.name, 100)
            && FitsField(e.mode % 512, 8) && h[100..108] == OctalField(e.mode % 512, 8)
            && h[124..136] == OctalField(SizeOf(e), 12)
            && h[156] == TypeByte(e.kind)
            && h[345..500] == PadRight(u.prefix, 155)
  {
    hide BlockBytes, OctalText, OctalField, PadRight, SplitUstarPath, SizeOf;
    BlockSlices(HeaderOf(e));
  }

  lemma {:induction false} OctalFieldReadsBack(n: nat, width: nat)
    requires FitsField(n, width)
    ensures ParseOctal(OctalField(n, width)) == Some(n)
  {
    PaddedTextValue(n, width - 1);
    ParseOctalOfDigits(PadZeros(OctalText(n), width - 1), [0]);
  }

  lemma {:induction false} PaddedTextValue(n: nat, width: nat)
    ensures var p := PadZeros(OctalText(n), width); p != [] && AllOctal(p) && OctalValue(p) == n
  {
    OctalTextValue(n);
    if |OctalText(n)| < width {
      PaddingKeepsValue(OctalText(n), width - |OctalText(n)|);
    }
  }

  /** The checksum the writer stored is the one the reader computes. */
  lemma {:induction false} ChecksumReadsBack(h: Header)
    requires HeaderFits(h)
    ensures ParseOctal(BlockBytes(h)[148..156]) == Some(HeaderSum(BlockBytes(h)))
  {
    hide BlockBytes, HeaderFront, HeaderBack, OctalText, Sum, ParseOctal, PadZeros;
    BlockSlices(h);
    PaddedTextValue(ChecksumOf(h), 6);
    ParseOctalOfDigits(PadZeros(OctalText(ChecksumOf(h)), 6), [0, 32]);
  }

  /** A printed header is read back, its path fields decoded. */
  lemma {:induction false} ReadBlock(h: Header)
    requires HeaderFits(h) && NulFree(h.path.name) && NulFree(h.path.prefix)
    requires ValidUtf8(h.path.name) && ValidUtf8(h.path.prefix)
    ensures ReadFixed(BlockBytes(h)) == Ok(Fixed(DropBom(h.path.name), DropBom(h.path.prefix), h.size, h.kind))
  {
    hide BlockBytes, HeaderSum, ParseOctal, UntilNul, ValidUtf8, OctalField, NulFree;
    BlockSlices(h);
    ChecksumReadsBack(h);
    OctalFieldReadsBack(h.size, 12);
    UntilNulOfPadded(h.path.name, 100 - |h.path.name|);
    UntilNulOfPadded(h.path.prefix, 155 - |h.path.prefix|);
  }

  lemma {:induction false} BlockIsNotZero(h: Header)
    requires HeaderFits(h)
    ensures !AllZero(BlockBytes(h))
  {
    BlockSlices(h);
    hide BlockBytes;
    ChecksumFits(h);
    PaddedTextValue(ChecksumOf(h), 6);
    assert BlockBytes(h)[148..156][0] != 0;
  }

  // A path the reader may produce: safe and well-formed UTF-8.
  predicate GoodPath(path: seq<byte>) { SafePath(path) && ValidUtf8(path) }

  /** The name part of a split path carries no byte-order mark in front. */
  predicate BomFree(path: seq<byte>) {
    SplitUstarPath(path).Ok? ==> !StartsWithBom(SplitUstarPath(path).value.name)
  }

  function DropBom(s: seq<byte>): seq<byte> { if StartsWithBom(s) then s[3..] else s }

  /** The path the reader sees in a canonical header for `path`. */
  function ReadBackPath(path: seq<byte>): seq<byte>
    requires SplitUstarPath(path).Ok?
  {
    var u := SplitUstarPath(path).value;
    JoinPath(u.prefix, DropBom(u.name))
  }

  lemma {:induction false} SafePathShape(path: seq<byte>)
    requires SafePath(path)
    ensures |path| >= 7 && path[0] == 112 && NulFree(path)
  {
    hide SafeSegments;
    var n := WithoutTrailingSlash(path);
    assert n[..7] == PACKAGE by {
      assert n != PACKAGE ==> n[..8] == PACKAGE + [SLASH] && n[..8][..7] == n[..7];
    }
    assert n[0] == n[..7][0];
    assert path[..|n|] == n;
    forall i | 0 <= i < |path| ensures path[i] != 0 {
      assert i < |n| ==> path[i] == n[i];
    }
  }

  lemma {:induction false} SplitParts(path: seq<byte>)
    requires GoodPath(path) && SplitUstarPath(path).Ok?
    ensures var u := SplitUstarPath(path).value;
            && NulFree(u.name) && NulFree(u.prefix)
            && Decode(u.name) == Some(DropBom(u.name)) && Decode(u.prefix) == Some(u.prefix)
            && (u.prefix == [] ==> !StartsWithBom(u.name))
  {
    SafePathShape(path);
    hide SafePath;
    var u := SplitUstarPath(path).value;
    BomFirstByte(u.name);
    BomFirstByte(u.prefix);
    if u.prefix == [] {
      assert u.name == path;
    } else {
      assert path == u.prefix + [SLASH] + u.name;
      assert u.prefix[0] == path[0];
      AsciiSplitsUtf8(u.prefix, SLASH, u.name);
    }
  }

  lemma {:induction false} BomFirstByte(s: seq<byte>)
    ensures StartsWithBom(s) ==> s[0] == 0xEF
  {
    if StartsWithBom(s) { assert s[0] == s[..3][0]; }
  }

  lemma {:induction false} ReadFixedCanonical(e: TarEntry)
    requires Printable(e) && GoodPath(e.path)
    ensures var u := SplitUstarPath(e.path).value;
            ReadFixed(HeaderBytes(e)) == Ok(Fixed(DropBom(u.name), u.prefix, SizeOf(e), TypeByte(e.kind)))
  {
    hide BlockBytes, SplitUstarPath, NulFree, SizeOf, GoodPath, ValidUtf8, OctalText, FitsField;
    SplitParts(e.path);
    ReadBlock(HeaderOf(e));
  }

  /** Reading a canonical member gives the entry back, up to a byte-order mark lost from the split name. */
  lemma {:induction false} ReadCanonicalMember(e: TarEntry, rest: seq<byte>, limits: Limits)
    requires Printable(e) && WellFormedEntry(e, limits)
    ensures var path := ReadBackPath(e.path);
            ReadMember(EntryBytes(e) + rest, None, limits)
            == if SafePath(path) then Ok(Plain(e.(path := path), BlockSize(e))) else Err(UnsafePath)
  {
    hide HeaderBytes, ReadFixed, ParseOctal, SafePath, OctalField, SplitUstarPath, ValidUtf8, OctalText;
    var tar, h := EntryBytes(e) + rest, HeaderBytes(e);
    assert tar[..512] == h;
    assert tar[512..512 + SizeOf(e)] == Payload(e)[..SizeOf(e)];
    ReadFixedCanonical(e);
    HeaderSlices(e);
    OctalFieldReadsBack(e.mode % 512, 8);
  }

  lemma {:induction false} CanonicalHeaderIsNotZero(e: TarEntry)
    requires Printable(e)
    ensures !AllZero(HeaderBytes(e))
  {
    hide BlockBytes, AllZero;
    BlockIsNotZero(HeaderOf(e));
  }

  lemma {:induction false} StreamStep(e: TarEntry, rest: seq<byte>, entries: seq<TarEntry>, limits: Limits)
    requires Printable(e) && WellFormedEntry(e, limits)
    ensures var path := ReadBackPath(e.path);
            var e' := e.(path := path);
            ParseStream(EntryBytes(e) + rest, None, entries, limits)
            == if !SafePath(path) then Err(UnsafePath)
               else if Admit(entries, e', limits).Err? then Err(Admit(entries, e', limits).error)
               else ParseStream(rest, None, entries + [e'], limits)
  {
    hide ReadMember, HeaderBytes, SafePath, Admit, ReadBackPath, Payload, Printable, SplitUstarPath, OctalText;
    ReadCanonicalMember(e, rest, limits);
    CanonicalHeaderIsNotZero(e);
    var tar := EntryBytes(e) + rest;
    assert tar[..512] == HeaderBytes(e);
    assert tar[BlockSize(e)..] == rest;
  }

  // ---------------------------------------------------------------- reading a whole canonical archive back

  predicate AllBomFree(entries: seq<TarEntry>) { forall i | 0 <= i < |entries| :: BomFree(entries[i].path) }

  predicate AllGood(entries: seq<TarEntry>, limits: Limits) {
    forall i | 0 <= i < |entries| :: WellFormedEntry(entries[i], limits)
  }

  /** What the reader makes of the canonical form of `entries`: every path read back. */
  function ReadBack(entries: seq<TarEntry>): (r: seq<TarEntry>)
    requires PrintOrdered(entries).Ok?
    ensures |r| == |entries|
  {
    if entries == [] then []
    else [entries[0].(path := ReadBackPath(entries[0].path))] + ReadBack(entries[1..])
  }

  lemma {:induction false} PrintOrderedHead(entries: seq<TarEntry>, end: seq<byte>)
    requires entries != [] && PrintOrdered(entries).Ok?
    ensures Printable(entries[0]) && PrintOrdered(entries[1..]).Ok?
    ensures PrintOrdered(entries).value == EntryBytes(entries[0]) + PrintOrdered(entries[1..]).value
    ensures PrintOrdered(entries).value + end == EntryBytes(entries[0]) + (PrintOrdered(entries[1..]).value + end)
  {
    hide EntryBytes, SplitUstarPath, FitsField;
  }

  lemma {:induction false} ReadBackHead(entries: seq<TarEntry>)
    requires entries != [] && PrintOrdered(entries).Ok?
    ensures SplitUstarPath(entries[0].path).Ok? && PrintOrdered(entries[1..]).Ok?
    ensures ReadBack(entries) == [entries[0].(path := ReadBackPath(entries[0].path))] + ReadBack(entries[1..])
  {
    hide EntryBytes, SplitUstarPath, FitsField, ReadBackPath;
  }

  lemma {:induction false} StreamReadsBack(entries: seq<TarEntry>, before: seq<TarEntry>, limits: Limits)
    requires PrintOrdered(entries).Ok? && AllGood(entries, limits)
    ensures var r := ParseStream(PrintOrdered(entries).value + Repeat(0, 1024), None, before, limits);
            r.Ok? ==> r.value == before + ReadBack(entries)
    decreases |entries|
  {
    hide SafePath, Admit, ReadBackPath, EntryBytes, WellFormedEntry, ParseStream, PrintOrdered, SplitUstarPath,
      FitsField;
    if entries == [] {
      PrintNothing();
      TerminatorEnds(before, limits);
    } else {
      PrintOrderedHead(entries, Repeat(0, 1024));
      var e, rest := entries[0], PrintOrdered(entries[1..]).value + Repeat(0, 1024);
      StreamStep(e, rest, before, limits);
      var e' := e.(path := ReadBackPath(e.path));
      assert ReadBack(entries) == [e'] + ReadBack(entries[1..]);
      hide ReadBack;
      assert before + [e'] + ReadBack(entries[1..]) == before + ReadBack(entries);
      StreamReadsBack(entries[1..], before + [e'], limits);
    }
  }

  lemma {:induction false} TerminatorEnds(entries: seq<TarEntry>, limits: Limits)
    ensures ParseStream([] + Repeat(0, 1024), None, entries, limits) == Ok(entries)
  {
    assert [] + Repeat(0, 1024) == Repeat(0, 1024);
  }

  lemma {:induction false} BomFreeReadsBack(path: seq<byte>)
    requires SplitUstarPath(path).Ok?
    ensures BomFree(path) ==> ReadBackPath(path) == path
    ensures GoodPath(path) && !BomFree(path) ==> |ReadBackPath(path)| == |path| - 3
  {
    if GoodPath(path) { SplitParts(path); }
    hide GoodPath, Decode;
  }

  /** With no byte-order mark in the way, the canonical form parses back to exactly its entries. */
  lemma {:induction false} StreamRoundTrip(entries: seq<TarEntry>, before: seq<TarEntry>, limits: Limits)
    requires PrintOrdered(entries).Ok? && AllBomFree(entries) && WellFormed(before + entries, limits)
    ensures ParseStream(PrintOrdered(entries).value + Repeat(0, 1024), None, before, limits) == Ok(before + entries)
    decreases |entries|
  {
    hide SafePath, Admit, ReadBackPath, EntryBytes, BomFree, SplitUstarPath, ValidUtf8, SafeMode, ParseStream,
      PrintOrdered;
    if entries == [] {
      PrintNothing();
      assert before + entries == before;
      TerminatorEnds(before, limits);
    } else {
      PrintOrderedHead(entries, Repeat(0, 1024));
      var e, rest := entries[0], PrintOrdered(entries[1..]).value + Repeat(0, 1024);
      assert (before + entries)[|before|] == e;
      StreamStep(e, rest, before, limits);
      BomFreeReadsBack(e.path);
      assert BomFree(entries[0].path);
      assert before + entries == before + [e] + entries[1..];
      PrefixAdmits(before, e, entries[1..], limits);
      assert AllBomFree(entries[1..]);
      StreamRoundTrip(entries[1..], before + [e], limits);
    }
  }

  lemma {:induction false} PrefixAdmits(before: seq<TarEntry>, e: TarEntry, after: seq<TarEntry>, limits: Limits)
    requires WellFormed(before + [e] + after, limits)
    ensures Admit(before, e, limits).Ok?
  {
    var all := before + [e] + after;
    forall i | 0 <= i < |before|
      ensures before[i].path != e.path
    {
      assert all[i].path != all[|before|].path;
    }
    PathSetMembers(before, e.path);
    TotalConcat(FileUnit, before + [e], after);
    TotalConcat(SizeOf, before + [e], after);
    assert (before + [e])[..|before|] == before;
  }

  lemma {:induction false} TotalConcat(weight: TarEntry -> nat, a: seq<TarEntry>, b: seq<TarEntry>)
    ensures Total(weight, a + b) == Total(weight, a) + Total(weight, b)
  {
    if b == [] {
      assert a + b == a;
    } else {
      assert (a + b)[..|a + b| - 1] == a + b[..|b| - 1];
      TotalConcat(weight, a, b[..|b| - 1]);
    }
  }

  lemma {:induction false} ConsTotal(weight: TarEntry -> nat, e: TarEntry, rest: seq<TarEntry>)
    ensures Total(weight, [e] + rest) == weight(e) + Total(weight, rest)
  {
    assert Total(weight, [e]) == weight(e) by { assert [e][..0] == []; }
    hide Total;
    TotalConcat(weight, [e], rest);
  }

  // ---------------------------------------------------------------- permutations of entries

  lemma {:induction false} PrintOrderedIsPrintable(entries: seq<TarEntry>, k: nat)
    requires PrintOrdered(entries).Ok? && k < |entries|
    ensures Printable(entries[k])
  {
    hide EntryBytes, SplitUstarPath, FitsField;
    if k > 0 { PrintOrderedIsPrintable(entries[1..], k - 1); }
  }

  function Without(s: seq<TarEntry>, i: nat): (r: seq<TarEntry>)
    requires i < |s|
    ensures |r| == |s| - 1
  {
    s[..i] + s[i + 1..]
  }

  lemma {:induction false} MultisetRemove(s: seq<TarEntry>, i: nat)
    requires i < |s|
    ensures multiset(Without(s, i)) == multiset(s) - multiset{s[i]}
  {
    assert s == s[..i] + [s[i]] + s[i + 1..];
  }

  lemma {:induction false} TotalRemove(weight: TarEntry -> nat, s: seq<TarEntry>, i: nat)
    requires i < |s|
    ensures Total(weight, s) == Total(weight, Without(s, i)) + weight(s[i])
  {
    var a, x, b := s[..i], s[i], s[i + 1..];
    assert Total(weight, [x]) == weight(x) by { assert [x][..0] == []; }
    hide Total;
    assert s == a + ([x] + b);
    TotalConcat(weight, a, [x] + b);
    TotalConcat(weight, [x], b);
    TotalConcat(weight, a, b);
  }

  lemma {:induction false} TotalPermutation(weight: TarEntry -> nat, a: seq<TarEntry>, b: seq<TarEntry>)
    requires multiset(a) == multiset(b)
    ensures Total(weight, a) == Total(weight, b)
    decreases |a|
  {
    hide Total, Without;
    assert |a| == |multiset(a)| == |multiset(b)| == |b|;
    if a == [] {
      assert b == [];
    } else {
      assert a[0] in multiset(a);
      var i := IndexIn(b, a[0]);
      MultisetRemove(b, i);
      MultisetRemove(a, 0);
      TotalRemove(weight, a, 0);
      TotalRemove(weight, b, i);
      TotalPermutation(weight, Without(a, 0), Without(b, i));
    }
  }

  lemma {:induction false} IndexIn(s: seq<TarEntry>, e: TarEntry) returns (i: nat)
    requires e in multiset(s)
    ensures i < |s| && s[i] == e
  {
    i :| 0 <= i < |s| && s[i] == e;
  }

  lemma {:induction false} CountTwice(s: seq<TarEntry>, i: nat, j: nat)
    requires i < j < |s|
    ensures s[i] == s[j] ==> multiset(s)[s[i]] >= 2
  {
    assert s == s[..i] + [s[i]] + s[i + 1..j] + [s[j]] + s[j + 1..];
  }

  lemma {:induction false} CountOnce(s: seq<TarEntry>, k: nat)
    requires k < |s| && DistinctPaths(s)
    ensures multiset(s)[s[k]] == 1
  {
    assert s == s[..k] + [s[k]] + s[k + 1..];
    assert s[k] !in s[..k] && s[k] !in s[k + 1..];
  }

  lemma {:induction false} DistinctPermutation(a: seq<TarEntry>, b: seq<TarEntry>)
    requires multiset(a) == multiset(b) && DistinctPaths(a)
    ensures DistinctPaths(b)
  {
    forall i, j | 0 <= i < j < |b|
      ensures b[i].path != b[j].path
    {
      assert b[i] in multiset(a) && b[j] in multiset(a);
      var k :| 0 <= k < |a| && a[k] == b[i];
      var l :| 0 <= l < |a| && a[l] == b[j];
      CountTwice(b, i, j);
      CountOnce(a, k);
      assert k != l;
    }
  }

  lemma {:induction false} WellFormedPermutation(a: seq<TarEntry>, b: seq<TarEntry>, limits: Limits)
    requires multiset(a) == multiset(b) && WellFormed(a, limits)
    ensures WellFormed(b, limits)
  {
    hide WellFormedEntry, Total;
    DistinctPermutation(a, b);
    TotalPermutation(FileUnit, a, b);
    TotalPermutation(SizeOf, a, b);
    forall i | 0 <= i < |b|
      ensures WellFormedEntry(b[i], limits)
    {
      assert b[i] in multiset(b) && b[i] in multiset(a);
      var k :| 0 <= k < |a| && a[k] == b[i];
    }
  }

  lemma {:induction false} SortedHeads(a: seq<TarEntry>, b: seq<TarEntry>)
    requires a != [] && multiset(a) == multiset(b) && DistinctPaths(a) && SortedByPath(a) && SortedByPath(b)
    ensures b != [] && a[0] == b[0]
  {
    hide PathLeq;
    assert a[0] in multiset(b);
    var i :| 0 <= i < |b| && b[i] == a[0];
    assert b[0] in multiset(a);
    var k :| 0 <= k < |a| && a[k] == b[0];
    PathLeqTotal(a[0].path, b[0].path);
    assert a[0].path == a[k].path;
  }

  lemma {:induction false} TailIsDistinct(s: seq<TarEntry>)
    requires s != [] && DistinctPaths(s)
    ensures DistinctPaths(s[1..])
  {
    forall i, j | 0 <= i < j < |s[1..]| ensures s[1..][i].path != s[1..][j].path {
      assert s[i + 1].path != s[j + 1].path;
    }
  }

  lemma {:induction false} TailIsSorted(s: seq<TarEntry>)
    requires s != [] && SortedByPath(s)
    ensures SortedByPath(s[1..])
  {
    hide PathLeq;
    forall i, j | 0 <= i < j < |s[1..]| ensures PathLeq(s[1..][i].path, s[1..][j].path) {
      assert PathLeq(s[i + 1].path, s[j + 1].path);
    }
  }

  lemma {:induction false} TailMultiset(s: seq<TarEntry>)
    requires s != []
    ensures multiset(s[1..]) == multiset(s) - multiset{s[0]}
  {
    assert s == [s[0]] + s[1..];
  }

  lemma {:induction false} SortedIsUnique(a: seq<TarEntry>, b: seq<TarEntry>)
    requires multiset(a) == multiset(b) && DistinctPaths(a) && SortedByPath(a) && SortedByPath(b)
    ensures a == b
  {
    hide SortedByPath, DistinctPaths;
    if a == [] {
      assert |multiset(b)| == 0;
    } else {
      SortedHeads(a, b);
      DistinctPermutation(a, b);
      TailIsDistinct(a);
      TailIsSorted(a);
      TailIsSorted(b);
      TailMultiset(a);
      TailMultiset(b);
      SortedIsUnique(a[1..], b[1..]);
      assert a == [a[0]] + a[1..] && b == [b[0]] + b[1..];
    }
  }

  // ---------------------------------------------------------------- the theorems

  lemma {:induction false} SortFacts(entries: seq<TarEntry>, limits: Limits)
    requires WellFormed(entries, limits)
    ensures WellFormed(SortEntries(entries), limits) && AllGood(SortEntries(entries), limits)
    ensures multiset(SortEntries(entries)) == multiset(entries)
    ensures SortEntries(SortEntries(entries)) == SortEntries(entries)
  {
    hide SortEntries, WellFormedEntry, PathLeq;
    var sorted := SortEntries(entries);
    SortEntriesSorts(entries);
    SortEntriesSorts(sorted);
    WellFormedPermutation(entries, sorted, limits);
    SortedIsUnique(sorted, SortEntries(sorted));
  }

  lemma {:induction false} BomFreePermutation(a: seq<TarEntry>, b: seq<TarEntry>)
    requires multiset(a) == multiset(b) && AllBomFree(a)
    ensures AllBomFree(b)
  {
    hide BomFree;
    forall i | 0 <= i < |b|
      ensures BomFree(b[i].path)
    {
      assert b[i] in multiset(a);
      var k :| 0 <= k < |a| && a[k] == b[i];
    }
  }

  function PathLength(e: TarEntry): nat { |e.path| }

  lemma {:induction false} ReadBackDiffers(entries: seq<TarEntry>, limits: Limits)
    requires PrintOrdered(entries).Ok? && AllGood(entries, limits)
    ensures Total(PathLength, ReadBack(entries)) <= Total(PathLength, entries)
    ensures !AllBomFree(entries) ==> Total(PathLength, ReadBack(entries)) < Total(PathLength, entries)
  {
    hide BomFree, ReadBackPath, WellFormedEntry, Total, PrintOrdered, SplitUstarPath;
    if entries == [] {
      assert ReadBack(entries) == entries;
    } else {
      ReadBackHead(entries);
      hide ReadBack;
      var e, rest := entries[0], entries[1..];
      var e' := e.(path := ReadBackPath(e.path));
      ReadBackDiffers(rest, limits);
      GoodEntryReadsBack(e, limits);
      ConsTotal(PathLength, e, rest);
      ConsTotal(PathLength, e', ReadBack(rest));
      assert entries == [e] + rest;
      if BomFree(e.path) && AllBomFree(rest) { BomFreeCons(e, rest); }
    }
  }

  lemma {:induction false} GoodEntryReadsBack(e: TarEntry, limits: Limits)
    requires WellFormedEntry(e, limits) && SplitUstarPath(e.path).Ok?
    ensures |ReadBackPath(e.path)| <= |e.path| && (!BomFree(e.path) ==> |ReadBackPath(e.path)| < |e.path|)
  {
    BomFreeReadsBack(e.path);
    hide SafePath, ValidUtf8, ReadBackPath, SplitUstarPath;
  }

  lemma {:induction false} BomFreeCons(e: TarEntry, rest: seq<TarEntry>)
    requires BomFree(e.path) && AllBomFree(rest)
    ensures AllBomFree([e] + rest)
  {
    hide BomFree;
  }

  /**
   * Tar round trip. For every list of well-formed entries that prints and fits the limits, parsing the printed
   * archive gives exactly those entries in path order, if and only if no split name begins with U+FEFF.
   */
  lemma {:induction false} RoundTrip(entries: seq<TarEntry>, limits: Limits)
    requires ValidLimits(limits) && WellFormed(entries, limits)
    requires Print(entries).Ok? && |Print(entries).value| <= limits.maxUnpackedBytes
    ensures Parse(Print(entries).value, limits) == Ok(SortEntries(entries)) <==> AllBomFree(entries)
  {
    hide SortEntries, PrintOrdered, WellFormed, AllBomFree, AllGood, ParseStream, Total;
    var sorted := SortEntries(entries);
    SortFacts(entries, limits);
    if AllBomFree(entries) {
      BomFreePermutation(entries, sorted);
      assert [] + sorted == sorted;
      StreamRoundTrip(sorted, [], limits);
    } else {
      if AllBomFree(sorted) { BomFreePermutation(sorted, entries); }
      StreamReadsBack(sorted, [], limits);
      ReadBackDiffers(sorted, limits);
      assert [] + ReadBack(sorted) == ReadBack(sorted);
    }
  }

  // ---------------------------------------------------------------- the canonical form is injective

  lemma {:induction false} HeaderDetermines(a: TarEntry, b: TarEntry)
    requires Printable(a) && Printable(b) && NulFree(a.path) && NulFree(b.path) && HeaderBytes(a) == HeaderBytes(b)
    ensures a.path == b.path && a.mode % 512 == b.mode % 512 && a.kind == b.kind && SizeOf(a) == SizeOf(b)
  {
    hide HeaderBytes, ParseOctal, UntilNul, OctalField, SplitUstarPath, OctalText, SizeOf;
    HeaderSlices(a);
    HeaderSlices(b);
    OctalFieldReadsBack(a.mode % 512, 8);
    OctalFieldReadsBack(b.mode % 512, 8);
    OctalFieldReadsBack(SizeOf(a), 12);
    OctalFieldReadsBack(SizeOf(b), 12);
    PaddedPathsDetermine(a.path, b.path);
  }

  lemma {:induction false} PaddedDetermines(a: seq<byte>, b: seq<byte>, width: nat)
    requires NulFree(a) && NulFree(b) && |a| <= width && |b| <= width && PadRight(a, width) == PadRight(b, width)
    ensures a == b
  {
    UntilNulOfPadded(a, width - |a|);
    UntilNulOfPadded(b, width - |b|);
  }

  lemma {:induction false} PaddedPathsDetermine(p: seq<byte>, q: seq<byte>)
    requires NulFree(p) && NulFree(q) && SplitUstarPath(p).Ok? && SplitUstarPath(q).Ok?
    requires PadRight(SplitUstarPath(p).value.name, 100) == PadRight(SplitUstarPath(q).value.name, 100)
    requires PadRight(SplitUstarPath(p).value.prefix, 155) == PadRight(SplitUstarPath(q).value.prefix, 155)
    ensures p == q
  {
    hide PadRight, SplitIndex;
    var u, v := SplitUstarPath(p).value, SplitUstarPath(q).value;
    assert p == JoinPath(u.prefix, u.name) && q == JoinPath(v.prefix, v.name);
    PaddedDetermines(u.name, v.name, 100);
    PaddedDetermines(u.prefix, v.prefix, 155);
  }

  /** Where the parts of a member lie in front of anything else. */
  lemma {:induction false} CutMember(e: TarEntry, rest: seq<byte>)
    requires Printable(e)
    ensures var s := EntryBytes(e) + rest;
            && |s| >= BlockSize(e) >= 512
            && s[..512] == HeaderBytes(e) && s[512..BlockSize(e)] == Payload(e) && s[BlockSize(e)..] == rest
  {
    hide HeaderBytes, Printable, Payload, SizeOf;
  }

  lemma {:induction false} EntryDetermines(a: TarEntry, b: TarEntry, restA: seq<byte>, restB: seq<byte>, limits: Limits)
    requires Printable(a) && Printable(b) && WellFormedEntry(a, limits) && WellFormedEntry(b, limits)
    requires EntryBytes(a) + restA == EntryBytes(b) + restB
    ensures a == b && restA == restB
  {
    hide HeaderBytes, SafePath, Printable, ValidUtf8, SafeMode, EntryBytes, Payload;
    SafePathShape(a.path);
    SafePathShape(b.path);
    SafeModeBound(a.mode);
    SafeModeBound(b.mode);
    CutMember(a, restA);
    CutMember(b, restB);
    HeaderDetermines(a, b);
    assert Payload(a)[..SizeOf(a)] == Payload(b)[..SizeOf(b)];
  }

  lemma {:induction false} SafeModeBound(mode: nat)
    ensures SafeMode(mode) ==> mode < 512
  {
  }

  /** Two different lists of well-formed entries never print to the same bytes. */
  lemma {:induction false} PrintOrderedInjective(a: seq<TarEntry>, b: seq<TarEntry>, limits: Limits)
    requires AllGood(a, limits) && AllGood(b, limits)
    requires PrintOrdered(a).Ok? && PrintOrdered(a) == PrintOrdered(b)
    ensures a == b
  {
    hide EntryBytes, WellFormedEntry;
    if a == [] || b == [] {
      EmptyPrint(a);
      EmptyPrint(b);
    } else {
      PrintOrderedIsPrintable(a, 0);
      PrintOrderedIsPrintable(b, 0);
      EntryDetermines(a[0], b[0], PrintOrdered(a[1..]).value, PrintOrdered(b[1..]).value, limits);
      PrintOrderedInjective(a[1..], b[1..], limits);
      assert a == [a[0]] + a[1..] && b == [b[0]] + b[1..];
    }
  }

  lemma {:induction false} EmptyPrint(a: seq<TarEntry>)
    requires PrintOrdered(a).Ok?
    ensures PrintOrdered(a).value == [] <==> a == []
  {
    if a != [] {
      PrintOrderedIsPrintable(a, 0);
      hide HeaderBytes;
      assert |EntryBytes(a[0])| >= 512;
    }
  }

  // ---------------------------------------------------------------- canonicalization

  function Canonicalize(tar: seq<byte>, limits: Limits): Result<seq<byte>, TarError> {
    var entries :- Parse(tar, limits);
    Print(entries)
  }

  lemma {:induction false} DropTerminator(a: seq<byte>, b: seq<byte>)
    requires a + Repeat(0, 1024) == b + Repeat(0, 1024)
    ensures a == b
  {
    assert (a + Repeat(0, 1024))[..|a|] == a;
    assert (b + Repeat(0, 1024))[..|a|] == b;
  }

  lemma {:induction false} PrintedLength(entries: seq<TarEntry>)
    requires PrintOrdered(entries).Ok?
    ensures |PrintOrdered(entries).value| == CanonicalSize(entries)
  {
    hide PrintOrdered, HeaderBytes, Printable, Payload, Total;
    if entries == [] {
      PrintNothing();
      AppendFacts([], TarEntry([], 0, File, []));
    } else {
      PrintOrderedHead(entries, []);
      PrintedLength(entries[1..]);
      TotalRemove(BlockSize, entries, 0);
      assert Without(entries, 0) == entries[1..];
    }
  }

  /** The canonical archive is never longer than its source, so the limits that admitted the source admit it. */
  lemma {:induction false} CanonicalIsNoLonger(tar: seq<byte>, limits: Limits)
    ensures Canonicalize(tar, limits).Ok? ==> |Canonicalize(tar, limits).value| <= |tar| <= limits.maxUnpackedBytes
  {
    hide ParseStream, SortEntries, PrintOrdered, Total, WellFormed;
    var r := Parse(tar, limits);
    if r.Ok? && Print(r.value).Ok? {
      ParseSound(tar, limits);
      SortFacts(r.value, limits);
      PrintedLength(SortEntries(r.value));
      TotalPermutation(BlockSize, r.value, SortEntries(r.value));
    }
  }

  /**
   * Idempotence. Canonicalizing a canonical archive gives the same bytes, if and only if no split name of the
   * archive begins with U+FEFF.
   */
  lemma {:induction false} CanonicalizeIdempotent(tar: seq<byte>, limits: Limits)
    requires Canonicalize(tar, limits).Ok?
    ensures var c := Canonicalize(tar, limits);
            Canonicalize(c.value, limits) == c <==> AllBomFree(Parse(tar, limits).value)
  {
    hide ParseStream, SortEntries, PrintOrdered, Total, WellFormed, AllBomFree, AllGood;
    var entries, c := Parse(tar, limits).value, Canonicalize(tar, limits).value;
    var sorted := SortEntries(entries);
    ParseSound(tar, limits);
    CanonicalIsNoLonger(tar, limits);
    SortFacts(entries, limits);
    RoundTrip(entries, limits);
    if AllBomFree(entries) {
      assert Print(sorted) == Ok(c);
    } else if Canonicalize(c, limits) == Ok(c) {
      var again := Parse(c, limits).value;
      ParseSound(c, limits);
      SortFacts(again, limits);
      DropTerminator(PrintOrdered(SortEntries(again)).value, PrintOrdered(sorted).value);
      PrintOrderedInjective(SortEntries(again), sorted, limits);
      if AllBomFree(sorted) { BomFreePermutation(sorted, entries); }
      StreamReadsBack(sorted, [], limits);
      assert [] + ReadBack(sorted) == ReadBack(sorted);
      ReadBackDiffers(sorted, limits);
      TotalPermutation(PathLength, again, sorted);
      assert false;
    }
  }

  /**
   * Representation independence, both ways: two accepted archives have the same canonical bytes exactly when
   * they hold the same entries, whatever their order and whichever path form each member used.
   */
  lemma {:induction false} CanonicalFormIsUnique(tar1: seq<byte>, tar2: seq<byte>, limits: Limits)
    requires Canonicalize(tar1, limits).Ok? && Canonicalize(tar2, limits).Ok?
    ensures Canonicalize(tar1, limits) == Canonicalize(tar2, limits)
            <==> multiset(Parse(tar1, limits).value) == multiset(Parse(tar2, limits).value)
  {
    hide ParseStream, SortEntries, PrintOrdered, WellFormed, AllGood, DistinctPaths, SortedByPath;
    var a, b := Parse(tar1, limits).value, Parse(tar2, limits).value;
    ParseSound(tar1, limits);
    ParseSound(tar2, limits);
    SortFacts(a, limits);
    SortFacts(b, limits);
    var sa, sb := SortEntries(a), SortEntries(b);
    if multiset(a) == multiset(b) {
      SortEntriesSorts(a);
      SortEntriesSorts(b);
      WellFormedIsDistinct(sa, limits);
      SortedIsUnique(sa, sb);
    }
    if Canonicalize(tar1, limits) == Canonicalize(tar2, limits) {
      DropTerminator(PrintOrdered(sa).value, PrintOrdered(sb).value);
      PrintOrderedInjective(sa, sb, limits);
    }
  }

  lemma {:induction false} WellFormedIsDistinct(entries: seq<TarEntry>, limits: Limits)
    requires WellFormed(entries, limits)
    ensures DistinctPaths(entries)
  {
  }

  // ---------------------------------------------------------------- damage is noticed

  lemma {:induction false} SumUpdate(s: seq<byte>, k: nat, b: byte)
    requires k < |s|
    ensures Sum(s[k := b]) == Sum(s) - s[k] + b
  {
    assert s == s[..k] + ([s[k]] + s[k + 1..]) && s[k := b] == s[..k] + ([b] + s[k + 1..]);
    assert Sum([s[k]]) == s[k] && Sum([b]) == b by { assert [s[k]][..0] == [] && [b][..0] == []; }
    hide Sum;
    SumConcat(s[..k], [s[k]] + s[k + 1..]);
    SumConcat([s[k]], s[k + 1..]);
    SumConcat(s[..k], [b] + s[k + 1..]);
    SumConcat([b], s[k + 1..]);
  }

  /** Changing any one byte of an accepted header outside its checksum field makes the reader reject it. */
  lemma {:induction false} DamagedHeaderRejected(header: seq<byte>, k: nat, b: byte)
    requires |header| == 512 && k < 512 && !(148 <= k < 156) && b != header[k] && ReadFixed(header).Ok?
    ensures ReadFixed(header[k := b]) == Err(ChecksumMismatch)
  {
    hide Sum, ParseOctal;
    var damaged := header[k := b];
    assert damaged[148..156] == header[148..156];
    if k < 148 {
      SumUpdate(header[..148], k, b);
      assert damaged[..148] == header[..148][k := b] && damaged[156..] == header[156..];
    } else {
      SumUpdate(header[156..], k - 156, b);
      assert damaged[156..] == header[156..][k - 156 := b] && damaged[..148] == header[..148];
    }
  }
}
