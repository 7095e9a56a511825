/** What inspection reports of a package tarball, and exactly when canonicalization keeps it. */
module TarInspection {
  import opened Common
  import opened TarText
  import opened TarFormat
  import opened TarReader
  import opened TarWriter
  import opened TarCanonical

  // ---------------------------------------------------------------- when a canonical archive reads back at all

  predicate AllSafe(entries: seq<TarEntry>) { forall i | 0 <= i < |entries| :: SafePath(entries[i].path) }

  lemma {:induction false} AdmitMeansNew(before: seq<TarEntry>, e: TarEntry, limits: Limits)
    requires DistinctPaths(before)
    requires FileCount(before + [e]) <= limits.maxFileCount && TotalBytes(before + [e]) <= limits.maxUnpackedBytes
    requires e.kind == Directory ==> e.data == []
    ensures Admit(before, e, limits).Ok? <==> DistinctPaths(before + [e])
  {
    PathSetMembers(before, e.path);
    AppendFacts(before, e);
    var all := before + [e];
    assert all[|before|] == e && forall i | 0 <= i < |before| :: all[i] == before[i];
  }

  lemma {:induction false} PrefixDistinct(a: seq<TarEntry>, b: seq<TarEntry>)
    requires DistinctPaths(a + b)
    ensures DistinctPaths(a)
  {
    forall i, j | 0 <= i < j < |a| ensures a[i].path != a[j].path {
      assert (a + b)[i] == a[i] && (a + b)[j] == a[j];
    }
  }

  /** Totals see sizes and kinds only, which reading back keeps. */
  lemma {:induction false} ReadBackTotals(entries: seq<TarEntry>)
    requires PrintOrdered(entries).Ok?
    ensures FileCount(ReadBack(entries)) == FileCount(entries) && TotalBytes(ReadBack(entries)) == TotalBytes(entries)
  {
    hide ReadBackPath, Total, PrintOrdered, SplitUstarPath;
    if entries == [] {
      assert ReadBack(entries) == entries;
    } else {
      ReadBackHead(entries);
      hide ReadBack;
      var e, rest := entries[0], entries[1..];
      var e' := e.(path := ReadBackPath(e.path));
      ReadBackTotals(rest);
      assert entries == [e] + rest;
      ConsTotal(FileUnit, e, rest);
      ConsTotal(SizeOf, e, rest);
      ConsTotal(FileUnit, e', ReadBack(rest));
      ConsTotal(SizeOf, e', ReadBack(rest));
    }
  }

  /** The canonical stream is accepted exactly when the paths read back safe and distinct. */
  lemma {:induction false} StreamAccepted(entries: seq<TarEntry>, before: seq<TarEntry>, limits: Limits)
    requires PrintOrdered(entries).Ok? && AllGood(entries, limits) && DistinctPaths(before)
    requires FileCount(before + ReadBack(entries)) <= limits.maxFileCount
    requires TotalBytes(before + ReadBack(entries)) <= limits.maxUnpackedBytes
    ensures ParseStream(PrintOrdered(entries).value + Repeat(0, 1024), None, before, limits).Ok?
            <==> AllSafe(ReadBack(entries)) && DistinctPaths(before + ReadBack(entries))
    decreases |entries|
  {
    hide SafePath, Admit, ReadBackPath, EntryBytes, ParseStream, PrintOrdered, SplitUstarPath, FitsField, Total,
      DistinctPaths, ValidUtf8;
    if entries == [] {
      PrintNothing();
      TerminatorEnds(before, limits);
      assert before + ReadBack(entries) == before;
    } else {
      PrintOrderedHead(entries, Repeat(0, 1024));
      var e, tail := entries[0], entries[1..];
      StreamStep(e, PrintOrdered(tail).value + Repeat(0, 1024), before, limits);
      var e' := e.(path := ReadBackPath(e.path));
      var rest := ReadBack(tail);
      assert ReadBack(entries) == [e'] + rest;
      hide ReadBack;
      assert before + ([e'] + rest) == before + [e'] + rest;
      assert AllSafe([e'] + rest) <==> SafePath(e'.path) && AllSafe(rest) by { SafeHead(e', rest); }
      TotalConcat(FileUnit, before + [e'], rest);
      TotalConcat(SizeOf, before + [e'], rest);
      AdmitMeansNew(before, e', limits);
      if DistinctPaths(before + [e']) {
        StreamAccepted(tail, before + [e'], limits);
      } else if DistinctPaths(before + [e'] + rest) {
        PrefixDistinct(before + [e'], rest);
      }
    }
  }

  lemma {:induction false} SafeHead(e: TarEntry, rest: seq<TarEntry>)
    ensures AllSafe([e] + rest) <==> SafePath(e.path) && AllSafe(rest)
  {
    hide SafePath;
    var all := [e] + rest;
    assert all[0] == e && forall i | 0 <= i < |rest| :: all[i + 1] == rest[i];
    if AllSafe(all) {
      forall i | 0 <= i < |rest| ensures SafePath(rest[i].path) { assert SafePath(all[i + 1].path); }
    }
  }

  // ---------------------------------------------------------------- the same condition on entries in any order

  predicate ReadsBackSafely(path: seq<byte>) { SplitUstarPath(path).Ok? && SafePath(ReadBackPath(path)) }

  predicate ReadApart(a: seq<byte>, b: seq<byte>) {
    SplitUstarPath(a).Ok? && SplitUstarPath(b).Ok? && ReadBackPath(a) != ReadBackPath(b)
  }

  /** Dropping one leading byte-order mark from each split name leaves every path safe and no two equal. */
  predicate StaysReadable(entries: seq<TarEntry>) {
    (forall i | 0 <= i < |entries| :: ReadsBackSafely(entries[i].path))
    && forall i, j | 0 <= i < j < |entries| :: ReadApart(entries[i].path, entries[j].path)
  }

  lemma {:induction false} ReadablePermutation(a: seq<TarEntry>, b: seq<TarEntry>)
    requires multiset(a) == multiset(b) && DistinctPaths(a) && StaysReadable(a)
    ensures StaysReadable(b)
  {
    hide ReadsBackSafely, ReadApart;
    DistinctPermutation(a, b);
    forall i | 0 <= i < |b| ensures ReadsBackSafely(b[i].path) {
      assert b[i] in multiset(b);
      var k := IndexIn(a, b[i]);
    }
    forall i, j | 0 <= i < j < |b| ensures ReadApart(b[i].path, b[j].path) {
      assert b[i] in multiset(b) && b[j] in multiset(b);
      var k := IndexIn(a, b[i]);
      var l := IndexIn(a, b[j]);
      assert k != l;
      ApartIsSymmetric(b[i].path, b[j].path);
    }
  }

  lemma {:induction false} ApartIsSymmetric(a: seq<byte>, b: seq<byte>)
    ensures ReadApart(a, b) <==> ReadApart(b, a)
  {
    hide ReadBackPath, SplitUstarPath;
  }

  lemma {:induction false} ReadBackAt(entries: seq<TarEntry>, i: nat)
    requires PrintOrdered(entries).Ok? && i < |entries|
    ensures SplitUstarPath(entries[i].path).Ok?
    ensures ReadBack(entries)[i] == entries[i].(path := ReadBackPath(entries[i].path))
  {
    hide ReadBackPath, SplitUstarPath, EntryBytes, FitsField;
    if i > 0 { ReadBackAt(entries[1..], i - 1); }
  }

  lemma {:induction false} ReadableInOrder(entries: seq<TarEntry>)
    requires PrintOrdered(entries).Ok?
    ensures StaysReadable(entries) <==> AllSafe(ReadBack(entries)) && DistinctPaths(ReadBack(entries))
  {
    hide ReadBackPath, SplitUstarPath, PrintOrdered, ReadBack, SafePath;
    var back := ReadBack(entries);
    forall i | 0 <= i < |entries|
      ensures SplitUstarPath(entries[i].path).Ok? && back[i].path == ReadBackPath(entries[i].path)
    {
      ReadBackAt(entries, i);
    }
    if StaysReadable(entries) {
      forall i | 0 <= i < |back| ensures SafePath(back[i].path) { assert ReadsBackSafely(entries[i].path); }
      forall i, j | 0 <= i < j < |back| ensures back[i].path != back[j].path {
        assert ReadApart(entries[i].path, entries[j].path);
      }
    }
    if AllSafe(back) && DistinctPaths(back) {
      forall i | 0 <= i < |entries| ensures ReadsBackSafely(entries[i].path) { assert SafePath(back[i].path); }
      forall i, j | 0 <= i < j < |entries| ensures ReadApart(entries[i].path, entries[j].path) {
        assert back[i].path != back[j].path;
      }
    }
  }

  /** A printed archive parses, to its entries as read back, exactly when its entries stay readable. */
  lemma {:induction false} PrintedParses(entries: seq<TarEntry>, limits: Limits)
    requires ValidLimits(limits) && WellFormed(entries, limits)
    requires Print(entries).Ok? && |Print(entries).value| <= limits.maxUnpackedBytes
    ensures PrintOrdered(SortEntries(entries)).Ok?
    ensures Parse(Print(entries).value, limits).Ok? <==> StaysReadable(entries)
    ensures Parse(Print(entries).value, limits).Ok?
            ==> Parse(Print(entries).value, limits).value == ReadBack(SortEntries(entries))
  {
    hide SortEntries, PrintOrdered, WellFormed, AllGood, ParseStream, Total, StaysReadable, ReadBack, DistinctPaths,
      AllSafe;
    var sorted := SortEntries(entries);
    SortFacts(entries, limits);
    WellFormedIsDistinct(entries, limits);
    WellFormedIsDistinct(sorted, limits);
    WellFormedWithinLimits(sorted, limits);
    if StaysReadable(entries) { ReadablePermutation(entries, sorted); }
    if StaysReadable(sorted) { ReadablePermutation(sorted, entries); }
    ReadableInOrder(sorted);
    ReadBackTotals(sorted);
    assert [] + ReadBack(sorted) == ReadBack(sorted);
    NothingIsDistinct();
    StreamAccepted(sorted, [], limits);
    StreamReadsBack(sorted, [], limits);
  }

  lemma {:induction false} WellFormedWithinLimits(entries: seq<TarEntry>, limits: Limits)
    requires WellFormed(entries, limits)
    ensures FileCount(entries) <= limits.maxFileCount && TotalBytes(entries) <= limits.maxUnpackedBytes
  {
  }

  lemma {:induction false} NothingIsDistinct()
    ensures DistinctPaths([])
  {
  }

  // ---------------------------------------------------------------- inspection

  const MANIFEST_PATH: seq<byte> :=
    PACKAGE + [SLASH] + PACKAGE + [46, 106, 115, 111, 110]

  predicate IsManifest(e: TarEntry) { e.path == MANIFEST_PATH && e.kind == File }

  function FindManifest(entries: seq<TarEntry>): Option<seq<byte>> {
    if entries == [] then None
    else if IsManifest(entries[0]) then Some(entries[0].data)
    else FindManifest(entries[1..])
  }

  datatype Inspection = Inspection(manifestBytes: seq<byte>, unpackedSize: nat, fileCount: nat)

  datatype InspectionError = Unreadable(error: TarError) | MissingManifest

  function Report(entries: seq<TarEntry>): Result<Inspection, InspectionError> {
    var manifest := FindManifest(entries);
    if manifest.None? then Err(MissingManifest)
    else Ok(Inspection(manifest.value, TotalBytes(entries), FileCount(entries)))
  }

  /** inspectPackageTarball, up to the JSON content of the manifest. */
  function Inspect(tar: seq<byte>, limits: Limits): Result<Inspection, InspectionError> {
    var entries := Parse(tar, limits);
    if entries.Err? then Err(Unreadable(entries.error)) else Report(entries.value)
  }

  function FilePositions(entries: seq<TarEntry>): set<nat> {
    set i: nat | i < |entries| && entries[i].kind == File
  }

  /** The bytes of all files, one after another. */
  function FileContents(entries: seq<TarEntry>): seq<byte> {
    if entries == [] then []
    else (if entries[0].kind == File then entries[0].data else []) + FileContents(entries[1..])
  }

  lemma {:induction false} FileCountIsTrue(entries: seq<TarEntry>)
    ensures FileCount(entries) == |FilePositions(entries)|
  {
    if entries != [] {
      var n := |entries| - 1;
      var front, last := entries[..n], entries[n];
      FileCountIsTrue(front);
      assert FilePositions(entries) == FilePositions(front) + if last.kind == File then {n} else {};
      assert n !in FilePositions(front);
    }
  }

  lemma {:induction false} TotalBytesAreTrue(entries: seq<TarEntry>)
    ensures TotalBytes(entries) == |FileContents(entries)|
  {
    if entries != [] {
      var n := |entries| - 1;
      var front, last := entries[..n], entries[n];
      TotalBytesAreTrue(front);
      ContentsAppend(front, last);
      assert entries == front + [last];
      hide FileContents;
    }
  }

  lemma {:induction false} ContentsAppend(front: seq<TarEntry>, last: TarEntry)
    ensures FileContents(front + [last]) == FileContents(front) + if last.kind == File then last.data else []
  {
    if front == [] {
      assert front + [last] == [last] && [last][1..] == [];
    } else {
      assert (front + [last])[1..] == front[1..] + [last];
      ContentsAppend(front[1..], last);
    }
  }

  /** An inspection reports the length of all file data together and the number of files, directories aside. */
  lemma {:induction false} ReportCounts(tar: seq<byte>, limits: Limits)
    requires Inspect(tar, limits).Ok?
    ensures Parse(tar, limits).Ok?
    ensures var entries, report := Parse(tar, limits).value, Inspect(tar, limits).value;
            report.unpackedSize == |FileContents(entries)| && report.fileCount == |FilePositions(entries)|
  {
    hide Parse, FindManifest, FileCount, TotalBytes, FileContents, FilePositions;
    FileCountIsTrue(Parse(tar, limits).value);
    TotalBytesAreTrue(Parse(tar, limits).value);
  }

  lemma {:induction false} FindManifestMeaning(entries: seq<TarEntry>)
    ensures FindManifest(entries).None? <==> forall i | 0 <= i < |entries| :: !IsManifest(entries[i])
    ensures FindManifest(entries).Some? ==>
              exists i | 0 <= i < |entries| :: IsManifest(entries[i]) && entries[i].data == FindManifest(entries).value
  {
    hide IsManifest;
    if entries != [] {
      var rest := entries[1..];
      FindManifestMeaning(rest);
      assert forall i | 0 <= i < |rest| :: rest[i] == entries[i + 1];
      if !IsManifest(entries[0]) && FindManifest(rest).Some? {
        var i :| 0 <= i < |rest| && IsManifest(rest[i]) && rest[i].data == FindManifest(rest).value;
        assert IsManifest(entries[i + 1]);
      }
      assert entries[0] == entries[0];
      assert forall i | 0 < i < |entries| :: entries[i] == rest[i - 1];
    }
  }

  lemma {:induction false} ManifestPermutation(a: seq<TarEntry>, b: seq<TarEntry>)
    requires multiset(a) == multiset(b) && DistinctPaths(a)
    ensures FindManifest(a) == FindManifest(b)
  {
    FindManifestMeaning(a);
    FindManifestMeaning(b);
    hide FindManifest;
    if FindManifest(a).Some? {
      var i :| 0 <= i < |a| && IsManifest(a[i]) && a[i].data == FindManifest(a).value;
      assert a[i] in multiset(b);
      var j :| 0 <= j < |b| && b[j] == a[i];
      assert FindManifest(b).Some?;
      var k :| 0 <= k < |b| && IsManifest(b[k]) && b[k].data == FindManifest(b).value;
      DistinctPermutation(a, b);
      assert j == k;
    } else {
      forall k | 0 <= k < |b|
        ensures !IsManifest(b[k])
      {
        assert b[k] in multiset(a);
        var l :| 0 <= l < |a| && a[l] == b[k];
      }
    }
  }

  /** The manifest's path is short, so reading back neither changes it nor turns another path into it. */
  lemma {:induction false} ManifestReadsBack(e: TarEntry)
    requires SplitUstarPath(e.path).Ok? && GoodPath(e.path)
    ensures IsManifest(e.(path := ReadBackPath(e.path))) <==> IsManifest(e)
  {
    BomFreeReadsBack(e.path);
    hide GoodPath;
    assert |MANIFEST_PATH| == 20;
    if |e.path| <= 100 {
      assert BomFree(e.path) by { SplitParts(e.path); }
    } else {
      assert |ReadBackPath(e.path)| >= 98;
    }
  }

  lemma {:induction false} ManifestKept(entries: seq<TarEntry>, limits: Limits)
    requires PrintOrdered(entries).Ok? && AllGood(entries, limits)
    ensures FindManifest(ReadBack(entries)) == FindManifest(entries)
  {
    hide ReadBackPath, IsManifest, SplitUstarPath, EntryBytes, FitsField, SafePath, ValidUtf8;
    if entries != [] {
      assert WellFormedEntry(entries[0], limits);
      ManifestReadsBack(entries[0]);
      ManifestKept(entries[1..], limits);
      assert ReadBack(entries)[1..] == ReadBack(entries[1..]);
    }
  }

  /**
   * Canonicalization keeps what inspection reports (manifest bytes, unpacked size and file count, or their absence)
   * if and only if the entries stay readable: dropping a byte-order mark from split names leaves safe, distinct paths.
   */
  lemma {:induction false} InspectionConserved(tar: seq<byte>, limits: Limits)
    requires Canonicalize(tar, limits).Ok?
    ensures Inspect(Canonicalize(tar, limits).value, limits) == Inspect(tar, limits)
            <==> StaysReadable(Parse(tar, limits).value)
  {
    hide ParseStream, SortEntries, PrintOrdered, Total, WellFormed, FindManifest, StaysReadable, ReadBack, AllGood;
    var entries := Parse(tar, limits).value;
    var sorted := SortEntries(entries);
    ParseSound(tar, limits);
    CanonicalIsNoLonger(tar, limits);
    SortFacts(entries, limits);
    PrintedParses(entries, limits);
    ReadBackTotals(sorted);
    ManifestKept(sorted, limits);
    WellFormedIsDistinct(entries, limits);
    ManifestPermutation(entries, sorted);
    TotalPermutation(SizeOf, entries, sorted);
    TotalPermutation(FileUnit, entries, sorted);
  }

  /** In particular it is kept whenever no split name begins with a byte-order mark. */
  lemma {:induction false} BomFreeStaysReadable(entries: seq<TarEntry>, limits: Limits)
    requires WellFormed(entries, limits) && AllBomFree(entries)
    requires forall i | 0 <= i < |entries| :: SplitUstarPath(entries[i].path).Ok?
    ensures StaysReadable(entries)
  {
    hide BomFree, ReadBackPath, SplitUstarPath, SafePath, ValidUtf8, Total;
    forall i | 0 <= i < |entries|
      ensures SafePath(entries[i].path) && ReadBackPath(entries[i].path) == entries[i].path
    {
      assert WellFormedEntry(entries[i], limits) && BomFree(entries[i].path);
      BomFreeReadsBack(entries[i].path);
    }
  }

  // ---------------------------------------------------------------- the failing families are not empty

  const RELEASE_LIMITS := Limits(256 * 1024 * 1024, 64 * 1024 * 1024, 10_000)

  /** A path of 98 bytes, a slash, and then a file name. */
  function LongPath(name: seq<byte>): seq<byte> { PACKAGE + [SLASH] + Repeat(97, 90) + [SLASH] + name }

  /** A name of ASCII text after one or two byte-order marks. */
  predicate MarkedName(name: seq<byte>) {
    4 <= |name| <= 7 && name[..3] == BOM && 0x20 < name[|name| - 1] < 0x80
    && name[|name| - 1] != SLASH && name[|name| - 1] != BACKSLASH
    && (|name| == 4 || (|name| == 7 && name[3..6] == BOM))
  }

  function LongEntry(name: seq<byte>): TarEntry { TarEntry(LongPath(name), 420, File, []) }

  lemma {:induction false} MarkedBytes(name: seq<byte>)
    requires MarkedName(name)
    ensures forall i | 0 <= i < |name| :: name[i] != SLASH && name[i] != BACKSLASH && name[i] != 0
    ensures forall i | 0 <= i < |name| - 1 :: name[i] in {0xEF, 0xBB, 0xBF}
  {
    assert name[0] == name[..3][0] && name[1] == name[..3][1] && name[2] == name[..3][2];
    if |name| == 7 {
      assert name[3] == name[3..6][0] && name[4] == name[3..6][1] && name[5] == name[3..6][2];
    }
  }

  lemma {:induction false} LastSlash(path: seq<byte>, cut: nat, i: nat)
    requires 0 < cut <= i < |path| && path[cut] == SLASH && cut <= 155 && |path| - cut - 1 <= 100
    requires forall k | cut < k <= i :: path[k] != SLASH
    ensures SplitIndex(path, i) == Some(cut)
  {
    if i > cut { LastSlash(path, cut, i - 1); }
  }

  lemma {:induction false} LongPathSplits(name: seq<byte>)
    requires MarkedName(name)
    ensures SplitUstarPath(LongPath(name)) == Ok(UstarName(name, LongPath(name)[..98]))
  {
    var p := LongPath(name);
    MarkedBytes(name);
    assert |p| == 99 + |name| && p[98] == SLASH && p[99..] == name;
    forall k | 98 < k < |p| ensures p[k] != SLASH { assert p[k] == name[k - 99]; }
    LastSlash(p, 98, |p| - 1);
  }

  lemma {:induction false} LongPathIsSafe(name: seq<byte>)
    requires MarkedName(name)
    ensures SafePath(LongPath(name))
  {
    var p := LongPath(name);
    MarkedBytes(name);
    assert p[..8] == PACKAGE + [SLASH];
    assert forall k | 8 <= k < 98 :: p[k] == 97;
    forall k | 99 <= k < |p| ensures p[k] != SLASH && p[k] != BACKSLASH && p[k] != 0 { assert p[k] == name[k - 99]; }
    forall i, j | 0 <= i <= j <= |p| && IsSegment(p, i, j)
      ensures p[i..j] != [] && p[i..j] != [46] && p[i..j] != [46, 46]
    {
      assert i == 0 || i == 8 || i == 99;
      assert j == 7 || j == 98 || j == |p|;
      assert p[7] == SLASH && p[98] == SLASH;
      assert j - i > 2;
    }
  }

  lemma {:induction false} AsciiIsUtf8(s: seq<byte>)
    requires forall i | 0 <= i < |s| :: s[i] < 0x80
    ensures ValidUtf8(s)
  {
    if s != [] { AsciiIsUtf8(s[1..]); }
  }

  lemma {:induction false} BomBefore(s: seq<byte>)
    requires ValidUtf8(s)
    ensures ValidUtf8(BOM + s)
  {
    BomIsOneCharacter();
    Utf8RunConcat(ACCEPT, BOM, s);
  }

  lemma {:induction false} LongPathIsUtf8(name: seq<byte>)
    requires MarkedName(name)
    ensures ValidUtf8(LongPath(name))
  {
    hide ValidUtf8;
    var p, n := LongPath(name), |name|;
    assert p == p[..98] + [SLASH] + name;
    AsciiIsUtf8(p[..98]);
    AsciiIsUtf8(name[n - 1..]);
    BomBefore(name[n - 1..]);
    if n == 4 {
      assert name == BOM + name[3..];
    } else {
      assert name[3..] == BOM + name[6..];
      assert name == BOM + name[3..];
      BomBefore(name[3..]);
    }
    AsciiSplitsUtf8(p[..98], SLASH, name);
  }

  lemma {:induction false} LongEntryIsWellFormed(name: seq<byte>)
    requires MarkedName(name)
    ensures WellFormed([LongEntry(name)], RELEASE_LIMITS) && Printable(LongEntry(name))
            && !AllBomFree([LongEntry(name)])
  {
    hide LongPath, SplitUstarPath, SafePath, ValidUtf8, OctalText;
    LongPathSplits(name);
    LongPathIsSafe(name);
    LongPathIsUtf8(name);
    SmallNumbersFit(0, 12);
    var e := LongEntry(name);
    ConsTotal(FileUnit, e, []);
    ConsTotal(SizeOf, e, []);
    assert [e] + [] == [e];
    assert WellFormedEntry(e, RELEASE_LIMITS);
    assert StartsWithBom(name) && !BomFree([e][0].path);
  }

  lemma {:induction false} SingletonPrints(e: TarEntry)
    requires Printable(e)
    ensures SortEntries([e]) == [e] && Print([e]).Ok? && |Print([e]).value| == BlockSize(e) + 1024
  {
    hide EntryBytes, Printable, SplitUstarPath, FitsField;
    assert [e][1..] == [] && [e][..0] == [];
    assert SortEntries([]) == [];
    assert PrintOrdered([]) == Ok([]);
    assert PrintEntry(e) == Ok(EntryBytes(e)) by { PrintableEntryPrints(e); }
    PrintedLength([e]);
    assert Total(BlockSize, []) == 0;
  }

  lemma {:induction false} PrintableEntryPrints(e: TarEntry)
    requires Printable(e)
    ensures PrintEntry(e) == Ok(EntryBytes(e))
  {
    hide EntryBytes, SplitUstarPath, FitsField;
  }

  const MARKED: seq<byte> := BOM + [120]

  /** One such member is enough: a well-formed, printable archive that does not read back. */
  lemma {:induction false} BomBreaksRoundTrip()
    ensures WellFormed([LongEntry(MARKED)], RELEASE_LIMITS) && Print([LongEntry(MARKED)]).Ok?
    ensures Parse(Print([LongEntry(MARKED)]).value, RELEASE_LIMITS) != Ok(SortEntries([LongEntry(MARKED)]))
  {
    hide LongPath, Print, Parse, SortEntries, WellFormed, AllBomFree, Printable;
    var e := LongEntry(MARKED);
    assert MarkedName(MARKED) by { assert MARKED[..3] == BOM && MARKED[3] == 120; }
    LongEntryIsWellFormed(MARKED);
    SingletonPrints(e);
    RoundTrip([e], RELEASE_LIMITS);
  }

  lemma {:induction false} LongPathReadsBack(name: seq<byte>)
    requires MarkedName(name)
    ensures SplitUstarPath(LongPath(name)).Ok? && ReadBackPath(LongPath(name)) == LongPath(name[3..])
  {
    LongPathSplits(name);
    var p := LongPath(name);
    assert p[..98] + [SLASH] + name[3..] == LongPath(name[3..]);
  }

  lemma {:induction false} DotIsUnsafe()
    ensures !SafePath(LongPath([46]))
  {
    var p := LongPath([46]);
    assert |p| == 100 && p[98] == SLASH && p[99..100] == [46];
    assert IsSegment(p, 99, 100);
  }

  const DOT_NAME: seq<byte> := BOM + [46]
  const DOUBLE_NAME: seq<byte> := BOM + BOM + [46]

  lemma {:induction false} WitnessNames()
    ensures MarkedName(DOT_NAME) && MarkedName(DOUBLE_NAME) && DOUBLE_NAME[3..] == DOT_NAME && DOT_NAME[3..] == [46]
  {
    assert DOT_NAME[..3] == BOM && DOUBLE_NAME[..3] == BOM && DOUBLE_NAME[3..6] == BOM;
    assert DOT_NAME[3] == 46 && DOUBLE_NAME[6] == 46;
  }

  lemma {:induction false} SingletonReadable(e: TarEntry)
    ensures StaysReadable([e]) <==> ReadsBackSafely(e.path)
  {
    hide ReadsBackSafely, ReadApart;
    assert [e][0] == e;
  }

  /** The archive printed for the doubly marked name parses to the singly marked one. */
  lemma {:induction false} DoubleMarkParses()
    ensures Print([LongEntry(DOUBLE_NAME)]).Ok?
    ensures Parse(Print([LongEntry(DOUBLE_NAME)]).value, RELEASE_LIMITS) == Ok([LongEntry(DOT_NAME)])
  {
    hide LongPath, Print, Parse, SortEntries, WellFormed, AllBomFree, Printable, ReadBackPath, SplitUstarPath, SafePath,
      StaysReadable, PrintOrdered;
    var e := LongEntry(DOUBLE_NAME);
    WitnessNames();
    LongEntryIsWellFormed(DOUBLE_NAME);
    SingletonPrints(e);
    LongPathReadsBack(DOUBLE_NAME);
    LongPathIsSafe(DOT_NAME);
    SingletonReadable(e);
    PrintedParses([e], RELEASE_LIMITS);
    ReadBackAt([e], 0);
    assert ReadBack([e]) == [LongEntry(DOT_NAME)];
  }

  /** An accepted archive, with a canonical form, whose canonical form is not accepted: its inspection is lost. */
  lemma {:induction false} InspectionCanBeLost() returns (tar: seq<byte>)
    ensures Parse(tar, RELEASE_LIMITS).Ok? && Canonicalize(tar, RELEASE_LIMITS).Ok?
    ensures Parse(Canonicalize(tar, RELEASE_LIMITS).value, RELEASE_LIMITS).Err?
    ensures Inspect(Canonicalize(tar, RELEASE_LIMITS).value, RELEASE_LIMITS) != Inspect(tar, RELEASE_LIMITS)
  {
    hide LongPath, Print, Parse, SortEntries, WellFormed, AllBomFree, Printable, ReadBackPath, SplitUstarPath, SafePath,
      StaysReadable, PrintOrdered, Inspect;
    var e := LongEntry(DOT_NAME);
    WitnessNames();
    DoubleMarkParses();
    tar := Print([LongEntry(DOUBLE_NAME)]).value;
    LongEntryIsWellFormed(DOT_NAME);
    SingletonPrints(e);
    LongPathReadsBack(DOT_NAME);
    DotIsUnsafe();
    SingletonReadable(e);
    PrintedParses([e], RELEASE_LIMITS);
    InspectionConserved(tar, RELEASE_LIMITS);
  }
}
