/** createCanonicalTarball: entries sorted by path bytes, each in its canonical ustar form, then the terminator. */
module TarWriter {
  import opened Common
  import opened TarText
  import opened TarFormat

  // ---------------------------------------------------------------- sorting by path bytes

  /** Buffer.compare(a, b) <= 0. */
  predicate PathLeq(a: seq<byte>, b: seq<byte>) {
    a == [] || (b != [] && (a[0] < b[0] || (a[0] == b[0] && PathLeq(a[1..], b[1..]))))
  }

  lemma {:induction false} PathLeqTotal(a: seq<byte>, b: seq<byte>)
    ensures PathLeq(a, b) || PathLeq(b, a)
    ensures PathLeq(a, b) && PathLeq(b, a) ==> a == b
  {
    if a != [] && b != [] {
      PathLeqTotal(a[1..], b[1..]);
      assert a == [a[0]] + a[1..] && b == [b[0]] + b[1..];
    }
  }

  lemma {:induction false} PathLeqTransitive(a: seq<byte>, b: seq<byte>, c: seq<byte>)
    requires PathLeq(a, b) && PathLeq(b, c)
    ensures PathLeq(a, c)
  {
    if a != [] && a[0] == b[0] && b[0] == c[0] {
      PathLeqTransitive(a[1..], b[1..], c[1..]);
    }
  }

  predicate SortedByPath(s: seq<TarEntry>) {
    forall i, j | 0 <= i < j < |s| :: PathLeq(s[i].path, s[j].path)
  }

  function Insert(e: TarEntry, s: seq<TarEntry>): seq<TarEntry> {
    if s == [] || PathLeq(e.path, s[0].path) then [e] + s else [s[0]] + Insert(e, s[1..])
  }

  /** The stable sort of Array.prototype.sort under Buffer.compare. */
  function SortEntries(entries: seq<TarEntry>): seq<TarEntry> {
    if entries == [] then [] else Insert(entries[0], SortEntries(entries[1..]))
  }

  lemma {:induction false} BelowAll(e: TarEntry, s: seq<TarEntry>)
    requires SortedByPath(s) && s != [] && PathLeq(e.path, s[0].path)
    ensures SortedByPath([e] + s)
  {
    hide PathLeq;
    forall j | 0 <= j < |s|
      ensures PathLeq(e.path, s[j].path)
    {
      if j > 0 { PathLeqTransitive(e.path, s[0].path, s[j].path); }
    }
  }

  lemma {:induction false} InsertSorted(e: TarEntry, s: seq<TarEntry>)
    requires SortedByPath(s)
    ensures SortedByPath(Insert(e, s)) && multiset(Insert(e, s)) == multiset(s) + multiset{e}
    ensures Insert(e, s) != [] && (Insert(e, s)[0] == e || (s != [] && Insert(e, s)[0] == s[0]))
  {
    hide PathLeq;
    if s == [] {
    } else if PathLeq(e.path, s[0].path) {
      BelowAll(e, s);
    } else {
      var rest := Insert(e, s[1..]);
      InsertSorted(e, s[1..]);
      PathLeqTotal(e.path, s[0].path);
      assert s == [s[0]] + s[1..];
      assert rest[0] == e || rest[0] == s[1];
      BelowAll(s[0], rest);
    }
  }

  /** Sorting permutes the entries into path order. */
  lemma {:induction false} SortEntriesSorts(entries: seq<TarEntry>)
    ensures SortedByPath(SortEntries(entries)) && multiset(SortEntries(entries)) == multiset(entries)
  {
    if entries != [] {
      SortEntriesSorts(entries[1..]);
      InsertSorted(entries[0], SortEntries(entries[1..]));
      assert entries == [entries[0]] + entries[1..];
    }
  }

  // ---------------------------------------------------------------- printing

  function PrintEntry(e: TarEntry): Result<seq<byte>, TarError> {
    var _ :- SplitUstarPath(e.path);
    var _ :- Check(FitsField(SizeOf(e), 12), NumberTooLarge);
    Ok(EntryBytes(e))
  }

  function PrintOrdered(entries: seq<TarEntry>): Result<seq<byte>, TarError> {
    if entries == [] then Ok([])
    else
      var first :- PrintEntry(entries[0]);
      var rest :- PrintOrdered(entries[1..]);
      Ok(first + rest)
  }

  function Print(entries: seq<TarEntry>): Result<seq<byte>, TarError> {
    var body :- PrintOrdered(SortEntries(entries));
    Ok(body + Repeat(0, 1024))
  }

  // ---------------------------------------------------------------- the in-place header writer

  /** `s` with `v` copied over it at `offset`. */
  function Splice(s: seq<byte>, offset: nat, v: seq<byte>): (r: seq<byte>)
    requires offset + |v| <= |s|
    ensures |r| == |s|
  {
    s[..offset] + v + s[offset + |v|..]
  }

  method Copy(header: array<byte>, offset: nat, v: seq<byte>)
    requires offset + |v| <= header.Length
    modifies header
    ensures header[..] == Splice(old(header[..]), offset, v)
  {
    for k := 0 to |v|
      invariant forall i | 0 <= i < header.Length ::
                  header[i] == if offset <= i < offset + k then v[i - offset] else old(header[i])
    {
      header[offset + k] := v[k];
    }
  }

  method WriteTarString(header: array<byte>, offset: nat, length: nat, value: seq<byte>)
      returns (r: Result<(), TarError>)
    requires offset + length <= header.Length
    modifies header
    ensures r.Ok? <==> |value| <= length
    ensures header[..] == if r.Ok? then Splice(old(header[..]), offset, value) else old(header[..])
  {
    if |value| > length { return Err(PathTooLong); }
    Copy(header, offset, value);
    return Ok(());
  }

  method WriteTarOctal(header: array<byte>, offset: nat, length: nat, value: nat) returns (r: Result<(), TarError>)
    requires length > 1 && offset + length <= header.Length
    modifies header
    ensures r.Ok? <==> FitsField(value, length)
    ensures header[..] == if r.Ok? then Splice(old(header[..]), offset, OctalField(value, length)) else old(header[..])
  {
    hide OctalText;
    var encoded := OctalText(value);
    if |encoded| > length - 1 { return Err(NumberTooLarge); }
    r := WriteTarString(header, offset, length - 1, PadZeros(encoded, length - 1));
    header[offset + length - 1] := 0;
  }

  /** `header` holds `done` and then only zeros. */
  ghost predicate Written(header: array<byte>, done: seq<byte>)
    reads header
  {
    |done| <= header.Length && header[..] == done + Repeat(0, header.Length - |done|)
  }

  /** Writing a padded string right after the finished part extends it. */
  method AppendString(header: array<byte>, width: nat, value: seq<byte>, ghost done: seq<byte>, offset: nat)
    requires Written(header, done) && offset == |done| && |value| <= width && offset + width <= header.Length
    modifies header
    ensures Written(header, done + PadRight(value, width))
  {
    var _ := WriteTarString(header, offset, width, value);
  }

  method AppendOctal(header: array<byte>, width: nat, value: nat, ghost done: seq<byte>, offset: nat)
    requires Written(header, done) && offset == |done| && offset + width <= header.Length && FitsField(value, width)
    modifies header
    ensures Written(header, done + OctalField(value, width))
  {
    var _ := WriteTarOctal(header, offset, width, value);
  }

  /** Name, mode, uid, gid, size and mtime. */
  method WriteFront(header: array<byte>, e: TarEntry)
    requires Printable(e) && header.Length == 512 && Written(header, [])
    modifies header
    ensures Written(header, HeaderFront(HeaderOf(e)))
  {
    SmallNumbersFit(e.mode % 512, 8);
    SmallNumbersFit(0, 8);
    SmallNumbersFit(0, 12);
    ghost var done := [];
    AppendString(header, 100, SplitUstarPath(e.path).value.name, done, 0);
    done := done + PadRight(SplitUstarPath(e.path).value.name, 100);
    AppendOctal(header, 8, e.mode % 512, done, 100);
    done := done + OctalField(e.mode % 512, 8);
    AppendOctal(header, 8, 0, done, 108);
    done := done + OctalField(0, 8);
    AppendOctal(header, 8, 0, done, 116);
    done := done + OctalField(0, 8);
    AppendOctal(header, 12, SizeOf(e), done, 124);
    done := done + OctalField(SizeOf(e), 12);
    AppendOctal(header, 12, 0, done, 136);
    done := done + OctalField(0, 12);
    assert done == HeaderFront(HeaderOf(e));
  }

  method AppendBytes(header: array<byte>, v: seq<byte>, ghost done: seq<byte>, offset: nat)
    requires Written(header, done) && offset == |done| && offset + |v| <= header.Length
    modifies header
    ensures Written(header, done + v)
  {
    Copy(header, offset, v);
  }

  /** Bytes never written stay zero. */
  lemma {:induction false} SkipZeros(header: array<byte>, done: seq<byte>, gap: nat)
    requires Written(header, done) && |done| + gap <= header.Length
    ensures Written(header, done + Repeat(0, gap))
  {
  }

  /** Type, magic, version and prefix, after the eight spaces standing in for the checksum. */
  method WriteBack(header: array<byte>, e: TarEntry, ghost done: seq<byte>)
    requires Printable(e) && header.Length == 512 && Written(header, done) && |done| == 156
    modifies header
    ensures header[..] == done + HeaderBack(HeaderOf(e))
  {
    hide SplitUstarPath, OctalText, SizeOf;
    ghost var back := [TypeByte(e.kind)];
    AppendBytes(header, [TypeByte(e.kind)], done, 156);
    SkipZeros(header, done + back, 100);
    back := back + Repeat(0, 100);
    assert done + [TypeByte(e.kind)] + Repeat(0, 100) == done + back;
    AppendBytes(header, USTAR, done + back, 257);
    assert done + back + USTAR == done + (back + USTAR);
    back := back + USTAR;
    SkipZeros(header, done + back, 80);
    assert done + back + Repeat(0, 80) == done + (back + Repeat(0, 80));
    back := back + Repeat(0, 80);
    var prefix := SplitUstarPath(e.path).value.prefix;
    AppendString(header, 155, prefix, done + back, 345);
    assert done + back + PadRight(prefix, 155) + Repeat(0, 12) == done + HeaderBack(HeaderOf(e));
  }

  method SumBytes(header: array<byte>) returns (checksum: nat)
    ensures checksum == Sum(header[..])
  {
    checksum := 0;
    for i := 0 to header.Length
      invariant checksum == Sum(header[..i])
    {
      assert header[..i + 1][..i] == header[..i];
      checksum := checksum + header[i];
    }
    assert header[..header.Length] == header[..];
  }

  lemma {:induction false} ChecksumWithSpaces(h: Header)
    requires HeaderFits(h)
    ensures Sum(HeaderFront(h) + Repeat(32, 8) + HeaderBack(h)) == ChecksumOf(h)
  {
    SumConcat(HeaderFront(h) + Repeat(32, 8), HeaderBack(h));
    SumConcat(HeaderFront(h), Repeat(32, 8));
    SumOfSpaces(8);
  }

  lemma {:induction false} SumOfSpaces(n: nat)
    ensures Sum(Repeat(32, n)) == 32 * n
  {
    if n > 0 {
      assert Repeat(32, n)[..n - 1] == Repeat(32, n - 1);
      SumOfSpaces(n - 1);
    }
  }

  /** Replaces the eight spaces by six digits, a NUL and a space. */
  method PatchChecksum(header: array<byte>, digits: seq<byte>, ghost front: seq<byte>, ghost back: seq<byte>)
    requires |front| == 148 && |digits| == 6 && header.Length == 512 && header[..] == front + Repeat(32, 8) + back
    modifies header
    ensures header[..] == front + digits + [0, 32] + back
  {
    Copy(header, 148, digits);
    header[154] := 0;
    header[155] := 0x20;
  }

  predicate Cuttable(path: seq<byte>, i: nat)
    requires i < |path|
  {
    path[i] == SLASH && i <= 155 && |path| - i - 1 <= 100
  }

  /** splitUstarPath: scan back from the end for the last cut that fits both fields. */
  method SplitPath(path: seq<byte>) returns (r: Result<UstarName, TarError>)
    ensures r == SplitUstarPath(path)
    ensures r.Ok? && |path| > 100 ==> forall i | |r.value.prefix| < i < |path| :: !Cuttable(path, i)
    ensures r.Err? <==> |path| > 100 && forall i | 0 < i < |path| :: !Cuttable(path, i)
  {
    if |path| <= 100 { return Ok(UstarName(path, [])); }
    var index: nat := |path| - 1;
    while index > 0
      invariant index < |path|
      invariant SplitIndex(path, index) == SplitIndex(path, |path| - 1)
      invariant forall i | index < i < |path| :: !Cuttable(path, i)
    {
      if path[index] == SLASH {
        var prefix, name := path[..index], path[index + 1..];
        if |prefix| <= 155 && |name| <= 100 {
          assert Cuttable(path, index);
          return Ok(UstarName(name, prefix));
        }
      }
      index := index - 1;
    }
    return Err(PathTooLong);
  }

  /** canonicalTarHeader: a zeroed block filled field by field, summed, and completed with its own checksum. */
  method CanonicalTarHeader(e: TarEntry) returns (r: Result<seq<byte>, TarError>)
    ensures r == if Printable(e) then Ok(HeaderBytes(e)) else Err(PrintEntry(e).error)
  {
    hide HeaderFront, HeaderBack, ChecksumOf, OctalText;
    var split := SplitPath(e.path);
    if split.Err? { return Err(split.error); }
    if !FitsField(SizeOf(e), 12) { return Err(NumberTooLarge); }
    var header := new byte[512](_ => 0);
    ghost var h := HeaderOf(e);
    WriteFront(header, e);
    Copy(header, 148, Repeat(32, 8));
    ghost var done := HeaderFront(h) + Repeat(32, 8);
    assert Written(header, done);
    WriteBack(header, e, done);
    var checksum := SumBytes(header);
    ChecksumWithSpaces(h);
    ChecksumFits(h);
    PatchChecksum(header, PadZeros(OctalText(checksum), 6), HeaderFront(h), HeaderBack(h));
    return Ok(header[..]);
  }

  lemma {:induction false} PrintOrderedAppend(entries: seq<TarEntry>, e: TarEntry)
    ensures PrintOrdered(entries + [e]) ==
            if PrintOrdered(entries).Err? then PrintOrdered(entries)
            else if PrintEntry(e).Err? then Err(PrintEntry(e).error)
            else Ok(PrintOrdered(entries).value + PrintEntry(e).value)
  {
    hide PrintEntry;
    var all := entries + [e];
    if entries == [] {
      assert all == [e] && all[1..] == [];
      assert PrintEntry(e).Ok? ==> PrintEntry(e).value + [] == [] + PrintEntry(e).value;
    } else {
      assert all[0] == entries[0] && all[1..] == entries[1..] + [e];
      PrintOrderedAppend(entries[1..], e);
      if PrintOrdered(entries).Ok? && PrintEntry(e).Ok? {
        var first, rest, last := PrintEntry(entries[0]).value, PrintOrdered(entries[1..]).value, PrintEntry(e).value;
        assert first + (rest + last) == (first + rest) + last;
      }
    }
  }

  lemma {:induction false} PrintOrderedFails(entries: seq<TarEntry>, k: nat)
    requires k < |entries| && PrintOrdered(entries[..k]).Ok? && PrintEntry(entries[k]).Err?
    ensures PrintOrdered(entries) == Err(PrintEntry(entries[k]).error)
  {
    hide PrintEntry;
    if k > 0 {
      assert entries[..k][0] == entries[0] && entries[..k][1..] == entries[1..][..k - 1];
      PrintOrderedFails(entries[1..], k - 1);
    }
  }

  lemma {:induction false} PrintNothing()
    ensures PrintOrdered([]) == Ok([])
  {
  }

  /** createCanonicalTarball, without the gzip wrapper. */
  method CreateCanonicalTarball(entries: seq<TarEntry>) returns (r: Result<seq<byte>, TarError>)
    ensures r == Print(entries)
  {
    hide SortEntries, HeaderBytes, FitsField, SplitUstarPath, PrintOrdered;
    assert PrintOrdered([]) == Ok([]) by { PrintNothing(); }
    var ordered := SortEntries(entries);
    var output: seq<byte> := [];
    for k := 0 to |ordered|
      invariant PrintOrdered(ordered[..k]) == Ok(output)
    {
      var e := ordered[k];
      var header := CanonicalTarHeader(e);
      PrintOrderedAppend(ordered[..k], e);
      assert ordered[..k] + [e] == ordered[..k + 1];
      if header.Err? {
        PrintOrderedFails(ordered, k);
        return Err(PrintEntry(e).error);
      }
      var block := header.value;
      if e.kind == File {
        var padding := (512 - |e.data| % 512) % 512;
        assert padding == Padded(|e.data|) - |e.data|;
        block := block + e.data + Repeat(0, padding);
      }
      assert block == EntryBytes(e);
      output := output + block;
    }
    assert ordered[..|ordered|] == ordered;
    return Ok(output + Repeat(0, 1024));
  }
}
