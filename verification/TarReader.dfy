/** parseTarEntries: the whole-archive reader, as a recursive specification and as the offset loop that refines it. */
module TarReader {
  import opened Common
  import opened TarText
  import opened TarFormat

  /** The sum of a weight over all entries. */
  function Total(weight: TarEntry -> nat, entries: seq<TarEntry>): nat {
    if entries == [] then 0
    else Total(weight, entries[..|entries| - 1]) + weight(entries[|entries| - 1])
  }

  function FileUnit(e: TarEntry): nat { if e.kind == File then 1 else 0 }

  function FileCount(entries: seq<TarEntry>): nat { Total(FileUnit, entries) }

  function TotalBytes(entries: seq<TarEntry>): nat { Total(SizeOf, entries) }

  function BlockSize(e: TarEntry): nat { 512 + Padded(SizeOf(e)) }

  /** Bytes the canonical form of these entries takes, without the terminator. */
  function CanonicalSize(entries: seq<TarEntry>): nat { Total(BlockSize, entries) }

  function PathSet(entries: seq<TarEntry>): set<seq<byte>> {
    if entries == [] then {} else PathSet(entries[..|entries| - 1]) + {entries[|entries| - 1].path}
  }

  predicate ValidLimits(limits: Limits) {
    0 < limits.maxFileCount && 0 < limits.maxEntryBytes <= limits.maxUnpackedBytes
  }

  /** The checks of a member against the members before it. */
  function Admit(entries: seq<TarEntry>, e: TarEntry, limits: Limits): Result<(), TarError> {
    var _ :- Check(e.path !in PathSet(entries), DuplicateMember);
    if e.kind == Directory then Ok(())
    else
      var _ :- Check(FileCount(entries) + 1 <= limits.maxFileCount, TooManyFiles);
      Check(TotalBytes(entries) + |e.data| <= limits.maxUnpackedBytes, FileDataTooLarge)
  }

  function Finish(tar: seq<byte>, pending: Option<seq<byte>>, entries: seq<TarEntry>): Result<seq<TarEntry>, TarError> {
    var _ :- Check(pending.None?, DanglingPathExtension);
    var _ :- Check(|tar| >= 1024 && AllZero(tar[..1024]), MissingSecondZeroBlock);
    var _ :- Check(AllZero(tar[1024..]), DataAfterTerminator);
    Ok(entries)
  }

  /** Reads the rest of an archive, given the pending path and the entries so far. */
  function ParseStream(tar: seq<byte>, pending: Option<seq<byte>>, entries: seq<TarEntry>, limits: Limits)
    : Result<seq<TarEntry>, TarError>
    decreases |tar|
  {
    if |tar| < 512 then Err(MissingTerminator)
    else if AllZero(tar[..512]) then Finish(tar, pending, entries)
    else
      var member :- ReadMember(tar, pending, limits);
      match member
      case Extension(path, next) => ParseStream(tar[next..], path, entries, limits)
      case Plain(e, next) =>
        var _ :- Admit(entries, e, limits);
        ParseStream(tar[next..], None, entries + [e], limits)
  }

  function Parse(tar: seq<byte>, limits: Limits): Result<seq<TarEntry>, TarError> {
    var _ :- Check(ValidLimits(limits), BadLimits);
    var _ :- Check(|tar| <= limits.maxUnpackedBytes, UnpackedTooLarge);
    ParseStream(tar, None, [], limits)
  }

  /** The checksum loop of assertTarChecksum. */
  method CalculateChecksum(header: seq<byte>) returns (calculated: nat)
    requires |header| == 512
    ensures calculated == HeaderSum(header)
  {
    calculated := 0;
    for index := 0 to 512
      invariant calculated == Sum(header[..if index <= 148 then index else 148])
                              + (if index <= 148 then 0 else if index <= 156 then (index - 148) * 32 else 256)
                              + (if index <= 156 then 0 else Sum(header[156..index]))
    {
      if index < 148 {
        assert header[..index + 1][..index] == header[..index];
      }
      if index >= 156 {
        assert header[156..index + 1][..index - 156] == header[156..index];
      }
      calculated := calculated + if 148 <= index < 156 then 0x20 else header[index];
    }
    assert header[156..512] == header[156..];
  }

  lemma {:induction false} AppendFacts(entries: seq<TarEntry>, e: TarEntry)
    ensures PathSet(entries + [e]) == PathSet(entries) + {e.path}
    ensures FileCount(entries + [e]) == FileCount(entries) + FileUnit(e)
    ensures TotalBytes(entries + [e]) == TotalBytes(entries) + SizeOf(e)
    ensures CanonicalSize(entries + [e]) == CanonicalSize(entries) + BlockSize(e)
    ensures PathSet([]) == {} && FileCount([]) == 0 && TotalBytes([]) == 0 && CanonicalSize([]) == 0
  {
    assert (entries + [e])[..|entries|] == entries;
  }

  /** parseTarEntries: one pass with an offset, a set of seen paths and running totals. */
  method ParseTarEntries(tar: seq<byte>, limits: Limits) returns (r: Result<seq<TarEntry>, TarError>)
    ensures r == Parse(tar, limits)
  {
    hide ReadMember, PathSet, Total;
    AppendFacts([], TarEntry([], 0, File, []));
    if !ValidLimits(limits) { return Err(BadLimits); }
    if |tar| > limits.maxUnpackedBytes { return Err(UnpackedTooLarge); }
    var entries: seq<TarEntry>, seen: set<seq<byte>> := [], {};
    var pendingPath: Option<seq<byte>> := None;
    var totalFileBytes, fileCount, offset := 0, 0, 0;
    while offset + 512 <= |tar|
      invariant offset <= |tar|
      invariant seen == PathSet(entries) && fileCount == FileCount(entries) && totalFileBytes == TotalBytes(entries)
      invariant ParseStream(tar[offset..], pendingPath, entries, limits) == Parse(tar, limits)
      decreases |tar| - offset
    {
      var rest := tar[offset..];
      if AllZero(rest[..512]) {
        if pendingPath.Some? { return Err(DanglingPathExtension); }
        if offset + 1024 > |tar| || !AllZero(tar[offset..offset + 1024]) {
          assert |rest| >= 1024 ==> rest[..1024] == tar[offset..offset + 1024];
          return Err(MissingSecondZeroBlock);
        }
        assert rest[..1024] == tar[offset..offset + 1024];
        assert rest[1024..] == tar[offset + 1024..];
        if !AllZero(tar[offset + 1024..]) { return Err(DataAfterTerminator); }
        return Ok(entries);
      }
      var member := ReadMember(rest, pendingPath, limits);
      if member.Err? { return Err(member.error); }
      var next := member.value.next;
      assert rest[next..] == tar[offset + next..];
      match member.value {
        case Extension(path, _) =>
          pendingPath := path;
        case Plain(e, _) =>
          pendingPath := None;
          if e.path in seen { return Err(DuplicateMember); }
          if e.kind == File {
            fileCount := fileCount + 1;
            if fileCount > limits.maxFileCount { return Err(TooManyFiles); }
            totalFileBytes := totalFileBytes + |e.data|;
            if totalFileBytes > limits.maxUnpackedBytes { return Err(FileDataTooLarge); }
          }
          seen := seen + {e.path};
          AppendFacts(entries, e);
          entries := entries + [e];
      }
      offset := offset + next;
    }
    return Err(MissingTerminator);
  }

  lemma {:induction false} PathSetMembers(entries: seq<TarEntry>, path: seq<byte>)
    ensures path in PathSet(entries) <==> exists i | 0 <= i < |entries| :: entries[i].path == path
  {
    if entries != [] {
      var front := entries[..|entries| - 1];
      PathSetMembers(front, path);
      if path in PathSet(front) {
        var i :| 0 <= i < |front| && front[i].path == path;
        assert entries[i].path == path;
      }
      if exists i | 0 <= i < |entries| :: entries[i].path == path {
        var i :| 0 <= i < |entries| && entries[i].path == path;
        assert i < |front| ==> front[i].path == path;
      }
    }
  }

  // ---------------------------------------------------------------- what every accepted archive satisfies

  predicate DistinctPaths(entries: seq<TarEntry>) {
    forall i, j | 0 <= i < j < |entries| :: entries[i].path != entries[j].path
  }

  /** An entry as the reader may produce it. */
  predicate WellFormedEntry(e: TarEntry, limits: Limits) {
    && SafePath(e.path)
    && ValidUtf8(e.path)
    && SafeMode(e.mode)
    && |e.data| <= limits.maxEntryBytes
    && (e.kind == Directory ==> e.data == [])
  }

  predicate WellFormed(entries: seq<TarEntry>, limits: Limits) {
    && DistinctPaths(entries)
    && (forall i | 0 <= i < |entries| :: WellFormedEntry(entries[i], limits))
    && FileCount(entries) <= limits.maxFileCount
    && TotalBytes(entries) <= limits.maxUnpackedBytes
  }

  lemma {:induction false} TypedIsWellFormed(header: seq<byte>, fixed: Fixed, data: seq<byte>, next: nat,
                                             pending: Option<seq<byte>>)
    requires |header| == 512
    requires ValidUtf8(fixed.name) && ValidUtf8(fixed.prefix) && (pending.Some? ==> ValidUtf8(pending.value))
    ensures var r := ReadTyped(header, fixed, data, next, pending);
            r.Ok? ==> match r.value
                      case Extension(path, _) => path.Some? ==> ValidUtf8(path.value)
                      case Plain(e, _) => WellFormedEntry(e, Limits(0, |data|, 0)) && e.data == data
  {
    if pending.None? && fixed.prefix != [] {
      AsciiSplitsUtf8(fixed.prefix, SLASH, fixed.name);
    }
    assert ValidUtf8(MemberPath(fixed, pending));
  }

  lemma {:induction false} MemberIsWellFormed(tar: seq<byte>, pending: Option<seq<byte>>, limits: Limits)
    requires |tar| >= 512
    requires pending.Some? ==> ValidUtf8(pending.value)
    ensures var r := ReadMember(tar, pending, limits);
            r.Ok? ==> match r.value
                      case Extension(path, _) => path.Some? ==> ValidUtf8(path.value)
                      case Plain(e, next) => WellFormedEntry(e, limits) && next == 512 + Padded(|e.data|)
  {
    hide ReadTyped, SafePath, ReadFixed;
    var fixed := ReadFixed(tar[..512]);
    if fixed.Ok? && 512 + Padded(fixed.value.size) <= |tar| {
      var size := fixed.value.size;
      TypedIsWellFormed(tar[..512], fixed.value, tar[512..512 + size], 512 + Padded(size), pending);
    }
  }

  lemma {:induction false} AppendKeepsWellFormed(entries: seq<TarEntry>, e: TarEntry, limits: Limits)
    requires WellFormed(entries, limits) && WellFormedEntry(e, limits) && Admit(entries, e, limits).Ok?
    ensures WellFormed(entries + [e], limits)
  {
    hide WellFormedEntry;
    var all := entries + [e];
    assert all[..|entries|] == entries;
    forall i | 0 <= i < |entries|
      ensures all[i].path != e.path
    {
      assert entries[i].path == all[i].path;
      PathSetMembers(entries, e.path);
    }
  }

  lemma {:induction false} EntryDataIsFileData(e: TarEntry, limits: Limits)
    requires WellFormedEntry(e, limits)
    ensures SizeOf(e) == |e.data|
  {
  }

  /** Every accepted archive yields well-formed entries, and is at least as long as their canonical form. */
  lemma {:induction false} ParseStreamSound(tar: seq<byte>, pending: Option<seq<byte>>, entries: seq<TarEntry>,
                                            limits: Limits)
    requires pending.Some? ==> ValidUtf8(pending.value)
    requires WellFormed(entries, limits)
    ensures var r := ParseStream(tar, pending, entries, limits);
            r.Ok? ==> && WellFormed(r.value, limits)
                      && entries <= r.value
                      && CanonicalSize(r.value) + 1024 <= CanonicalSize(entries) + |tar|
    decreases |tar|
  {
    hide ReadMember, WellFormed, WellFormedEntry, Total, Admit, ValidUtf8;
    if |tar| >= 512 && !AllZero(tar[..512]) {
      var member := ReadMember(tar, pending, limits);
      MemberIsWellFormed(tar, pending, limits);
      if member.Ok? {
        match member.value {
          case Extension(path, next) =>
            ParseStreamSound(tar[next..], path, entries, limits);
          case Plain(e, next) =>
            if Admit(entries, e, limits).Ok? {
              AppendKeepsWellFormed(entries, e, limits);
              AppendFacts(entries, e);
              assert SizeOf(e) == |e.data| by { EntryDataIsFileData(e, limits); }
              ParseStreamSound(tar[next..], None, entries + [e], limits);
            }
        }
      }
    }
  }

  lemma {:induction false} ParseSound(tar: seq<byte>, limits: Limits)
    ensures var r := Parse(tar, limits);
            r.Ok? ==> WellFormed(r.value, limits) && CanonicalSize(r.value) + 1024 <= |tar| <= limits.maxUnpackedBytes
  {
    if ValidLimits(limits) {
      ParseStreamSound(tar, None, [], limits);
    }
  }
}
