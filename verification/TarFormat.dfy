/** The ustar member format: what the reader extracts from a block and what the canonical writer lays out. */
module TarFormat {
  import opened Common
  import opened TarText

  datatype Kind = File | Directory

  datatype TarEntry = TarEntry(path: seq<byte>, mode: nat, kind: Kind, data: seq<byte>)

  datatype Limits = Limits(maxUnpackedBytes: int, maxEntryBytes: int, maxFileCount: int)

  datatype TarError =
    | BadLimits
    | UnpackedTooLarge
    | DanglingPathExtension
    | MissingSecondZeroBlock
    | DataAfterTerminator
    | MissingTerminator
    | NotOctal
    | ChecksumMismatch
    | InvalidUtf8
    | EntryTooLarge
    | Truncated
    | BadPax
    | GlobalPaxPath
    | UnsafePath
    | UnsafeMode
    | UnsupportedType
    | DirectoryWithData
    | DuplicateMember
    | TooManyFiles
    | FileDataTooLarge
    | PathTooLong
    | NumberTooLarge

  function OrFail<T>(o: Option<T>, e: TarError): Result<T, TarError> {
    match o
    case Some(v) => Ok(v)
    case None => Err(e)
  }

  function Check(ok: bool, e: TarError): (r: Result<(), TarError>) {
    if ok then Ok(()) else Err(e)
  }

  predicate AllZero(s: seq<byte>) { forall i | 0 <= i < |s| :: s[i] == 0 }

  function Padded(size: nat): (p: nat)
    ensures p % 512 == 0 && size <= p < size + 512
  {
    (size + 511) / 512 * 512
  }

  // ---------------------------------------------------------------- checksum

  function Sum(s: seq<byte>): nat {
    if s == [] then 0 else Sum(s[..|s| - 1]) + s[|s| - 1]
  }

  lemma {:induction false} SumConcat(a: seq<byte>, b: seq<byte>)
    ensures Sum(a + b) == Sum(a) + Sum(b)
  {
    if b == [] {
      assert a + b == a;
    } else {
      var s := a + b;
      assert s[..|s| - 1] == a + b[..|b| - 1];
      SumConcat(a, b[..|b| - 1]);
    }
  }

  lemma {:induction false} SumBound(s: seq<byte>)
    ensures Sum(s) <= 255 * |s|
  {
    if s != [] { SumBound(s[..|s| - 1]); }
  }

  /** The header sum with its own checksum field read as spaces. */
  function HeaderSum(header: seq<byte>): nat
    requires |header| == 512
  {
    Sum(header[..148]) + 8 * 32 + Sum(header[156..])
  }

  // ---------------------------------------------------------------- safe member paths

  const SLASH: byte := 47
  const BACKSLASH: byte := 92
  const PACKAGE: seq<byte> := [112, 97, 99, 107, 97, 103, 101]

  predicate StartsWith(s: seq<byte>, prefix: seq<byte>) { |prefix| <= |s| && s[..|prefix|] == prefix }

  /** s[i..j] is one of the pieces of s.split("/"). */
  predicate IsSegment(s: seq<byte>, i: int, j: int)
    requires 0 <= i <= j <= |s|
  {
    && (i == 0 || s[i - 1] == SLASH)
    && (j == |s| || s[j] == SLASH)
    && forall k | i <= k < j :: s[k] != SLASH
  }

  predicate SafeSegments(s: seq<byte>) {
    forall i, j | 0 <= i <= j <= |s| && IsSegment(s, i, j) :: s[i..j] != [] && s[i..j] != [46] && s[i..j] != [46, 46]
  }

  function WithoutTrailingSlash(path: seq<byte>): seq<byte> {
    if path != [] && path[|path| - 1] == SLASH then path[..|path| - 1] else path
  }

  predicate SafePath(path: seq<byte>) {
    var n := WithoutTrailingSlash(path);
    && (n == PACKAGE || StartsWith(n, PACKAGE + [SLASH]))
    && BACKSLASH !in n
    && NulFree(n)
    && SafeSegments(n)
  }

  predicate SafeMode(mode: nat) { mode < 512 && mode / 2 % 2 == 0 }

  // ---------------------------------------------------------------- PAX and GNU path extensions

  function IndexOf(s: seq<byte>, b: byte, from: nat): (r: Option<nat>)
    requires from <= |s|
    ensures r.Some? ==> from <= r.value < |s| && s[r.value] == b && forall i | from <= i < r.value :: s[i] != b
    ensures r.None? ==> forall i | from <= i < |s| :: s[i] != b
    decreases |s| - from
  {
    if from == |s| then None
    else if s[from] == b then Some(from)
    else IndexOf(s, b, from + 1)
  }

  function DecimalValue(s: seq<byte>): nat
    requires forall i | 0 <= i < |s| :: 48 <= s[i] < 58
  {
    if s == [] then 0 else DecimalValue(s[..|s| - 1]) * 10 + (s[|s| - 1] - 48)
  }

  predicate IsRecordLength(s: seq<byte>) {
    s != [] && s[0] != 48 && forall i | 0 <= i < |s| :: 48 <= s[i] < 58
  }

  datatype PaxRecord = PaxRecord(key: seq<byte>, value: seq<byte>, end: nat)

  /** One "<length> <key>=<value>\n" record starting at `offset`. */
  function ReadPaxRecord(data: seq<byte>, offset: nat): (r: Result<PaxRecord, TarError>)
    requires offset < |data|
    ensures r.Ok? ==> offset < r.value.end <= |data| && ValidUtf8(r.value.value)
  {
    var space :- OrFail(IndexOf(data, 32, offset), BadPax);
    var text := Ascii(data[offset..space]);
    var _ :- Check(IsRecordLength(text), BadPax);
    var end := offset + DecimalValue(text);
    var _ :- Check(end <= |data| && end > space + 1, BadPax);
    var record := data[space + 1..end];
    var _ :- Check(record[|record| - 1] == 10, BadPax);
    var equals :- OrFail(IndexOf(record, 61, 0), BadPax);
    var _ :- Check(equals > 0, BadPax);
    var value :- OrFail(Decode(record[equals + 1..|record| - 1]), InvalidUtf8);
    DecodedIsValid(record[equals + 1..|record| - 1]);
    Ok(PaxRecord(Ascii(record[..equals]), value, end))
  }

  const PATH_KEY: seq<byte> := [112, 97, 116, 104]

  /** The `path` attribute after reading every record from `offset` on; a later record overrides an earlier one. */
  function PaxPath(data: seq<byte>, offset: nat, path: Option<seq<byte>>): (r: Result<Option<seq<byte>>, TarError>)
    requires offset <= |data|
    requires path.Some? ==> ValidUtf8(path.value)
    ensures r.Ok? && r.value.Some? ==> ValidUtf8(r.value.value)
    decreases |data| - offset
  {
    if offset == |data| then Ok(path)
    else
      var record :- ReadPaxRecord(data, offset);
      PaxPath(data, record.end, if record.key == PATH_KEY then Some(record.value) else path)
  }

  /** The loop of parsePaxAttributes, keeping the one attribute the parser uses. */
  method ParsePaxAttributes(data: seq<byte>) returns (r: Result<Option<seq<byte>>, TarError>)
    ensures r == PaxPath(data, 0, None)
  {
    var offset, path := 0, None;
    while offset < |data|
      invariant offset <= |data|
      invariant path.Some? ==> ValidUtf8(path.value)
      invariant PaxPath(data, offset, path) == PaxPath(data, 0, None)
    {
      var record := ReadPaxRecord(data, offset);
      if record.Err? { return Err(record.error); }
      if record.value.key == PATH_KEY { path := Some(record.value.value); }
      offset := record.value.end;
    }
    return Ok(path);
  }

  function GnuLongPath(data: seq<byte>): (r: Result<seq<byte>, TarError>)
    ensures r.Ok? ==> ValidUtf8(r.value)
  {
    var s :- OrFail(Decode(UntilNul(data)), InvalidUtf8);
    DecodedIsValid(UntilNul(data));
    if s != [] && s[|s| - 1] == 10 then
      assert s == s[..|s| - 1] + [10] + [];
      AsciiSplitsUtf8(s[..|s| - 1], 10, []);
      Ok(s[..|s| - 1])
    else Ok(s)
  }

  // ---------------------------------------------------------------- reading one member

  /** What one header with its payload contributes: a pending path or an entry. */
  datatype Member =
    | Extension(pending: Option<seq<byte>>, next: nat)
    | Plain(entry: TarEntry, next: nat)

  function JoinPath(prefix: seq<byte>, name: seq<byte>): seq<byte> {
    if prefix == [] then name else prefix + [SLASH] + name
  }

  datatype Fixed = Fixed(name: seq<byte>, prefix: seq<byte>, size: nat, kind: byte)

  /** Checksum, paths and size: the fields read for every member. */
  function ReadFixed(header: seq<byte>): (r: Result<Fixed, TarError>)
    requires |header| == 512
    ensures r.Ok? ==> ValidUtf8(r.value.name) && ValidUtf8(r.value.prefix)
  {
    var stored :- OrFail(ParseOctal(header[148..156]), NotOctal);
    var _ :- Check(stored == HeaderSum(header), ChecksumMismatch);
    var name :- OrFail(Decode(UntilNul(header[0..100])), InvalidUtf8);
    var prefix :- OrFail(Decode(UntilNul(header[345..500])), InvalidUtf8);
    var size :- OrFail(ParseOctal(header[124..136]), NotOctal);
    DecodedIsValid(UntilNul(header[0..100]));
    DecodedIsValid(UntilNul(header[345..500]));
    Ok(Fixed(name, prefix, size, header[156]))
  }

  /** An ordinary member: path, mode and type checks. */
  function ReadEntry(header: seq<byte>, path: seq<byte>, kind: byte, data: seq<byte>): (r: Result<TarEntry, TarError>)
    requires |header| == 512
    ensures r.Ok? ==> && r.value.path == path && SafePath(path) && SafeMode(r.value.mode) && r.value.data == data
                      && (r.value.kind == Directory ==> data == [])
  {
    var _ :- Check(SafePath(path), UnsafePath);
    var mode :- OrFail(ParseOctal(header[100..108]), NotOctal);
    var _ :- Check(SafeMode(mode), UnsafeMode);
    if kind == 0 || kind == 48 then Ok(TarEntry(path, mode, File, data))
    else if kind == 53 then
      if data == [] then Ok(TarEntry(path, mode, Directory, [])) else Err(DirectoryWithData)
    else Err(UnsupportedType)
  }

  function MemberPath(fixed: Fixed, pending: Option<seq<byte>>): seq<byte> {
    if pending.Some? then pending.value else JoinPath(fixed.prefix, fixed.name)
  }

  /** Dispatch on the type byte, once the payload has been cut out. */
  function ReadTyped(header: seq<byte>, fixed: Fixed, data: seq<byte>, next: nat, pending: Option<seq<byte>>)
    : (r: Result<Member, TarError>)
    requires |header| == 512
    ensures r.Ok? ==> r.value.next == next
  {
    if fixed.kind == 120 || fixed.kind == 103 then
      var path :- PaxPath(data, 0, None);
      var _ :- Check(fixed.kind == 120 || path.None?, GlobalPaxPath);
      Ok(Extension(if path.Some? then path else pending, next))
    else if fixed.kind == 76 then
      var path :- GnuLongPath(data);
      Ok(Extension(Some(path), next))
    else
      var entry :- ReadEntry(header, MemberPath(fixed, pending), fixed.kind, data);
      Ok(Plain(entry, next))
  }

  function ReadMember(tar: seq<byte>, pending: Option<seq<byte>>, limits: Limits): (r: Result<Member, TarError>)
    requires |tar| >= 512
    ensures r.Ok? ==> 512 <= r.value.next <= |tar|
  {
    var fixed :- ReadFixed(tar[..512]);
    var _ :- Check(fixed.size <= limits.maxEntryBytes, EntryTooLarge);
    var next := 512 + Padded(fixed.size);
    var _ :- Check(next <= |tar|, Truncated);
    ReadTyped(tar[..512], fixed, tar[512..512 + fixed.size], next, pending)
  }

  // ---------------------------------------------------------------- writing one member

  /** The cut at the last slash at or below `i` that leaves at most 155 bytes before it and 100 after it. */
  function SplitIndex(path: seq<byte>, i: nat): (r: Option<nat>)
    requires i < |path|
    ensures r.Some? ==> 0 < r.value <= i && path[r.value] == SLASH && r.value <= 155 && |path| - r.value - 1 <= 100
  {
    if i == 0 then None
    else if path[i] == SLASH && i <= 155 && |path| - i - 1 <= 100 then Some(i)
    else SplitIndex(path, i - 1)
  }

  datatype UstarName = UstarName(name: seq<byte>, prefix: seq<byte>)

  function SplitUstarPath(path: seq<byte>): (r: Result<UstarName, TarError>)
    ensures r.Ok? ==> |r.value.name| <= 100 && |r.value.prefix| <= 155 && JoinPath(r.value.prefix, r.value.name) == path
  {
    if |path| <= 100 then Ok(UstarName(path, []))
    else
      var i :- OrFail(SplitIndex(path, |path| - 1), PathTooLong);
      Ok(UstarName(path[i + 1..], path[..i]))
  }

  function PadRight(s: seq<byte>, width: nat): (r: seq<byte>)
    requires |s| <= width
    ensures |r| == width
  {
    s + Repeat(0, width - |s|)
  }

  /** A NUL-terminated octal field of the given width. */
  function OctalField(n: nat, width: nat): (r: seq<byte>)
    requires width > 1 && |OctalText(n)| <= width - 1
    ensures |r| == width
  {
    PadZeros(OctalText(n), width - 1) + [0]
  }

  predicate FitsField(n: nat, width: nat) {
    width > 1 && |OctalText(n)| <= width - 1
  }

  function TypeByte(kind: Kind): byte { if kind == File then 48 else 53 }

  function SizeOf(e: TarEntry): nat { if e.kind == File then |e.data| else 0 }

  predicate Printable(e: TarEntry) {
    SplitUstarPath(e.path).Ok? && FitsField(SizeOf(e), 12)
  }

  const USTAR: seq<byte> := [117, 115, 116, 97, 114, 0, 48, 48]

  lemma {:induction false} SmallNumbersFit(n: nat, width: nat)
    requires width >= 8 && n < 512
    ensures FitsField(n, width)
  {
    OctalTextLength(n, 3);
    assert Pow8(3) == 512;
  }

  /** The fields a header is printed from; owner, group and time are always zero. */
  datatype Header = Header(path: UstarName, mode: nat, size: nat, kind: byte)

  predicate HeaderFits(h: Header) {
    |h.path.name| <= 100 && |h.path.prefix| <= 155 && FitsField(h.mode, 8) && FitsField(h.size, 12)
  }

  /** Bytes 0 to 147: name, mode, uid, gid, size, mtime. */
  function HeaderFront(h: Header): (r: seq<byte>)
    requires HeaderFits(h)
    ensures |r| == 148
  {
    SmallNumbersFit(0, 8);
    SmallNumbersFit(0, 12);
    PadRight(h.path.name, 100) + OctalField(h.mode, 8) + OctalField(0, 8)
    + OctalField(0, 8) + OctalField(h.size, 12) + OctalField(0, 12)
  }

  /** Bytes 156 to 511: type, link name, magic, owner names and devices, prefix, filler. */
  function HeaderBack(h: Header): (r: seq<byte>)
    requires HeaderFits(h)
    ensures |r| == 356
  {
    [h.kind] + Repeat(0, 100) + USTAR + Repeat(0, 80) + PadRight(h.path.prefix, 155) + Repeat(0, 12)
  }

  function ChecksumOf(h: Header): nat
    requires HeaderFits(h)
  {
    Sum(HeaderFront(h)) + 8 * 32 + Sum(HeaderBack(h))
  }

  /** 512 bytes of at most 255 each stay below 8^6, so six digits always suffice. */
  lemma {:induction false} ChecksumFits(h: Header)
    requires HeaderFits(h)
    ensures |OctalText(ChecksumOf(h))| <= 6
  {
    SumBound(HeaderFront(h));
    SumBound(HeaderBack(h));
    OctalTextLength(ChecksumOf(h), 6);
    assert Pow8(6) == 262144 by { assert Pow8(3) == 512; }
  }

  function BlockBytes(h: Header): (r: seq<byte>)
    requires HeaderFits(h)
    ensures |r| == 512
  {
    ChecksumFits(h);
    HeaderFront(h) + PadZeros(OctalText(ChecksumOf(h)), 6) + [0, 32] + HeaderBack(h)
  }

  /** The header the canonical writer gives an entry. */
  function HeaderOf(e: TarEntry): (h: Header)
    requires Printable(e)
    ensures HeaderFits(h)
  {
    SmallNumbersFit(e.mode % 512, 8);
    Header(SplitUstarPath(e.path).value, e.mode % 512, SizeOf(e), TypeByte(e.kind))
  }

  function HeaderBytes(e: TarEntry): (r: seq<byte>)
    requires Printable(e)
    ensures |r| == 512
  {
    BlockBytes(HeaderOf(e))
  }

  function Payload(e: TarEntry): (r: seq<byte>)
    ensures |r| == Padded(SizeOf(e)) && r[..SizeOf(e)] == if e.kind == File then e.data else []
  {
    if e.kind == File then e.data + Repeat(0, Padded(|e.data|) - |e.data|) else []
  }

  function EntryBytes(e: TarEntry): seq<byte>
    requires Printable(e)
  {
    HeaderBytes(e) + Payload(e)
  }
}
