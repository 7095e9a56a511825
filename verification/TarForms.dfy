/**
 * The three ways an archive can name a member: the ustar fields, a PAX `path` record and a GNU long-path payload. A
 * printer lays a member out under any stack of such extensions, and the reader gives exactly the members back.
 */
module TarForms {
  import opened Common
  import opened TarText
  import opened TarFormat
  import opened TarReader
  import opened TarCanonical

  // ---------------------------------------------------------------- PAX records

  function DecimalText(n: nat): (s: seq<byte>)
    ensures s != [] && forall i | 0 <= i < |s| :: 48 <= s[i] < 58
    ensures n > 0 ==> s[0] != 48
  {
    if n < 10 then [48 + n] else DecimalText(n / 10) + [48 + n % 10]
  }

  lemma {:induction false} DecimalTextValue(n: nat)
    ensures DecimalValue(DecimalText(n)) == n
  {
    if n < 10 {
      assert [48 + n][..0] == [];
    } else {
      var high := DecimalText(n / 10);
      assert DecimalText(n)[..|high|] == high;
      DecimalTextValue(n / 10);
    }
  }

  lemma {:induction false} DecimalTextGrows(a: nat, b: nat)
    requires a <= b
    ensures |DecimalText(a)| <= |DecimalText(b)| <= 1 + b / 10
  {
    if b >= 10 {
      DecimalTextGrows(if a < 10 then 0 else a / 10, b / 10);
    }
  }

  /** How many digits a record length takes when it counts them and `body` more bytes; at least `digits`. */
  function LengthDigits(body: nat, digits: nat): (d: nat)
    requires 0 < digits <= body + 2 && digits <= |DecimalText(body + digits)|
    ensures |DecimalText(body + d)| == d
    decreases body + 2 - digits
  {
    DecimalTextGrows(body + digits, body + digits + 1);
    DecimalTextGrows(body + digits, body + digits);
    if |DecimalText(body + digits)| == digits then digits else LengthDigits(body, digits + 1)
  }

  datatype Attribute = Attribute(key: seq<byte>, value: seq<byte>)

  const SPACE: byte := 32
  const EQUALS: byte := 61
  const NEWLINE: byte := 10

  /** A key the reader can find the end of, and a value that decodes to itself. */
  predicate GoodAttribute(a: Attribute) {
    a.key != [] && EQUALS !in a.key && ValidUtf8(a.value) && !StartsWithBom(a.value)
  }

  /** The reader looks at the low seven bits of a key. */
  predicate NamesPath(a: Attribute) { Ascii(a.key) == PATH_KEY }

  function RecordBody(a: Attribute): seq<byte> { a.key + [EQUALS] + a.value + [NEWLINE] }

  function RecordLength(a: Attribute): (n: nat)
    ensures n == |DecimalText(n)| + 1 + |RecordBody(a)|
  {
    var body := 1 + |RecordBody(a)|;
    body + LengthDigits(body, 1)
  }

  /** "<length> <key>=<value>" and a newline, the length counting the whole record. */
  function RecordBytes(a: Attribute): (r: seq<byte>)
    ensures |r| == RecordLength(a)
  {
    DecimalText(RecordLength(a)) + [SPACE] + RecordBody(a)
  }

  function RecordsBytes(attributes: seq<Attribute>): seq<byte> {
    if attributes == [] then [] else RecordBytes(attributes[0]) + RecordsBytes(attributes[1..])
  }

  /** The value of the last record that names a path, if there is one. */
  function LastPath(attributes: seq<Attribute>): Option<seq<byte>> {
    if attributes == [] then None
    else
      var last := attributes[|attributes| - 1];
      if NamesPath(last) then Some(last.value) else LastPath(attributes[..|attributes| - 1])
  }

  lemma {:induction false} IndexIs(s: seq<byte>, b: byte, from: nat, at: nat)
    requires from <= at < |s| && s[at] == b && forall i | from <= i < at :: s[i] != b
    ensures IndexOf(s, b, from) == Some(at)
  {
  }

  lemma {:induction false} BodyReads(a: Attribute)
    requires GoodAttribute(a)
    ensures var b := RecordBody(a);
            && b[|b| - 1] == NEWLINE && IndexOf(b, EQUALS, 0) == Some(|a.key|)
            && b[..|a.key|] == a.key && Decode(b[|a.key| + 1..|b| - 1]) == Some(a.value)
  {
    hide IndexOf, ValidUtf8;
    var b := RecordBody(a);
    forall i | 0 <= i < |a.key| ensures b[i] != EQUALS { assert b[i] == a.key[i]; }
    IndexIs(b, EQUALS, 0, |a.key|);
    assert b[|a.key| + 1..|b| - 1] == a.value;
  }

  /** Where the parts of a record lie inside a payload. */
  lemma {:induction false} RecordParts(before: seq<byte>, a: Attribute, rest: seq<byte>)
    ensures var data, at, text := before + RecordBytes(a) + rest, |before|, DecimalText(RecordLength(a));
            var space := at + |text|;
            && space + 1 < at + RecordLength(a) <= |data|
            && data[at..space] == text && IndexOf(data, SPACE, at) == Some(space)
            && data[space + 1..at + RecordLength(a)] == RecordBody(a)
  {
    assert |RecordBody(a)| >= 2;
    hide IndexOf, RecordLength, RecordBody, DecimalText;
    var data, at, text := before + RecordBytes(a) + rest, |before|, DecimalText(RecordLength(a));
    var space := at + |text|;
    assert data == before + text + [SPACE] + RecordBody(a) + rest;
    assert data[at..space] == text;
    forall i | at <= i < space ensures data[i] != SPACE { assert data[i] == text[i - at]; }
    IndexIs(data, SPACE, at, space);
  }

  lemma {:induction false} RecordReads(before: seq<byte>, a: Attribute, rest: seq<byte>)
    requires GoodAttribute(a)
    ensures |before| < |before + RecordBytes(a) + rest|
    ensures ReadPaxRecord(before + RecordBytes(a) + rest, |before|)
            == Ok(PaxRecord(Ascii(a.key), a.value, |before| + RecordLength(a)))
  {
    hide IndexOf, RecordLength, RecordBytes, RecordBody, DecimalText, Decode, DecimalValue;
    var text := DecimalText(RecordLength(a));
    RecordParts(before, a, rest);
    BodyReads(a);
    DecimalTextValue(RecordLength(a));
    assert Ascii(text) == text;
  }

  predicate GoodAttributes(attributes: seq<Attribute>) {
    forall i | 0 <= i < |attributes| :: GoodAttribute(attributes[i])
  }

  lemma {:induction false} LastPathCons(a: Attribute, rest: seq<Attribute>)
    ensures LastPath([a] + rest)
            == if LastPath(rest).Some? then LastPath(rest) else if NamesPath(a) then Some(a.value) else None
  {
    if rest == [] {
      assert [a] + rest == [a] && [a][..0] == [];
    } else {
      assert ([a] + rest)[..|rest|] == [a] + rest[..|rest| - 1];
      LastPathCons(a, rest[..|rest| - 1]);
    }
  }

  /** Reading printed records forward finds the last path among them. */
  lemma {:induction false} RecordsRead(before: seq<byte>, attributes: seq<Attribute>, path: Option<seq<byte>>)
    requires GoodAttributes(attributes) && (path.Some? ==> ValidUtf8(path.value))
    ensures PaxPath(before + RecordsBytes(attributes), |before|, path)
            == Ok(if LastPath(attributes).Some? then LastPath(attributes) else path)
    decreases |attributes|
  {
    hide ReadPaxRecord, RecordBytes, RecordLength, ValidUtf8;
    if attributes == [] {
      assert before + RecordsBytes(attributes) == before;
    } else {
      var a, rest := attributes[0], attributes[1..];
      assert attributes == [a] + rest;
      var data := before + RecordsBytes(attributes);
      assert data == before + RecordBytes(a) + RecordsBytes(rest);
      RecordReads(before, a, RecordsBytes(rest));
      LastPathCons(a, rest);
      hide LastPath;
      RecordsRead(before + RecordBytes(a), rest, if NamesPath(a) then Some(a.value) else path);
    }
  }

  // ---------------------------------------------------------------- one extension member

  /** The payload of an extension: PAX records, global PAX records, or a GNU long path. */
  datatype Notice =
    | Pax(attributes: seq<Attribute>)
    | Global(attributes: seq<Attribute>)
    | LongPath(path: seq<byte>, newline: bool, tail: seq<byte>)

  /** An extension member, under a header name of its own that means nothing. */
  datatype Preamble = Preamble(under: UstarName, mode: nat, notice: Notice)

  predicate GoodNotice(n: Notice) {
    match n
    case Pax(attributes) => GoodAttributes(attributes)
    case Global(attributes) => GoodAttributes(attributes) && LastPath(attributes) == None
    case LongPath(path, newline, tail) =>
      && ValidUtf8(path) && NulFree(path) && !StartsWithBom(path)
      && (!newline ==> path == [] || path[|path| - 1] != NEWLINE)
      && (tail == [] || tail[0] == 0)
  }

  function NoticeBytes(n: Notice): seq<byte> {
    match n
    case Pax(attributes) => RecordsBytes(attributes)
    case Global(attributes) => RecordsBytes(attributes)
    case LongPath(path, newline, tail) => path + (if newline then [NEWLINE] else []) + tail
  }

  /** 'x', 'g' and 'L'. */
  function NoticeByte(n: Notice): byte {
    match n
    case Pax(_) => 120
    case Global(_) => 103
    case LongPath(_, _, _) => 76
  }

  /** The path an extension gives the next member. */
  function Announces(n: Notice): Option<seq<byte>> {
    match n
    case Pax(attributes) => LastPath(attributes)
    case Global(_) => None
    case LongPath(path, _, _) => Some(path)
  }

  lemma {:induction false} UntilNulOfTail(s: seq<byte>, tail: seq<byte>)
    requires NulFree(s) && (tail == [] || tail[0] == 0)
    ensures UntilNul(s + tail) == s
  {
    if s == [] {
      assert s + tail == tail;
    } else {
      assert (s + tail)[1..] == s[1..] + tail;
      UntilNulOfTail(s[1..], tail);
    }
  }

  lemma {:induction false} NewlineKeepsUtf8(path: seq<byte>)
    requires ValidUtf8(path) && !StartsWithBom(path)
    ensures Decode(path + [NEWLINE]) == Some(path + [NEWLINE])
  {
    hide ValidUtf8;
    AsciiSplitsUtf8(path, NEWLINE, []);
    assert ValidUtf8([]) by { EmptyIsValid(); }
    assert path + [NEWLINE] + [] == path + [NEWLINE];
    var s := path + [NEWLINE];
    if |path| >= 3 { assert s[..3] == path[..3]; }
    if |path| == 2 { assert s[..3][2] == NEWLINE; }
  }

  lemma {:induction false} EmptyIsValid()
    ensures ValidUtf8([])
  {
  }

  lemma {:induction false} LongPathReads(n: Notice)
    requires n.LongPath? && GoodNotice(n)
    ensures GnuLongPath(NoticeBytes(n)) == Ok(n.path)
  {
    hide UntilNul, ValidUtf8;
    var text := n.path + if n.newline then [NEWLINE] else [];
    UntilNulOfTail(text, n.tail);
    if n.newline { NewlineKeepsUtf8(n.path); } else { assert text == n.path; }
  }

  /** What an extension leaves pending: the path it announces, or what was pending before it. */
  function Leaves(n: Notice, pending: Option<seq<byte>>): Option<seq<byte>> {
    if Announces(n).Some? then Announces(n) else pending
  }

  lemma {:induction false} NoticeReads(header: seq<byte>, fixed: Fixed, n: Notice, next: nat,
                                       pending: Option<seq<byte>>)
    requires |header| == 512 && fixed.kind == NoticeByte(n) && GoodNotice(n)
    ensures ReadTyped(header, fixed, NoticeBytes(n), next, pending) == Ok(Extension(Leaves(n, pending), next))
  {
    hide PaxPath, GnuLongPath, LastPath, RecordsBytes, GoodAttributes;
    match n {
      case Pax(attributes) =>
        RecordsRead([], attributes, None);
        assert [] + RecordsBytes(attributes) == RecordsBytes(attributes);
      case Global(attributes) =>
        RecordsRead([], attributes, None);
        assert [] + RecordsBytes(attributes) == RecordsBytes(attributes);
      case LongPath(_, _, _) =>
        LongPathReads(n);
    }
  }

  /** A global header that does carry a path is refused. */
  lemma {:induction false} GlobalPathRefused(header: seq<byte>, fixed: Fixed, attributes: seq<Attribute>, next: nat,
                                             pending: Option<seq<byte>>)
    requires |header| == 512 && fixed.kind == 103 && GoodAttributes(attributes) && LastPath(attributes).Some?
    ensures ReadTyped(header, fixed, RecordsBytes(attributes), next, pending) == Err(GlobalPaxPath)
  {
    hide PaxPath, GnuLongPath, LastPath, RecordsBytes, GoodAttributes;
    RecordsRead([], attributes, None);
    assert [] + RecordsBytes(attributes) == RecordsBytes(attributes);
  }

  // ---------------------------------------------------------------- a member of any kind

  /** A path field that reads without error. */
  predicate GoodName(u: UstarName) {
    |u.name| <= 100 && |u.prefix| <= 155 && NulFree(u.name) && NulFree(u.prefix) && ValidUtf8(u.name)
    && ValidUtf8(u.prefix)
  }

  function PaddedData(data: seq<byte>): (r: seq<byte>)
    ensures |r| == Padded(|data|) && r[..|data|] == data
  {
    data + Repeat(0, Padded(|data|) - |data|)
  }

  predicate GoodBlock(h: Header, data: seq<byte>, limits: Limits) {
    HeaderFits(h) && GoodName(h.path) && h.size == |data| <= limits.maxEntryBytes
  }

  function MemberBytes(h: Header, data: seq<byte>): seq<byte>
    requires HeaderFits(h)
  {
    BlockBytes(h) + PaddedData(data)
  }

  /** The reader cuts a printed member into its header, its fields and its data. */
  lemma {:induction false} MemberReads(h: Header, data: seq<byte>, rest: seq<byte>, pending: Option<seq<byte>>,
                                       limits: Limits)
    requires GoodBlock(h, data, limits)
    ensures var tar, next := MemberBytes(h, data) + rest, 512 + Padded(|data|);
            var fixed := Fixed(DropBom(h.path.name), DropBom(h.path.prefix), h.size, h.kind);
            && |tar| >= next && !AllZero(tar[..512]) && tar[next..] == rest
            && ReadMember(tar, pending, limits) == ReadTyped(BlockBytes(h), fixed, data, next, pending)
  {
    hide BlockBytes, ReadFixed, ReadTyped, AllZero, DropBom, HeaderFits, NulFree, ValidUtf8;
    var tar := MemberBytes(h, data) + rest;
    assert tar[..512] == BlockBytes(h);
    assert tar[512..512 + |data|] == PaddedData(data)[..|data|];
    BlockIsNotZero(h);
    ReadBlock(h);
  }

  function PreambleHeader(x: Preamble): Header {
    Header(x.under, x.mode, |NoticeBytes(x.notice)|, NoticeByte(x.notice))
  }

  predicate GoodPreamble(x: Preamble, limits: Limits) {
    GoodNotice(x.notice) && GoodBlock(PreambleHeader(x), NoticeBytes(x.notice), limits)
  }

  predicate GoodPreambles(xs: seq<Preamble>, limits: Limits) {
    forall i | 0 <= i < |xs| :: GoodPreamble(xs[i], limits)
  }

  predicate PreamblesFit(xs: seq<Preamble>) { forall i | 0 <= i < |xs| :: HeaderFits(PreambleHeader(xs[i])) }

  function PreamblesBytes(xs: seq<Preamble>): seq<byte>
    requires PreamblesFit(xs)
  {
    if xs == [] then []
    else MemberBytes(PreambleHeader(xs[0]), NoticeBytes(xs[0].notice)) + PreamblesBytes(xs[1..])
  }

  /** The path pending after a stack of extensions: that of the last one which announces any. */
  function Pending(xs: seq<Preamble>): Option<seq<byte>> {
    if xs == [] then None else Leaves(xs[|xs| - 1].notice, Pending(xs[..|xs| - 1]))
  }

  lemma {:induction false} PendingCons(x: Preamble, rest: seq<Preamble>)
    ensures Pending([x] + rest) == if Pending(rest).Some? then Pending(rest) else Announces(x.notice)
  {
    hide Announces;
    if rest == [] {
      assert [x] + rest == [x] && [x][..0] == [];
    } else {
      assert ([x] + rest)[..|rest|] == [x] + rest[..|rest| - 1];
      PendingCons(x, rest[..|rest| - 1]);
    }
  }

  lemma {:induction false} PreambleStep(x: Preamble, rest: seq<byte>, pending: Option<seq<byte>>,
                                        entries: seq<TarEntry>, limits: Limits)
    requires GoodPreamble(x, limits)
    ensures ParseStream(MemberBytes(PreambleHeader(x), NoticeBytes(x.notice)) + rest, pending, entries, limits)
            == ParseStream(rest, Leaves(x.notice, pending), entries, limits)
  {
    var h, data := PreambleHeader(x), NoticeBytes(x.notice);
    assert HeaderFits(h);
    hide MemberBytes, BlockBytes, ReadMember, ReadTyped, GoodNotice, GoodBlock, NoticeBytes, NoticeByte, AllZero,
      Leaves, DropBom;
    MemberReads(h, data, rest, pending, limits);
    var fixed := Fixed(DropBom(h.path.name), DropBom(h.path.prefix), h.size, h.kind);
    NoticeReads(BlockBytes(h), fixed, x.notice, 512 + Padded(|data|), pending);
  }

  /** A stack of extensions is read through to whatever follows, with the last announced path pending. */
  lemma {:induction false} PreamblesStream(xs: seq<Preamble>, rest: seq<byte>, pending: Option<seq<byte>>,
                                           entries: seq<TarEntry>, limits: Limits)
    requires GoodPreambles(xs, limits)
    ensures PreamblesFit(xs)
    ensures ParseStream(PreamblesBytes(xs) + rest, pending, entries, limits)
            == ParseStream(rest, if Pending(xs).Some? then Pending(xs) else pending, entries, limits)
    decreases |xs|
  {
    hide MemberBytes, ParseStream, Announces, GoodNotice, NoticeBytes;
    assert forall i | 0 <= i < |xs| :: GoodPreamble(xs[i], limits) && HeaderFits(PreambleHeader(xs[i]));
    hide HeaderFits;
    if xs == [] {
      assert PreamblesBytes(xs) + rest == rest;
    } else {
      var x, more := xs[0], xs[1..];
      var bytes := MemberBytes(PreambleHeader(x), NoticeBytes(x.notice));
      assert PreamblesBytes(xs) + rest == bytes + (PreamblesBytes(more) + rest);
      PreambleStep(x, PreamblesBytes(more) + rest, pending, entries, limits);
      assert xs == [x] + more;
      PendingCons(x, more);
      hide Pending;
      PreamblesStream(more, rest, Leaves(x.notice, pending), entries, limits);
    }
  }

  // ---------------------------------------------------------------- an entry in any of its forms

  /** An entry under its extensions: the ustar name counts only when no extension announces a path. */
  datatype Form = Form(extensions: seq<Preamble>, path: UstarName, kind: byte, entry: TarEntry)

  function FormHeader(f: Form): Header { Header(f.path, f.entry.mode, |f.entry.data|, f.kind) }

  predicate NamesEntry(f: Form) {
    match Pending(f.extensions)
    case Some(path) => path == f.entry.path
    case None =>
      !StartsWithBom(f.path.name) && !StartsWithBom(f.path.prefix)
      && JoinPath(f.path.prefix, f.path.name) == f.entry.path
  }

  predicate KindFits(f: Form) { if f.entry.kind == File then f.kind == 0 || f.kind == 48 else f.kind == 53 }

  predicate GoodForm(f: Form, limits: Limits) {
    GoodPreambles(f.extensions, limits) && GoodBlock(FormHeader(f), f.entry.data, limits)
    && NamesEntry(f) && KindFits(f)
  }

  predicate GoodForms(forms: seq<Form>, limits: Limits) {
    forall i | 0 <= i < |forms| :: GoodForm(forms[i], limits)
  }

  predicate FormFits(f: Form) { PreamblesFit(f.extensions) && HeaderFits(FormHeader(f)) }

  predicate FormsFit(forms: seq<Form>) { forall i | 0 <= i < |forms| :: FormFits(forms[i]) }

  function FormBytes(f: Form): seq<byte>
    requires FormFits(f)
  {
    PreamblesBytes(f.extensions) + MemberBytes(FormHeader(f), f.entry.data)
  }

  function FormsBytes(forms: seq<Form>): seq<byte>
    requires FormsFit(forms)
  {
    if forms == [] then [] else FormBytes(forms[0]) + FormsBytes(forms[1..])
  }

  function EntriesOf(forms: seq<Form>): seq<TarEntry> { seq(|forms|, i requires 0 <= i < |forms| => forms[i].entry) }

  lemma {:induction false} EntryReads(f: Form, limits: Limits)
    requires GoodForm(f, limits) && WellFormedEntry(f.entry, limits)
    ensures HeaderFits(FormHeader(f))
    ensures var fixed := Fixed(DropBom(f.path.name), DropBom(f.path.prefix), |f.entry.data|, f.kind);
            ReadTyped(BlockBytes(FormHeader(f)), fixed, f.entry.data, 512 + Padded(|f.entry.data|),
                      Pending(f.extensions))
            == Ok(Plain(f.entry, 512 + Padded(|f.entry.data|)))
  {
    hide BlockBytes, ParseOctal, OctalField, SafePath, Pending, GoodPreambles, ValidUtf8, NulFree, FitsField;
    BlockSlices(FormHeader(f));
    OctalFieldReadsBack(f.entry.mode, 8);
  }

  lemma {:induction false} FormIsFit(f: Form, limits: Limits)
    requires GoodForm(f, limits)
    ensures FormFits(f)
  {
    hide HeaderFits, GoodName, GoodNotice, NamesEntry, KindFits;
    assert forall i | 0 <= i < |f.extensions| :: GoodPreamble(f.extensions[i], limits);
  }

  lemma {:induction false} PlainStep(f: Form, rest: seq<byte>, entries: seq<TarEntry>, limits: Limits)
    requires GoodForm(f, limits) && WellFormedEntry(f.entry, limits) && Admit(entries, f.entry, limits).Ok?
    ensures HeaderFits(FormHeader(f))
    ensures ParseStream(MemberBytes(FormHeader(f), f.entry.data) + rest, Pending(f.extensions), entries, limits)
            == ParseStream(rest, None, entries + [f.entry], limits)
  {
    FormIsFit(f, limits);
    hide MemberBytes, BlockBytes, ReadMember, ReadTyped, AllZero, DropBom, GoodPreambles, WellFormedEntry, Admit,
      Pending, HeaderFits, NamesEntry, KindFits, GoodBlock, FormFits, PreamblesFit;
    EntryReads(f, limits);
    MemberReads(FormHeader(f), f.entry.data, rest, Pending(f.extensions), limits);
  }

  /** An entry in any of its forms is read as that entry. */
  lemma {:induction false} FormStep(f: Form, rest: seq<byte>, entries: seq<TarEntry>, limits: Limits)
    requires GoodForm(f, limits) && WellFormedEntry(f.entry, limits) && Admit(entries, f.entry, limits).Ok?
    ensures FormFits(f)
    ensures ParseStream(FormBytes(f) + rest, None, entries, limits)
            == ParseStream(rest, None, entries + [f.entry], limits)
  {
    FormIsFit(f, limits);
    hide MemberBytes, ParseStream, PreamblesBytes, GoodPreambles, WellFormedEntry, Admit, Pending, HeaderFits,
      NamesEntry, KindFits, GoodBlock, PreamblesFit;
    var bytes := MemberBytes(FormHeader(f), f.entry.data);
    assert FormBytes(f) + rest == PreamblesBytes(f.extensions) + (bytes + rest);
    PreamblesStream(f.extensions, bytes + rest, None, entries, limits);
    PlainStep(f, rest, entries, limits);
  }

  lemma {:induction false} FormsAreFit(forms: seq<Form>, limits: Limits)
    requires GoodForms(forms, limits)
    ensures FormsFit(forms)
  {
    hide GoodForm, FormFits;
    forall i | 0 <= i < |forms| ensures FormFits(forms[i]) { FormIsFit(forms[i], limits); }
  }

  lemma {:induction false} EntriesOfCons(forms: seq<Form>, before: seq<TarEntry>)
    requires forms != []
    ensures before + EntriesOf(forms) == before + [forms[0].entry] + EntriesOf(forms[1..])
  {
  }

  lemma {:induction false} MiddleIsWellFormed(before: seq<TarEntry>, e: TarEntry, after: seq<TarEntry>, limits: Limits)
    requires WellFormed(before + [e] + after, limits)
    ensures WellFormedEntry(e, limits)
  {
    hide WellFormedEntry, FileCount, TotalBytes, DistinctPaths;
    assert (before + [e] + after)[|before|] == e;
  }

  lemma {:induction false} FormsStream(forms: seq<Form>, rest: seq<byte>, before: seq<TarEntry>, limits: Limits)
    requires GoodForms(forms, limits) && WellFormed(before + EntriesOf(forms), limits)
    ensures FormsFit(forms)
    ensures ParseStream(FormsBytes(forms) + rest, None, before, limits)
            == ParseStream(rest, None, before + EntriesOf(forms), limits)
    decreases |forms|
  {
    hide FormBytes, ParseStream, GoodForm, Admit, WellFormedEntry, FormFits, WellFormed;
    FormsAreFit(forms, limits);
    if forms == [] {
      assert FormsBytes(forms) + rest == rest;
      assert before + EntriesOf(forms) == before;
    } else {
      var f, more := forms[0], forms[1..];
      EntriesOfCons(forms, before);
      hide EntriesOf;
      PrefixAdmits(before, f.entry, EntriesOf(more), limits);
      MiddleIsWellFormed(before, f.entry, EntriesOf(more), limits);
      FormsStream(more, rest, before + [f.entry], limits);
      FormStep(f, FormsBytes(more) + rest, before, limits);
      assert FormsBytes(forms) + rest == FormBytes(f) + (FormsBytes(more) + rest);
    }
  }

  lemma {:induction false} FinishAfter(pending: Option<seq<byte>>, entries: seq<TarEntry>, limits: Limits)
    ensures ParseStream(Repeat(0, 1024), pending, entries, limits)
            == if pending.None? then Ok(entries) else Err(DanglingPathExtension)
  {
  }

  /**
   * Every archive of printed forms, with any extensions after the last, is accepted with exactly the printed entries
   * if and only if those are well-formed and no announced path is left over.
   */
  lemma {:induction false} FormsRead(forms: seq<Form>, trailing: seq<Preamble>, limits: Limits)
    requires ValidLimits(limits) && GoodForms(forms, limits) && GoodPreambles(trailing, limits)
    requires FormsFit(forms) && PreamblesFit(trailing)
    requires |FormsBytes(forms)| + |PreamblesBytes(trailing)| + 1024 <= limits.maxUnpackedBytes
    ensures Parse(FormsBytes(forms) + PreamblesBytes(trailing) + Repeat(0, 1024), limits) == Ok(EntriesOf(forms))
            <==> WellFormed(EntriesOf(forms), limits) && Pending(trailing) == None
  {
    hide FormsBytes, PreamblesBytes, ParseStream, WellFormed, EntriesOf, GoodForms, GoodPreambles, FormsFit,
      PreamblesFit,
      Pending;
    var entries, tail := EntriesOf(forms), PreamblesBytes(trailing) + Repeat(0, 1024);
    var tar := FormsBytes(forms) + PreamblesBytes(trailing) + Repeat(0, 1024);
    assert tar == FormsBytes(forms) + tail;
    ParseSound(tar, limits);
    if WellFormed(entries, limits) {
      assert [] + entries == entries;
      FormsStream(forms, tail, [], limits);
      PreamblesStream(trailing, Repeat(0, 1024), None, entries, limits);
      FinishAfter(Pending(trailing), entries, limits);
    }
  }
}
