/** Lines of an edit script: how text splits into lines and what each line of the current grammar is. */
module EditGrammar {
  import opened Common

  // ---------------------------------------------------------------- lines

  /** The line boundaries of str.splitlines. */
  predicate IsBreak(c: char) {
    c in {'\n', '\r', '\U{0B}', '\U{0C}', '\U{1C}', '\U{1D}', '\U{1E}', '\U{85}', '\U{2028}', '\U{2029}'}
  }

  /** Where the line holding position `i` ends, its terminator included. */
  function LineEnd(text: string, i: nat): (end: nat)
    requires i < |text|
    ensures i < end <= |text|
    decreases |text| - i
  {
    if text[i] == '\r' && i + 1 < |text| && text[i + 1] == '\n' then i + 2
    else if IsBreak(text[i]) || i + 1 == |text| then i + 1
    else LineEnd(text, i + 1)
  }

  function StripTerminator(s: string): string {
    if s != "" && (s[|s| - 1] == '\r' || s[|s| - 1] == '\n') then StripTerminator(s[..|s| - 1]) else s
  }

  datatype Span = Span(line: string, start: nat, end: nat)

  /** line_spans from position `pos` on. */
  function Spans(text: string, pos: nat): seq<Span>
    requires pos <= |text|
    decreases |text| - pos
  {
    if pos == |text| then []
    else var end := LineEnd(text, pos); [Span(StripTerminator(text[pos..end]), pos, end)] + Spans(text, end)
  }

  /** Cutting the text at a line end leaves the earlier lines as they are. */
  lemma {:induction false} LineEndPrefix(text: string, i: nat, cut: nat)
    requires i < |text| && LineEnd(text, i) <= cut <= |text|
    ensures LineEnd(text[..cut], i) == LineEnd(text, i)
    decreases |text| - i
  {
    if !(text[i] == '\r' && i + 1 < |text| && text[i + 1] == '\n') && !IsBreak(text[i]) && i + 1 < |text| {
      LineEndPrefix(text, i + 1, cut);
    }
  }

  lemma {:induction false} SpansPrefix(text: string, pos: nat, k: nat)
    requires pos <= |text| && 0 < k <= |Spans(text, pos)|
    ensures var cut := Spans(text, pos)[k - 1].end;
            pos < cut <= |text| && Spans(text[..cut], pos) == Spans(text, pos)[..k]
    decreases k
  {
    var spans, end := Spans(text, pos), LineEnd(text, pos);
    var rest := Spans(text, end);
    if k == 1 {
      LineEndPrefix(text, pos, end);
      assert text[..end][pos..end] == text[pos..end];
      assert Spans(text[..end], end) == [];
      assert spans[..1] == [spans[0]];
    } else {
      SpansPrefix(text, end, k - 1);
      var cut := spans[k - 1].end;
      assert cut == rest[k - 2].end;
      LineEndPrefix(text, pos, cut);
      assert text[..cut][pos..end] == text[pos..end];
      assert spans[..k] == [spans[0]] + rest[..k - 1];
    }
  }

  // ---------------------------------------------------------------- words

  /** str.isspace, which also defines strip() and \s. */
  predicate IsSpace(c: char) {
    || '\t' <= c <= '\r' || '\U{1C}' <= c <= ' ' || c in {'\U{85}', '\U{A0}', '\U{1680}'}
    || '\U{2000}' <= c <= '\U{200A}' || c in {'\U{2028}', '\U{2029}', '\U{202F}', '\U{205F}', '\U{3000}'}
  }

  function StripLeft(s: string): string {
    if s != "" && IsSpace(s[0]) then StripLeft(s[1..]) else s
  }

  function StripRight(s: string): string {
    if s != "" && IsSpace(s[|s| - 1]) then StripRight(s[..|s| - 1]) else s
  }

  function Strip(s: string): string { StripRight(StripLeft(s)) }

  predicate StartsWith(s: string, prefix: string) { |prefix| <= |s| && s[..|prefix|] == prefix }

  predicate IsDigit(c: char) { '0' <= c <= '9' }

  predicate IsLetter(c: char) { 'a' <= c <= 'z' || 'A' <= c <= 'Z' }

  /** [1-9][0-9]*[A-Za-z]{2} */
  predicate IsAnchor(s: string) {
    && |s| >= 3 && '1' <= s[0] <= '9'
    && (forall i | 0 <= i < |s| - 2 :: IsDigit(s[i]))
    && IsLetter(s[|s| - 2]) && IsLetter(s[|s| - 1])
  }

  function Digit(c: char): nat
    requires IsDigit(c)
  {
    c as int - '0' as int
  }

  function Number(s: string): nat
    requires forall i | 0 <= i < |s| :: IsDigit(s[i])
  {
    if s == "" then 0 else Number(s[..|s| - 1]) * 10 + Digit(s[|s| - 1])
  }

  function AnchorLine(s: string): nat
    requires IsAnchor(s)
  {
    Number(s[..|s| - 2])
  }

  function FirstDot(s: string): (i: nat)
    ensures i <= |s|
  {
    if s == "" || s[0] == '.' then 0 else 1 + FirstDot(s[1..])
  }

  /** range_deleted_lines of an anchor or an anchor..anchor range; None when the text is neither. */
  function RangeDeleted(s: string): Option<nat> {
    var i := FirstDot(s);
    if IsAnchor(s) then Some(1)
    else if i + 2 <= |s| && s[i..i + 2] == ".." && IsAnchor(s[..i]) && IsAnchor(s[i + 2..]) then
      var a, b := AnchorLine(s[..i]), AnchorLine(s[i + 2..]);
      Some(if b < a then 1 else b - a + 1)
    else None
  }

  lemma {:induction false} FirstDotAfter(a: string, b: string)
    requires forall i | 0 <= i < |a| :: a[i] != '.'
    ensures FirstDot(a + ['.'] + b) == |a|
  {
    if a != "" {
      FirstDotAfter(a[1..], b);
      assert (a + ['.'] + b)[1..] == a[1..] + ['.'] + b;
    }
  }

  lemma {:induction false} AnchorHasNoDot(a: string, i: nat)
    requires IsAnchor(a) && i < |a|
    ensures a[i] != '.'
  {
    if i < |a| - 2 { assert IsDigit(a[i]); }
  }

  /** Two dots that follow an anchor are not part of an anchor. */
  lemma {:induction false} RangeIsNoAnchor(a: string, b: string)
    requires IsAnchor(b)
    ensures !IsAnchor(a + ".." + b)
  {
    var s := a + ".." + b;
    assert s[|a|] == '.' && |a| < |s| - 2;
    assert !IsDigit(s[|a|]);
  }

  lemma {:induction false} RangeParts(a: string, b: string)
    requires IsAnchor(a)
    ensures var s := a + ".." + b;
            FirstDot(s) == |a| && s[..|a|] == a && s[|a|..|a| + 2] == ".." && s[|a| + 2..] == b
  {
    hide IsAnchor;
    forall i | 0 <= i < |a| ensures a[i] != '.' { AnchorHasNoDot(a, i); }
    FirstDotAfter(a, "." + b);
    assert a + ".." + b == a + ['.'] + ("." + b);
  }

  /** A range of two anchors deletes the lines from one to the other, and never fewer than one. */
  lemma {:induction false} RangeOfAnchors(a: string, b: string)
    requires IsAnchor(a) && IsAnchor(b)
    ensures RangeDeleted(a) == Some(1)
    ensures RangeDeleted(a + ".." + b)
            == Some(if AnchorLine(b) < AnchorLine(a) then 1 else AnchorLine(b) - AnchorLine(a) + 1)
  {
    hide IsAnchor, AnchorLine, FirstDot;
    RangeIsNoAnchor(a, b);
    RangeParts(a, b);
  }

  // ---------------------------------------------------------------- line kinds

  const LEFT_ANGLE := '\U{AB}'
  const RIGHT_ANGLE := '\U{BB}'
  const REPLACE_SIGN := '\U{2254}'
  const SECTION_SIGN := '\U{A7}'

  predicate StartsWithSigil(line: string) {
    line != "" && line[0] in {LEFT_ANGLE, RIGHT_ANGLE, REPLACE_SIGN, SECTION_SIGN}
  }

  predicate IsPatchMarker(line: string) {
    || (StartsWith(line, "*** Begin Patch") && Strip(line[15..]) == "")
    || (StartsWith(line, "*** End Patch") && Strip(line[13..]) == "")
  }

  function DropSections(s: string): string {
    if s != "" && s[0] == SECTION_SIGN then DropSections(s[1..]) else s
  }

  /** The target file of a section header. */
  function HeaderTarget(line: string): Option<string> {
    if line != "" && line[0] == SECTION_SIGN then Some(Strip(DropSections(line)))
    else if StartsWith(line, "*** Update File:") && |line| > 16 && IsSpace(line[16]) && Strip(line[16..]) != "" then
      Some(Strip(line[16..]))
    else None
  }

  predicate IsInsert(line: string) {
    && line != "" && line[0] in {LEFT_ANGLE, RIGHT_ANGLE}
    && var anchor := Strip(line[1..]); anchor == "BOF" || anchor == "EOF" || IsAnchor(anchor)
  }

  /** The deleted-line count of a replace operation. */
  function ReplaceDeletes(line: string): Option<nat> {
    if line != "" && line[0] == REPLACE_SIGN then RangeDeleted(Strip(line[1..])) else None
  }
}
