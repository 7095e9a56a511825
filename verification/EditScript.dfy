/** Edit scripts as data: a renderer of any script, and the parser giving back what each section holds. */
module EditScript {
  import opened Common
  import opened EditGrammar
  import opened EditBoundary

  // ---------------------------------------------------------------- scripts and their text

  datatype Operation =
    | Insert(after: bool, at: string, payload: seq<string>)
    | Replace(from: string, to: Option<string>, payload: seq<string>)

  /**
   * A section, between patch markers or not. Its header is written with a section sign or as an update line, and blank
   * lines may follow it.
   */
  datatype Part = Part(marked: bool, signed: bool, target: string, blanks: seq<string>, operations: seq<Operation>)

  function OperationLine(op: Operation): string {
    match op
    case Insert(after, at, _) => [if after then RIGHT_ANGLE else LEFT_ANGLE] + at
    case Replace(from, None, _) => [REPLACE_SIGN] + from
    case Replace(from, Some(to), _) => [REPLACE_SIGN] + (from + ".." + to)
  }

  function OperationLines(op: Operation): seq<string> { [OperationLine(op)] + op.payload }

  function OperationsLines(ops: seq<Operation>): seq<string> {
    if ops == [] then [] else OperationLines(ops[0]) + OperationsLines(ops[1..])
  }

  const UPDATE := "*** Update File: "

  function HeaderLine(p: Part): string {
    if p.signed then [SECTION_SIGN] + p.target else UPDATE + p.target
  }

  const BEGIN := "*** Begin Patch"
  const END := "*** End Patch"

  function Marker(marked: bool, line: string): seq<string> { if marked then [line] else [] }

  function TopLines(p: Part): seq<string> { [HeaderLine(p)] + p.blanks }

  function PartLines(p: Part): seq<string> {
    Marker(p.marked, BEGIN) + (TopLines(p) + (OperationsLines(p.operations) + Marker(p.marked, END)))
  }

  function ScriptLines(script: seq<Part>): seq<string> {
    if script == [] then [] else PartLines(script[0]) + ScriptLines(script[1..])
  }

  function Joined(lines: seq<string>): string {
    if lines == [] then "" else lines[0] + "\n" + Joined(lines[1..])
  }

  function Render(script: seq<Part>): string { Joined(ScriptLines(script)) }

  // ---------------------------------------------------------------- well-formed scripts

  predicate BreakFree(s: string) { forall i | 0 <= i < |s| :: !IsBreak(s[i]) }

  /** No space at either end. */
  predicate Tight(s: string) { s == "" || (!IsSpace(s[0]) && !IsSpace(s[|s| - 1])) }

  /** A line that reads as payload: it opens no operation, no section and no patch. */
  predicate GoodPayload(line: string) {
    BreakFree(line) && !StartsWithSigil(line) && !IsPatchMarker(line) && HeaderTarget(line) == None
  }

  predicate GoodPayloads(lines: seq<string>) { forall i | 0 <= i < |lines| :: GoodPayload(lines[i]) }

  /** An insert has an anchor or an end of the file, and something to insert; a replace has one or two anchors. */
  predicate GoodOperation(op: Operation) {
    GoodPayloads(op.payload)
    && match op
       case Insert(_, at, payload) => (at == "BOF" || at == "EOF" || IsAnchor(at)) && payload != []
       case Replace(from, to, _) => IsAnchor(from) && (to.Some? ==> IsAnchor(to.value))
  }

  predicate GoodOperations(ops: seq<Operation>) { forall i | 0 <= i < |ops| :: GoodOperation(ops[i]) }

  predicate Blank(line: string) { BreakFree(line) && Strip(line) == "" }

  predicate AllBlank(lines: seq<string>) { forall i | 0 <= i < |lines| :: Blank(lines[i]) }

  predicate GoodPart(p: Part) {
    && BreakFree(p.target) && Tight(p.target) && AllBlank(p.blanks) && GoodOperations(p.operations)
    && if p.signed then p.target == "" || p.target[0] != SECTION_SIGN else p.target != ""
  }

  predicate GoodScript(script: seq<Part>) { forall i | 0 <= i < |script| :: GoodPart(script[i]) }

  // ---------------------------------------------------------------- what a script holds

  /** Lines an operation takes out: one per line of its range, and one for a range that runs backwards. */
  function Deletes(op: Operation): nat
    requires GoodOperation(op)
  {
    match op
    case Insert(_, _, _) => 0
    case Replace(_, None, _) => 1
    case Replace(from, Some(to), _) =>
      if AnchorLine(to) < AnchorLine(from) then 1 else AnchorLine(to) - AnchorLine(from) + 1
  }

  function PayloadTotal(ops: seq<Operation>): nat {
    if ops == [] then 0 else |ops[0].payload| + PayloadTotal(ops[1..])
  }

  function DeletesTotal(ops: seq<Operation>): nat
    requires GoodOperations(ops)
  {
    if ops == [] then 0 else Deletes(ops[0]) + DeletesTotal(ops[1..])
  }

  function Holds(p: Part): Section
    requires GoodPart(p)
  {
    Section(p.target, |p.operations|, PayloadTotal(p.operations), DeletesTotal(p.operations))
  }

  function AllHold(script: seq<Part>): seq<Section>
    requires GoodScript(script)
  {
    if script == [] then [] else [Holds(script[0])] + AllHold(script[1..])
  }

  // ---------------------------------------------------------------- lines of a rendered text

  function LineSpans(lines: seq<string>, pos: nat): (r: seq<Span>)
    ensures |r| == |lines|
  {
    if lines == [] then []
    else [Span(lines[0], pos, pos + |lines[0]| + 1)] + LineSpans(lines[1..], pos + |lines[0]| + 1)
  }

  predicate AllBreakFree(lines: seq<string>) { forall i | 0 <= i < |lines| :: BreakFree(lines[i]) }

  lemma {:induction false} LineEndsAtBreak(text: string, i: nat, at: nat)
    requires i <= at < |text| && text[at] == '\n' && forall k | i <= k < at :: !IsBreak(text[k])
    ensures LineEnd(text, i) == at + 1
    decreases at - i
  {
    if i < at { LineEndsAtBreak(text, i + 1, at); }
  }

  lemma {:induction false} TerminatorComesOff(line: string)
    requires BreakFree(line)
    ensures StripTerminator(line + "\n") == line
  {
    assert (line + "\n")[..|line|] == line;
    if line != "" { assert !IsBreak(line[|line| - 1]); }
  }

  lemma {:induction false} FirstSpan(before: string, line: string, rest: string)
    requires BreakFree(line)
    ensures var text, end := before + line + "\n" + rest, |before| + |line| + 1;
            Spans(text, |before|) == [Span(line, |before|, end)] + Spans(text, end)
  {
    hide IsBreak, LineEnd, StripTerminator;
    var text, at := before + line + "\n" + rest, |before| + |line|;
    forall k | |before| <= k < at ensures !IsBreak(text[k]) { assert text[k] == line[k - |before|]; }
    LineEndsAtBreak(text, |before|, at);
    assert text[|before|..at + 1] == line + "\n";
    TerminatorComesOff(line);
  }

  lemma {:induction false} SpansOfLines(before: string, lines: seq<string>)
    requires AllBreakFree(lines)
    ensures Spans(before + Joined(lines), |before|) == LineSpans(lines, |before|)
    decreases |lines|
  {
    assert Spans(before, |before|) == [];
    hide BreakFree, Spans;
    if lines == [] {
      assert before + Joined(lines) == before;
    } else {
      var line, more := lines[0], lines[1..];
      var rest, head := Joined(more), before + line + "\n";
      assert before + Joined(lines) == head + rest;
      assert LineSpans(lines, |before|) == [Span(line, |before|, |head|)] + LineSpans(more, |head|);
      hide Joined, LineSpans;
      FirstSpan(before, line, rest);
      assert AllBreakFree(more);
      SpansOfLines(head, more);
    }
  }

  lemma {:induction false} JoinedConcat(a: seq<string>, b: seq<string>)
    ensures Joined(a + b) == Joined(a) + Joined(b)
  {
    if a == [] {
      assert a + b == b;
    } else {
      assert (a + b)[1..] == a[1..] + b;
      JoinedConcat(a[1..], b);
    }
  }

  lemma {:induction false} LineSpansConcat(a: seq<string>, b: seq<string>, pos: nat)
    ensures LineSpans(a + b, pos) == LineSpans(a, pos) + LineSpans(b, pos + |Joined(a)|)
    decreases |a|
  {
    if a == [] {
      assert a + b == b;
    } else {
      assert (a + b)[1..] == a[1..] + b;
      LineSpansConcat(a[1..], b, pos + |a[0]| + 1);
    }
  }

  lemma {:induction false} RunConcat(a: seq<Span>, b: seq<Span>, st: ParseState)
    requires !Run(a, st).stopped
    ensures Run(a + b, st) == Run(b, Run(a, st))
    decreases |a|
  {
    hide Step;
    if a == [] {
      assert a + b == b;
    } else {
      assert (a + b)[1..] == a[1..] + b;
      RunConcat(a[1..], b, Step(st, a[0]));
    }
  }

  /** Running over the lines of two stretches, one after the other. */
  lemma {:induction false} RunLines(a: seq<string>, b: seq<string>, pos: nat, st: ParseState)
    requires !Run(LineSpans(a, pos), st).stopped
    ensures Run(LineSpans(a + b, pos), st) == Run(LineSpans(b, pos + |Joined(a)|), Run(LineSpans(a, pos), st))
  {
    hide Run, LineSpans;
    LineSpansConcat(a, b, pos);
    RunConcat(LineSpans(a, pos), LineSpans(b, pos + |Joined(a)|), st);
  }

  // ---------------------------------------------------------------- what each kind of line does

  lemma {:induction false} TightIsStripped(s: string)
    requires Tight(s)
    ensures Strip(s) == s && Strip(" " + s) == s
  {
    assert (" " + s)[1..] == s;
    assert StripLeft(" " + s) == StripLeft(s) == s;
  }

  lemma {:induction false} FirstCharStays(s: string)
    requires s != "" && !IsSpace(s[0])
    ensures Strip(s) != ""
  {
    StripRightKeeps(s);
  }

  lemma {:induction false} StripRightKeeps(s: string)
    requires s != "" && !IsSpace(s[0])
    ensures StripRight(s) != ""
  {
    if |s| > 1 && IsSpace(s[|s| - 1]) { StripRightKeeps(s[..|s| - 1]); }
  }

  /** A line that starts with an operation sign is neither a marker nor a header. */
  lemma {:induction false} SignedLine(line: string)
    requires line != "" && line[0] in {LEFT_ANGLE, RIGHT_ANGLE, REPLACE_SIGN}
    ensures !IsPatchMarker(line) && HeaderTarget(line) == None && StartsWithSigil(line) && Strip(line) != ""
  {
    FirstCharStays(line);
    hide Strip;
    assert "*** Begin Patch"[0] == '*' && "*** End Patch"[0] == '*' && "*** Update File:"[0] == '*';
    assert forall n | 0 < n <= |line| :: line[..n][0] == line[0];
  }

  lemma {:induction false} AnchorIsTight(s: string)
    requires s == "BOF" || s == "EOF" || IsAnchor(s)
    ensures Tight(s) && BreakFree(s)
  {
    forall i | 0 <= i < |s| ensures !IsBreak(s[i]) && !IsSpace(s[i]) {
      assert IsDigit(s[i]) || IsLetter(s[i]);
    }
  }

  lemma {:induction false} InsertLine(op: Operation)
    requires op.Insert? && GoodOperation(op)
    ensures var line := OperationLine(op); IsInsert(line) && BreakFree(line)
  {
    hide IsAnchor, Strip;
    var line := OperationLine(op);
    AnchorIsTight(op.at);
    TightIsStripped(op.at);
    assert line[1..] == op.at;
  }

  lemma {:induction false} ReplaceLine(op: Operation)
    requires op.Replace? && GoodOperation(op)
    ensures var line := OperationLine(op);
            !IsInsert(line) && BreakFree(line) && ReplaceDeletes(line) == Some(Deletes(op))
  {
    hide IsAnchor, Strip, RangeDeleted, AnchorLine;
    var line := OperationLine(op);
    AnchorIsTight(op.from);
    if op.to.Some? { AnchorIsTight(op.to.value); }
    RangeOfAnchors(op.from, if op.to.Some? then op.to.value else op.from);
    TightIsStripped(line[1..]);
  }

  predicate ReadsAsHeader(line: string, target: string) {
    !IsPatchMarker(line) && HeaderTarget(line) == Some(target) && BreakFree(line) && Strip(line) != ""
  }

  lemma {:induction false} SignedHeader(p: Part)
    requires GoodPart(p) && p.signed
    ensures ReadsAsHeader(HeaderLine(p), p.target)
  {
    hide Strip, GoodOperations;
    var line := HeaderLine(p);
    TightIsStripped(p.target);
    FirstCharStays(line);
    assert line[1..] == p.target;
    assert DropSections(line) == DropSections(p.target) == p.target;
    assert !IsBreak(SECTION_SIGN);
    assert "*** Begin Patch"[0] == '*' && "*** End Patch"[0] == '*';
    assert forall n | 0 < n <= |line| :: line[..n][0] == line[0];
  }

  lemma {:induction false} UpdateIsBreakFree()
    ensures BreakFree(UPDATE)
  {
    assert forall i | 0 <= i < |UPDATE| :: ' ' <= UPDATE[i] <= 'z';
  }

  lemma {:induction false} UpdateHeader(p: Part)
    requires GoodPart(p) && !p.signed
    ensures ReadsAsHeader(HeaderLine(p), p.target)
  {
    hide Strip, GoodOperations, IsBreak, IsSpace;
    var line := HeaderLine(p);
    TightIsStripped(p.target);
    UpdateIsBreakFree();
    assert !IsSpace('*') && IsSpace(' ') by { Spaces(); }
    FirstCharStays(line);
    assert line[..16] == "*** Update File:" && line[16..] == " " + p.target;
    assert "*** Begin Patch"[4] == 'B' && "*** End Patch"[4] == 'E' && line[4] == 'U';
    assert |line| >= 15 ==> line[..15][4] == line[4];
    assert |line| >= 13 ==> line[..13][4] == line[4];
  }

  lemma {:induction false} Spaces()
    ensures !IsSpace('*') && IsSpace(' ')
  {
  }

  // ---------------------------------------------------------------- running over a rendered script

  /** Everything up to `end` is accepted, as these sections. */
  predicate Arrives(st: ParseState, sections: seq<Section>, end: nat, lineNo: nat) {
    && Settled(st) && st.sections == sections && st.parsedEnd == end && st.lineNo == lineNo
    && (sections != [] ==> st.seenContent)
  }

  /** `cur` with more operations, payload lines and deleted lines. */
  function Plus(cur: Section, ops: nat, payload: nat, deleted: nat): Section {
    Section(cur.target, cur.ops + ops, cur.payload + payload, cur.deleted + deleted)
  }

  lemma {:induction false} OneLine(line: string, pos: nat, st: ParseState)
    requires !st.stopped
    ensures Run(LineSpans([line], pos), st) == Step(st, Span(line, pos, pos + |line| + 1))
    ensures |Joined([line])| == |line| + 1
  {
    hide Step;
    assert LineSpans([line], pos) == [Span(line, pos, pos + |line| + 1)];
    assert [Span(line, pos, pos + |line| + 1)][1..] == [];
  }

  lemma {:induction false} PayloadStep(line: string, pos: nat, st: ParseState)
    requires !st.stopped && st.seenContent && st.payloadAllowed && st.sections != [] && GoodPayload(line)
    ensures var next, cur := Run(LineSpans([line], pos), st), Last(st.sections);
            && Arrives(next, UpdateLast(st.sections, Plus(cur, 0, 1, 0)), pos + |Joined([line])|, st.lineNo + 1)
            && next.payloadAllowed
  {
    OneLine(line, pos, st);
    hide Run, LineSpans, Joined, IsPatchMarker, HeaderTarget, StartsWithSigil, Strip, BreakFree;
  }

  lemma {:induction false} PayloadRun(lines: seq<string>, pos: nat, st: ParseState)
    requires !st.stopped && st.seenContent && st.payloadAllowed && st.sections != [] && GoodPayloads(lines)
    requires lines != []
    ensures var next, cur := Run(LineSpans(lines, pos), st), Last(st.sections);
            Arrives(next, UpdateLast(st.sections, Plus(cur, 0, |lines|, 0)), pos + |Joined(lines)|, st.lineNo + |lines|)
    decreases |lines|
  {
    hide Run, LineSpans, Joined, GoodPayload;
    var line, rest := lines[0], lines[1..];
    assert lines == [line] + rest;
    PayloadStep(line, pos, st);
    if rest == [] {
      assert lines == [line];
    } else {
      var next := Run(LineSpans([line], pos), st);
      RunLines([line], rest, pos, st);
      JoinedConcat([line], rest);
      PayloadRun(rest, pos + |Joined([line])|, next);
    }
  }

  /** After the line of an operation: counted, and open for payload. */
  predicate Opened(st: ParseState, before: ParseState, op: Operation, end: nat)
    requires before.sections != [] && GoodOperation(op)
  {
    && !st.stopped && st.seenContent && st.payloadAllowed && st.lineNo == before.lineNo + 1
    && st.sections == UpdateLast(before.sections, Plus(Last(before.sections), 1, 0, Deletes(op)))
    && (op.Replace? ==> !Waiting(st) && st.parsedEnd == end)
  }

  /** A line of the body of a section that opens an operation. */
  predicate OpensOperation(line: string) {
    !IsPatchMarker(line) && HeaderTarget(line) == None && StartsWithSigil(line) && Strip(line) != ""
  }

  lemma {:induction false} InsertStep(st: ParseState, span: Span)
    requires Settled(st) && st.seenContent && st.sections != [] && OpensOperation(span.line) && IsInsert(span.line)
    ensures Step(st, span)
            == st.(sections := UpdateLast(st.sections, Plus(Last(st.sections), 1, 0, 0)), needsPayload := true,
                   payloadAllowed := true, sawPayload := false, lineNo := st.lineNo + 1)
  {
    hide IsPatchMarker, HeaderTarget, StartsWithSigil, Strip, IsInsert, ReplaceDeletes;
  }

  lemma {:induction false} ReplaceStep(st: ParseState, span: Span, n: nat)
    requires Settled(st) && st.seenContent && st.sections != [] && OpensOperation(span.line) && !IsInsert(span.line)
    requires ReplaceDeletes(span.line) == Some(n)
    ensures Step(st, span)
            == st.(sections := UpdateLast(st.sections, Plus(Last(st.sections), 1, 0, n)), parsedEnd := span.end,
                   needsPayload := false, payloadAllowed := true, sawPayload := false, lineNo := st.lineNo + 1)
  {
    hide IsPatchMarker, HeaderTarget, StartsWithSigil, Strip, IsInsert, ReplaceDeletes;
  }

  lemma {:induction false} OperationStep(op: Operation, pos: nat, st: ParseState)
    requires Settled(st) && st.seenContent && st.sections != [] && GoodOperation(op)
    ensures var line := OperationLine(op);
            Opened(Run(LineSpans([line], pos), st), st, op, pos + |Joined([line])|)
  {
    hide Run, LineSpans, Joined, Step, IsPatchMarker, HeaderTarget, StartsWithSigil, Strip, BreakFree, IsInsert,
      ReplaceDeletes, IsAnchor, AnchorLine, GoodPayloads;
    var line := OperationLine(op);
    var span := Span(line, pos, pos + |line| + 1);
    OneLine(line, pos, st);
    SignedLine(line);
    if op.Insert? {
      InsertLine(op);
      InsertStep(st, span);
    } else {
      ReplaceLine(op);
      ReplaceStep(st, span, Deletes(op));
    }
  }

  lemma {:induction false} PayloadIsGood(op: Operation)
    requires GoodOperation(op)
    ensures GoodPayloads(op.payload) && (op.Insert? ==> op.payload != [])
  {
  }

  lemma {:induction false} OperationRun(op: Operation, pos: nat, st: ParseState)
    requires Arrives(st, st.sections, pos, st.lineNo) && st.sections != [] && GoodOperation(op)
    ensures var lines, cur := OperationLines(op), Last(st.sections);
            Arrives(Run(LineSpans(lines, pos), st), UpdateLast(st.sections, Plus(cur, 1, |op.payload|, Deletes(op))),
                    pos + |Joined(lines)|, st.lineNo + |lines|)
  {
    hide Run, LineSpans, Joined, Deletes, GoodOperation, OperationLine, GoodPayloads;
    PayloadIsGood(op);
    var line := OperationLine(op);
    var next, end := Run(LineSpans([line], pos), st), pos + |Joined([line])|;
    OperationStep(op, pos, st);
    assert !next.stopped;
    RunLines([line], op.payload, pos, st);
    JoinedConcat([line], op.payload);
    if op.payload == [] {
      assert [line] + op.payload == [line];
    } else {
      PayloadRun(op.payload, end, next);
      assert Last(next.sections) == Plus(Last(st.sections), 1, 0, Deletes(op));
    }
  }

  lemma {:induction false} NoLines(pos: nat, st: ParseState)
    ensures Run(LineSpans([], pos), st) == st && Joined([]) == ""
  {
  }

  lemma {:induction false} OperationsRun(ops: seq<Operation>, pos: nat, st: ParseState)
    requires Arrives(st, st.sections, pos, st.lineNo) && st.sections != [] && GoodOperations(ops)
    ensures var lines, cur := OperationsLines(ops), Last(st.sections);
            Arrives(Run(LineSpans(lines, pos), st),
                    UpdateLast(st.sections, Plus(cur, |ops|, PayloadTotal(ops), DeletesTotal(ops))),
                    pos + |Joined(lines)|, st.lineNo + |lines|)
    decreases |ops|
  {
    hide Run, LineSpans, Joined, Deletes, GoodOperation, OperationLines;
    if ops == [] {
      NoLines(pos, st);
      assert UpdateLast(st.sections, Plus(Last(st.sections), 0, 0, 0)) == st.sections;
    } else {
      var op, more := ops[0], ops[1..];
      assert OperationsLines(ops) == OperationLines(op) + OperationsLines(more);
      hide OperationsLines;
      OperationRun(op, pos, st);
      var next := Run(LineSpans(OperationLines(op), pos), st);
      RunLines(OperationLines(op), OperationsLines(more), pos, st);
      JoinedConcat(OperationLines(op), OperationsLines(more));
      OperationsRun(more, pos + |Joined(OperationLines(op))|, next);
      assert Last(next.sections) == Plus(Last(st.sections), 1, |op.payload|, Deletes(op));
    }
  }

  lemma {:induction false} HeaderStep(p: Part, pos: nat, st: ParseState)
    requires Settled(st) && GoodPart(p)
    ensures var line := HeaderLine(p);
            var next := Run(LineSpans([line], pos), st);
            && Arrives(next, st.sections + [Section(p.target, 0, 0, 0)], pos + |Joined([line])|, st.lineNo + 1)
            && !next.payloadAllowed
  {
    hide Run, LineSpans, Joined, IsPatchMarker, HeaderTarget, Strip, BreakFree, HeaderLine, GoodPart;
    OneLine(HeaderLine(p), pos, st);
    if p.signed { SignedHeader(p); } else { UpdateHeader(p); }
  }

  lemma {:induction false} BlankLine(line: string)
    requires Strip(line) == ""
    ensures !IsPatchMarker(line) && HeaderTarget(line) == None && !StartsWithSigil(line)
  {
    if line != "" && !IsSpace(line[0]) { FirstCharStays(line); }
    hide Strip;
    assert "*** Begin Patch"[0] == '*' && "*** End Patch"[0] == '*' && "*** Update File:"[0] == '*';
    assert forall n | 0 < n <= |line| :: line[..n][0] == line[0];
  }

  lemma {:induction false} BlankStep(line: string, pos: nat, st: ParseState)
    requires Settled(st) && st.seenContent && !st.payloadAllowed && st.sections != [] && Blank(line)
    ensures var next := Run(LineSpans([line], pos), st);
            Arrives(next, st.sections, pos + |Joined([line])|, st.lineNo + 1) && !next.payloadAllowed
  {
    OneLine(line, pos, st);
    BlankLine(line);
    hide Run, LineSpans, Joined, IsPatchMarker, HeaderTarget, StartsWithSigil, Strip, BreakFree;
  }

  lemma {:induction false} BlanksRun(lines: seq<string>, pos: nat, st: ParseState)
    requires Arrives(st, st.sections, pos, st.lineNo) && st.sections != [] && !st.payloadAllowed && AllBlank(lines)
    ensures Arrives(Run(LineSpans(lines, pos), st), st.sections, pos + |Joined(lines)|, st.lineNo + |lines|)
    decreases |lines|
  {
    hide Run, LineSpans, Joined, Blank;
    if lines == [] {
      NoLines(pos, st);
    } else {
      var line, rest := lines[0], lines[1..];
      assert lines == [line] + rest;
      BlankStep(line, pos, st);
      RunLines([line], rest, pos, st);
      JoinedConcat([line], rest);
      BlanksRun(rest, pos + |Joined([line])|, Run(LineSpans([line], pos), st));
    }
  }

  lemma {:induction false} MarkerLine(line: string)
    requires line == BEGIN || line == END
    ensures IsPatchMarker(line) && Strip(line) != "" && BreakFree(line)
  {
    FirstCharStays(line);
    assert forall i | 0 <= i < |line| :: ' ' <= line[i] <= 'z';
    assert line == BEGIN ==> line[..15] == BEGIN && line[15..] == "";
    assert line == END ==> line[..13] == END && line[13..] == "";
    assert Strip("") == "";
  }

  lemma {:induction false} MarkerRun(marked: bool, line: string, pos: nat, st: ParseState)
    requires (line == BEGIN || line == END) && Arrives(st, st.sections, pos, st.lineNo)
    ensures var lines := Marker(marked, line);
            Arrives(Run(LineSpans(lines, pos), st), st.sections, pos + |Joined(lines)|, st.lineNo + |lines|)
  {
    MarkerLine(line);
    hide Run, LineSpans, Joined, IsPatchMarker, HeaderTarget, Strip, BreakFree;
    if marked { OneLine(line, pos, st); } else { NoLines(pos, st); }
  }

  lemma {:induction false} TopRun(p: Part, pos: nat, st: ParseState)
    requires Settled(st) && GoodPart(p)
    ensures var lines := TopLines(p);
            Arrives(Run(LineSpans(lines, pos), st), st.sections + [Section(p.target, 0, 0, 0)], pos + |Joined(lines)|,
                    st.lineNo + |lines|)
  {
    hide Run, LineSpans, Joined, HeaderLine, GoodOperations, AllBlank;
    var line := HeaderLine(p);
    HeaderStep(p, pos, st);
    RunLines([line], p.blanks, pos, st);
    JoinedConcat([line], p.blanks);
    BlanksRun(p.blanks, pos + |Joined([line])|, Run(LineSpans([line], pos), st));
  }

  lemma {:induction false} BodyRun(p: Part, pos: nat, st: ParseState)
    requires Arrives(st, st.sections, pos, st.lineNo) && st.sections != [] && GoodPart(p)
    requires Last(st.sections) == Section(p.target, 0, 0, 0)
    ensures var lines := OperationsLines(p.operations) + Marker(p.marked, END);
            Arrives(Run(LineSpans(lines, pos), st), UpdateLast(st.sections, Holds(p)), pos + |Joined(lines)|,
                    st.lineNo + |lines|)
  {
    hide Run, LineSpans, Joined, OperationsLines, GoodOperations, AllBlank, PayloadTotal, DeletesTotal, Marker;
    var ops, end := OperationsLines(p.operations), Marker(p.marked, END);
    OperationsRun(p.operations, pos, st);
    RunLines(ops, end, pos, st);
    JoinedConcat(ops, end);
    MarkerRun(p.marked, END, pos + |Joined(ops)|, Run(LineSpans(ops, pos), st));
  }

  lemma {:induction false} PartRun(p: Part, pos: nat, st: ParseState)
    requires Arrives(st, st.sections, pos, st.lineNo) && GoodPart(p)
    ensures Arrives(Run(LineSpans(PartLines(p), pos), st), st.sections + [Holds(p)], pos + |Joined(PartLines(p))|,
                    st.lineNo + |PartLines(p)|)
  {
    hide Run, LineSpans, Joined, TopLines, OperationsLines, GoodPart, Holds, Marker;
    var begin, top, body := Marker(p.marked, BEGIN), TopLines(p), OperationsLines(p.operations) + Marker(p.marked, END);
    MarkerRun(p.marked, BEGIN, pos, st);
    RunLines(begin, top + body, pos, st);
    JoinedConcat(begin, top + body);
    var pos1, st1 := pos + |Joined(begin)|, Run(LineSpans(begin, pos), st);
    TopRun(p, pos1, st1);
    RunLines(top, body, pos1, st1);
    JoinedConcat(top, body);
    var pos2, st2 := pos1 + |Joined(top)|, Run(LineSpans(top, pos1), st1);
    BodyRun(p, pos2, st2);
    assert UpdateLast(st2.sections, Holds(p)) == st.sections + [Holds(p)];
  }

  lemma {:induction false} ScriptRun(script: seq<Part>, pos: nat, st: ParseState)
    requires Arrives(st, st.sections, pos, st.lineNo) && GoodScript(script)
    ensures var lines := ScriptLines(script);
            Arrives(Run(LineSpans(lines, pos), st), st.sections + AllHold(script), pos + |Joined(lines)|,
                    st.lineNo + |lines|)
    decreases |script|
  {
    hide Run, LineSpans, Joined, PartLines, GoodPart, Holds;
    if script == [] {
      NoLines(pos, st);
      assert st.sections + AllHold(script) == st.sections;
    } else {
      var p, more := script[0], script[1..];
      assert ScriptLines(script) == PartLines(p) + ScriptLines(more);
      assert AllHold(script) == [Holds(p)] + AllHold(more);
      hide ScriptLines, AllHold;
      PartRun(p, pos, st);
      var next := Run(LineSpans(PartLines(p), pos), st);
      RunLines(PartLines(p), ScriptLines(more), pos, st);
      JoinedConcat(PartLines(p), ScriptLines(more));
      ScriptRun(more, pos + |Joined(PartLines(p))|, next);
      assert next.sections + AllHold(more) == st.sections + ([Holds(p)] + AllHold(more));
    }
  }

  lemma {:induction false} OperationsAreBreakFree(ops: seq<Operation>)
    requires GoodOperations(ops)
    ensures AllBreakFree(OperationsLines(ops))
  {
    hide BreakFree, OperationLine;
    if ops != [] {
      var op := ops[0];
      assert GoodOperation(op);
      assert BreakFree(OperationLine(op)) by { if op.Insert? { InsertLine(op); } else { ReplaceLine(op); } }
      assert forall i | 0 <= i < |op.payload| :: GoodPayload(op.payload[i]);
      OperationsAreBreakFree(ops[1..]);
    }
  }

  lemma {:induction false} ScriptIsBreakFree(script: seq<Part>)
    requires GoodScript(script)
    ensures AllBreakFree(ScriptLines(script))
  {
    hide BreakFree, HeaderLine, OperationsLines, GoodOperations, Strip;
    if script != [] {
      var p := script[0];
      assert GoodPart(p);
      MarkerLine(BEGIN);
      MarkerLine(END);
      assert BreakFree(HeaderLine(p)) by { if p.signed { SignedHeader(p); } else { UpdateHeader(p); } }
      OperationsAreBreakFree(p.operations);
      assert forall i | 0 <= i < |p.blanks| :: Blank(p.blanks[i]);
      ScriptIsBreakFree(script[1..]);
    }
  }

  /**
   * Every rendered script parses to its end, and each section comes back with its target, the number of its
   * operations and payload lines, and the sum of the lengths of its ranges.
   */
  lemma {:induction false} RenderParses(script: seq<Part>)
    requires GoodScript(script)
    ensures Parse(Render(script))
            == Boundary(script != [], |Render(script)|, if script == [] then NoCompletePrefix else Complete,
                        AllHold(script), |ScriptLines(script)|)
  {
    hide Run, LineSpans, Spans, ScriptLines, GoodPart, Holds, AllBreakFree;
    var lines := ScriptLines(script);
    ScriptIsBreakFree(script);
    SpansOfLines("", lines);
    assert "" + Joined(lines) == Joined(lines);
    ScriptRun(script, 0, START);
    assert [] + AllHold(script) == AllHold(script);
    NonEmptyText(script);
  }

  lemma {:induction false} NonEmptyText(script: seq<Part>)
    ensures script == [] <==> Render(script) == ""
  {
  }
}
