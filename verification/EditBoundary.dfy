/** parse_edit_boundary: the longest complete prefix of an edit script, and why cutting there is stable. */
module EditBoundary {
  import opened EditGrammar

  datatype Section = Section(target: string, ops: nat, payload: nat, deleted: nat)

  datatype ParseState = ParseState(
    sections: seq<Section>, parsedEnd: nat, needsPayload: bool, payloadAllowed: bool, sawPayload: bool,
    seenContent: bool, lineNo: nat, stopped: bool)

  const START := ParseState([], 0, false, false, false, false, 0, false)

  /** An insert operation still waits for its first payload line. */
  predicate Waiting(st: ParseState) { st.needsPayload && !st.sawPayload }

  function UpdateLast(sections: seq<Section>, s: Section): seq<Section>
    requires sections != []
  {
    sections[|sections| - 1 := s]
  }

  function Last(sections: seq<Section>): Section
    requires sections != []
  {
    sections[|sections| - 1]
  }

  function Stop(st: ParseState): ParseState { st.(stopped := true) }

  /** One line of a section that is neither a marker nor a header. */
  function StepInSection(st: ParseState, span: Span): ParseState
    requires st.sections != []
  {
    var line, cur := span.line, Last(st.sections);
    if st.payloadAllowed && !StartsWithSigil(line) then
      st.(sections := UpdateLast(st.sections, cur.(payload := cur.payload + 1)), parsedEnd := span.end,
          sawPayload := true, needsPayload := false)
    else if Strip(line) == "" then
      if Waiting(st) then Stop(st)
      else st.(parsedEnd := span.end, payloadAllowed := false, needsPayload := false, sawPayload := false)
    else if Waiting(st) then Stop(st)
    else if IsInsert(line) then
      st.(sections := UpdateLast(st.sections, cur.(ops := cur.ops + 1)),
          needsPayload := true, payloadAllowed := true, sawPayload := false)
    else
      match ReplaceDeletes(line)
      case Some(n) =>
        st.(sections := UpdateLast(st.sections, cur.(ops := cur.ops + 1, deleted := cur.deleted + n)),
            parsedEnd := span.end, needsPayload := false, payloadAllowed := true, sawPayload := false)
      case None => Stop(st)
  }

  function StepContent(st: ParseState, span: Span): ParseState {
    if IsPatchMarker(span.line) then
      if Waiting(st) then Stop(st) else st.(parsedEnd := span.end, payloadAllowed := false)
    else
      match HeaderTarget(span.line)
      case Some(target) =>
        if Waiting(st) then Stop(st)
        else st.(sections := st.sections + [Section(target, 0, 0, 0)], parsedEnd := span.end,
                 needsPayload := false, payloadAllowed := false, sawPayload := false)
      case None => if st.sections == [] then Stop(st) else StepInSection(st, span)
  }

  function Step(st: ParseState, span: Span): ParseState {
    var st1 := st.(lineNo := st.lineNo + 1);
    if !st.seenContent && Strip(span.line) == "" then st1.(parsedEnd := span.end)
    else StepContent(st1.(seenContent := true), span)
  }

  function Run(spans: seq<Span>, st: ParseState): ParseState {
    if st.stopped || spans == [] then st else Run(spans[1..], Step(st, spans[0]))
  }

  datatype Reason = Complete | NoCompletePrefix | InsertMissingPayload

  /** The legacy variant stands for the handover to the parser of the older `---path` format. */
  datatype Boundary =
    | Boundary(ok: bool, parsedEnd: nat, reason: Reason, sections: seq<Section>, lineNo: nat)
    | LegacyFormat

  function Conclude(text: string, st: ParseState): Boundary {
    if st.sections == [] && StartsWith(StripLeft(text), "---") then LegacyFormat
    else
      var ok := st.parsedEnd > 0 && st.sections != [];
      Boundary(ok, st.parsedEnd, if Waiting(st) then InsertMissingPayload else if ok then Complete
          else NoCompletePrefix,
               st.sections, st.lineNo)
  }

  function Parse(text: string): Boundary { Conclude(text, Run(Spans(text, 0), START)) }

  /** The line loop of parse_edit_boundary, reading one line after another. */
  method ParseEditBoundary(text: string) returns (r: Boundary)
    ensures r == Parse(text)
  {
    hide Step, Conclude;
    var pos, st := 0, START;
    while pos < |text| && !st.stopped
      invariant pos <= |text|
      invariant Run(Spans(text, pos), st) == Run(Spans(text, 0), START)
      decreases |text| - pos, !st.stopped
    {
      var end := LineEnd(text, pos);
      var span := Span(StripTerminator(text[pos..end]), pos, end);
      assert Spans(text, pos)[0] == span && Spans(text, pos)[1..] == Spans(text, end);
      st := Step(st, span);
      pos := end;
    }
    return Conclude(text, st);
  }

  // ---------------------------------------------------------------- stability of the cut

  /** Every line so far is part of the complete prefix. */
  predicate Settled(st: ParseState) { !st.stopped && !Waiting(st) }

  /** The last section lost one operation. */
  function DropOp(sections: seq<Section>): seq<Section>
    requires sections != [] && Last(sections).ops > 0
  {
    UpdateLast(sections, Last(sections).(ops := Last(sections).ops - 1))
  }

  /** `later` is `earlier` plus one insert operation whose payload has not come. */
  predicate OneInsertMore(earlier: ParseState, later: ParseState) {
    && Waiting(later) && later.parsedEnd == earlier.parsedEnd
    && later.sections != [] && Last(later.sections).ops > 0 && DropOp(later.sections) == earlier.sections
  }

  /** From a settled state a line stops the parse, extends the prefix, or opens an insert. */
  lemma {:induction false} SettledStep(st: ParseState, span: Span)
    requires Settled(st)
    ensures var next := Step(st, span);
            || (next.stopped && next.sections == st.sections && next.parsedEnd == st.parsedEnd && !Waiting(next))
            || (Settled(next) && next.parsedEnd == span.end)
            || (!next.stopped && OneInsertMore(st, next) && next.payloadAllowed && next.seenContent)
  {
    hide Strip, IsPatchMarker, HeaderTarget, IsInsert, ReplaceDeletes, StartsWithSigil;
  }

  /** An open insert is closed by a payload line; anything else stops the parse and leaves it open. */
  lemma {:induction false} WaitingStep(base: ParseState, st: ParseState, span: Span)
    requires OneInsertMore(base, st) && !st.stopped && st.payloadAllowed && st.seenContent
    ensures var next := Step(st, span);
            || (next.stopped && OneInsertMore(base, next))
            || (Settled(next) && next.parsedEnd == span.end)
  {
    hide Strip, IsPatchMarker, HeaderTarget, IsInsert, ReplaceDeletes, StartsWithSigil;
  }

  /** Where a run ends relative to the last line that extended the prefix. */
  predicate EndsAt(spans: seq<Span>, st: ParseState, k: nat) {
    && k <= |spans|
    && var mid, end := Run(spans[..k], st), Run(spans, st);
       && Settled(mid)
       && mid.parsedEnd == (if k == 0 then st.parsedEnd else spans[k - 1].end)
       && end.parsedEnd == mid.parsedEnd
       && ((!Waiting(end) && end.sections == mid.sections) || OneInsertMore(mid, end))
  }

  lemma {:induction false} RunTwo(spans: seq<Span>, st: ParseState)
    requires |spans| >= 2 && !st.stopped
    ensures Run(spans, st) == if Step(st, spans[0]).stopped then Step(st, spans[0])
                              else Run(spans[2..], Step(Step(st, spans[0]), spans[1]))
  {
    assert spans[1..][0] == spans[1] && spans[1..][1..] == spans[2..];
    hide Step;
  }

  lemma {:induction false} CutIsStable(spans: seq<Span>, st: ParseState) returns (k: nat)
    requires Settled(st)
    ensures EndsAt(spans, st, k)
    decreases |spans|
  {
    hide Step, DropOp;
    k := 0;
    if spans != [] {
      var next := Step(st, spans[0]);
      SettledStep(st, spans[0]);
      if next.stopped {
        assert Run(spans, st) == next;
      } else if Settled(next) {
        var l := CutIsStable(spans[1..], next);
        k := l + 1;
        PrefixRun(spans, st, next, l);
      } else {
        k := CutAfterInsert(spans, st);
      }
    }
  }

  lemma {:induction false} CutAfterInsert(spans: seq<Span>, st: ParseState) returns (k: nat)
    requires Settled(st) && spans != []
    requires var next := Step(st, spans[0]);
             !next.stopped && OneInsertMore(st, next) && next.payloadAllowed && next.seenContent
    ensures EndsAt(spans, st, k)
    decreases |spans|, 0
  {
    hide Step, DropOp;
    var next := Step(st, spans[0]);
    k := 0;
    assert Run(spans[..0], st) == st;
    if |spans| == 1 {
      assert spans[1..] == [];
      assert Run(spans, st) == next;
    } else {
      RunTwo(spans, st);
      var after := Step(next, spans[1]);
      WaitingStep(st, next, spans[1]);
      if after.stopped {
        assert Run(spans, st) == after;
      } else {
        var l := CutIsStable(spans[2..], after);
        k := l + 2;
        RunTwo(spans[..k], st);
        assert spans[..k][2..] == spans[2..][..l];
        assert l > 0 ==> spans[2..][l - 1] == spans[k - 1];
      }
    }
  }

  lemma {:induction false} PrefixRun(spans: seq<Span>, st: ParseState, next: ParseState, l: nat)
    requires spans != [] && Settled(st) && next == Step(st, spans[0]) && Settled(next)
    requires next.parsedEnd == spans[0].end && EndsAt(spans[1..], next, l)
    ensures EndsAt(spans, st, l + 1)
  {
    hide Step, DropOp;
    var k := l + 1;
    assert spans[..k][0] == spans[0] && spans[..k][1..] == spans[1..][..l];
    assert l > 0 ==> spans[1..][l - 1] == spans[k - 1];
  }

  function OpCount(sections: seq<Section>): nat {
    if sections == [] then 0 else OpCount(sections[..|sections| - 1]) + Last(sections).ops
  }

  function PayloadLines(sections: seq<Section>): nat {
    if sections == [] then 0 else PayloadLines(sections[..|sections| - 1]) + Last(sections).payload
  }

  function DeletedLines(sections: seq<Section>): nat {
    if sections == [] then 0 else DeletedLines(sections[..|sections| - 1]) + Last(sections).deleted
  }

  lemma {:induction false} DropOpCounts(sections: seq<Section>)
    requires sections != [] && Last(sections).ops > 0
    ensures OpCount(DropOp(sections)) == OpCount(sections) - 1
    ensures PayloadLines(DropOp(sections)) == PayloadLines(sections)
            && DeletedLines(DropOp(sections)) == DeletedLines(sections)
    ensures |DropOp(sections)| == |sections|
  {
    assert DropOp(sections)[..|sections| - 1] == sections[..|sections| - 1];
  }

  /** The sections of a prefix against those of the whole: equal, but for an insert whose payload is missing. */
  predicate SameButOpenInsert(prefix: seq<Section>, whole: seq<Section>, open: bool) {
    && |prefix| == |whole|
    && PayloadLines(prefix) == PayloadLines(whole) && DeletedLines(prefix) == DeletedLines(whole)
    && OpCount(prefix) == OpCount(whole) - (if open then 1 else 0)
    && (!open ==> prefix == whole)
    && (open ==> whole != [] && Last(whole).ops > 0 && prefix == DropOp(whole))
  }

  /**
   * Edit-prefix stability. Re-parsing the accepted prefix of any text accepts it again with the same end, sections,
   * payload and deleted-line counts; the operation count is one less exactly when an insert had no payload.
   */
  lemma {:induction false} PrefixStability(text: string)
    requires Parse(text).Boundary? && Parse(text).ok
    ensures var b := Parse(text);
            && b.parsedEnd <= |text|
            && var again := Parse(text[..b.parsedEnd]);
               && again.Boundary? && again.ok && again.parsedEnd == b.parsedEnd && again.reason == Complete
               && SameButOpenInsert(again.sections, b.sections, b.reason == InsertMissingPayload)
  {
    hide Step, Spans, Run, StripLeft;
    var spans := Spans(text, 0);
    var k := CutIsStable(spans, START);
    var mid, end := Run(spans[..k], START), Run(spans, START);
    assert k > 0;
    SpansPrefix(text, 0, k);
    assert Run(Spans(text[..mid.parsedEnd], 0), START) == mid;
    if Waiting(end) { DropOpCounts(end.sections); }
  }
}
