/**
 * The current norm resolver and its supervisor (src/norminette.ts).
 *
 * `ParseNorminette` turns norminette's report into diagnostics: each report line's column is
 * translated into a character offset of the document line (the anchor), the code is looked
 * up in the dictionary, and the entry's range kind widens the anchor into a span. Every loop
 * of the source is a `while` loop here, proved against a specification function whose
 * properties are the contracts of the function itself.
 *
 * `Supervisor` holds the module-level state: the sticky `fallback` flag and the
 * `runningChecks` map from file path to the run in flight for it.
 */
module Norminette {
  import opened Options
  import opened Text
  import opened Diagnostics
  import opened NormDictionary
  import opened Exec
  import opened NormOutput

  const DiagnosticSource := "42 Companion: Norm Error"
  const MissingEntryPrefix := "REPORT MISSING ERROR: "
  const CommandNotFound := "norminette: command not found"
  const FallbackPrefix := "host-spawn "

  // ---------------------------------------------------------------------------------------
  // Column translation

  /** The visual column after the first `k` characters of `line`: a tab moves to the next
      multiple of 4, any other character moves one column. */
  function VisualCol(line: string, k: nat): nat
    requires k <= |line|
  {
    if k == 0 then 0
    else
      var v := VisualCol(line, k - 1);
      if line[k - 1] == '\t' then v / 4 * 4 + 4 else v + 1
  }

  /** Every character advances the visual column by at least one, and by exactly one when
      no tab is involved. */
  lemma {:induction false} VisualColAtLeast(line: string, k: nat)
    requires k <= |line|
    ensures VisualCol(line, k) >= k
    ensures (forall j :: 0 <= j < k ==> line[j] != '\t') ==> VisualCol(line, k) == k
  {
    if k > 0 {
      VisualColAtLeast(line, k - 1);
    }
  }

  /** Where the walk started at offset `k` stops: the first offset whose visual column has
      reached `target`, or the end of the line. */
  function AnchorFrom(line: string, target: int, k: nat): (a: nat)
    requires k <= |line|
    ensures k <= a <= |line|
    ensures a == |line| || VisualCol(line, a) >= target
    ensures forall j :: k <= j < a ==> VisualCol(line, j) < target
    decreases |line| - k
  {
    if k == |line| || VisualCol(line, k) >= target then k else AnchorFrom(line, target, k + 1)
  }

  /** The anchor of the 0-based norminette column `target` in `line`. */
  function Anchor(line: string, target: int): (a: nat)
    ensures a <= |line|
    ensures a == |line| || VisualCol(line, a) >= target
    ensures forall j :: 0 <= j < a ==> VisualCol(line, j) < target
  {
    AnchorFrom(line, target, 0)
  }

  /**
   * The anchor never passes the reported column nor the end of the line, and when no tab
   * precedes it, it is exactly the reported column cut off at the end of the line.
   */
  lemma AnchorBounds(line: string, target: int)
    ensures Anchor(line, target) <= Max0(if target < |line| then target else |line|)
    ensures 0 <= target && (forall j :: 0 <= j < Anchor(line, target) ==> line[j] != '\t')
            ==> Anchor(line, target) == if target < |line| then target else |line|
  {
    var a := Anchor(line, target);
    if a > 0 {
      VisualColAtLeast(line, a - 1);
    }
    if 0 <= target && (forall j :: 0 <= j < a ==> line[j] != '\t') {
      VisualColAtLeast(line, a);
    }
  }

  /** The column-translation loop (src/norminette.ts:93-102). */
  method TranslateColumn(lineText: string, norminetteCol: int) returns (col: nat)
    ensures col == Anchor(lineText, norminetteCol)
  {
    var visualCol := 0;
    col := 0;
    while visualCol < norminetteCol && col < |lineText|
      invariant col <= |lineText|
      invariant visualCol == VisualCol(lineText, col)
      invariant AnchorFrom(lineText, norminetteCol, col) == Anchor(lineText, norminetteCol)
    {
      if lineText[col] == '\t' {
        visualCol := visualCol / 4 * 4 + 4;
      } else {
        visualCol := visualCol + 1;
      }
      col := col + 1;
    }
  }

  // ---------------------------------------------------------------------------------------
  // Range kinds

  /** `delimiters.includes(c)`: the array holds the one-character string `c`. */
  predicate Includes(delimiters: seq<string>, c: char) {
    [c] in delimiters
  }

  /**
   * The start side of a DELIMITER range: walking left from `k`, the walk passes characters
   * that are not delimiters (with `invert`, characters that are) and stops at offset 0 or
   * right after the first character that ends it.
   */
  function StartBound(line: string, k: nat, delimiters: seq<string>, invert: bool): (s: nat)
    requires k <= |line|
    ensures s <= k
    ensures forall j :: s <= j < k ==> Includes(delimiters, line[j]) == invert
    ensures s == 0 || Includes(delimiters, line[s - 1]) != invert
    decreases k
  {
    if k > 0 && Includes(delimiters, line[k - 1]) == invert then StartBound(line, k - 1, delimiters, invert)
    else k
  }

  /** The end side of a DELIMITER range: walking right from `k`, symmetric to `StartBound`,
      stopping at the end of the line or on the first character that ends the walk. */
  function EndBound(line: string, k: nat, delimiters: seq<string>, invert: bool): (e: nat)
    requires k <= |line|
    ensures k <= e <= |line|
    ensures forall j :: k <= j < e ==> Includes(delimiters, line[j]) == invert
    ensures e == |line| || Includes(delimiters, line[e]) != invert
    decreases |line| - k
  {
    if k < |line| && Includes(delimiters, line[k]) == invert then EndBound(line, k + 1, delimiters, invert)
    else k
  }

  /** The two left-walking loops (src/norminette.ts:119-128). */
  method ScanStart(lineText: string, col: nat, delimiters: seq<string>, invert: bool) returns (startCol: nat)
    requires col <= |lineText|
    ensures startCol == StartBound(lineText, col, delimiters, invert)
  {
    startCol := col;
    if invert {
      while startCol > 0 && Includes(delimiters, lineText[startCol - 1])
        invariant startCol <= col
        invariant StartBound(lineText, startCol, delimiters, invert) == StartBound(lineText, col, delimiters, invert)
      {
        startCol := startCol - 1;
      }
    } else {
      while startCol > 0 && !Includes(delimiters, lineText[startCol - 1])
        invariant startCol <= col
        invariant StartBound(lineText, startCol, delimiters, invert) == StartBound(lineText, col, delimiters, invert)
      {
        startCol := startCol - 1;
      }
    }
  }

  /** The two right-walking loops (src/norminette.ts:132-141). */
  method ScanEnd(lineText: string, col: nat, delimiters: seq<string>, invert: bool) returns (endCol: nat)
    requires col <= |lineText|
    ensures endCol == EndBound(lineText, col, delimiters, invert)
  {
    endCol := col;
    if invert {
      while endCol < |lineText| && Includes(delimiters, lineText[endCol])
        invariant col <= endCol <= |lineText|
        invariant EndBound(lineText, endCol, delimiters, invert) == EndBound(lineText, col, delimiters, invert)
      {
        endCol := endCol + 1;
      }
    } else {
      while endCol < |lineText| && !Includes(delimiters, lineText[endCol])
        invariant col <= endCol <= |lineText|
        invariant EndBound(lineText, endCol, delimiters, invert) == EndBound(lineText, col, delimiters, invert)
      {
        endCol := endCol + 1;
      }
    }
  }

  /** The LINE range: where `trim()` of the line is found with `indexOf`, and its end. */
  function LineSpan(line: string): (span: (int, int))
    ensures 0 <= span.0 <= span.1 <= |line|
  {
    var trimmed := Trim(line);
    var trimStart := IndexOf(line, trimmed);
    assert OccursAt(line, trimmed, LeadingSpaces(line));
    (trimStart, trimStart + |trimmed|)
  }

  /** `indexOf` finds an occurrence whose first character appears nowhere before it. */
  lemma IndexOfFirstHead(s: string, sub: string, k: nat, p: char -> bool)
    requires OccursAt(s, sub, k) && sub != [] && !p(sub[0])
    requires forall q :: 0 <= q < k ==> p(s[q])
    ensures IndexOf(s, sub) == k
  {
    var r := IndexOf(s, sub);
    assert s[k..k + |sub|][0] == s[k];
    assert r != -1 ==> s[r..r + |sub|][0] == s[r];
  }

  /** `indexOf` finds the trimmed line right after the leading whitespace, or at 0 when
      nothing is left. */
  lemma LineSpanAfterLeading(line: string)
    ensures Trim(line) != [] ==> LineSpan(line) == (LeadingSpaces(line), LeadingSpaces(line) + |Trim(line)|)
    ensures Trim(line) == [] ==> LineSpan(line) == (0, 0)
  {
    if Trim(line) == [] {
      LineSpanBlank(line);
    } else {
      TrimmedFoundAfterLeading(line);
      LineSpanOfIndex(line);
      SpanAt(LineSpan(line), IndexOf(line, Trim(line)), LeadingSpaces(line), |Trim(line)|);
    }
  }

  /** An empty trimmed line is found at 0. */
  lemma LineSpanBlank(line: string)
    requires Trim(line) == []
    ensures LineSpan(line) == (0, 0)
  {
    assert OccursAt(line, Trim(line), 0);
  }

  /** The trimmed line is found where the leading whitespace ends. */
  lemma TrimmedFoundAfterLeading(line: string)
    requires Trim(line) != []
    ensures IndexOf(line, Trim(line)) == LeadingSpaces(line)
  {
    var trimmed := Trim(line);
    var lead := LeadingSpaces(line);
    assert OccursAt(line, trimmed, lead);
    IndexOfFirstHead(line, trimmed, lead, IsSpace);
  }

  /** A span found at `found` is the span at `at` when the two agree. */
  lemma SpanAt(span: (int, int), found: int, at: int, len: int)
    requires span.0 == found && span.1 == found + len && found == at
    ensures span == (at, at + len)
  {
  }

  /** The LINE span starts wherever `indexOf` finds the trimmed line. */
  lemma LineSpanOfIndex(line: string)
    ensures LineSpan(line).0 == IndexOf(line, Trim(line))
    ensures LineSpan(line).1 == IndexOf(line, Trim(line)) + |Trim(line)|
  {
  }

  /**
   * The LINE range runs from the first non-whitespace character to just past the last one
   * and spans the trimmed line; an all-whitespace line gives (0, 0).
   */
  lemma LineSpanTrimmed(line: string)
    ensures (forall i :: 0 <= i < |line| ==> IsSpace(line[i])) ==> LineSpan(line) == (0, 0)
    ensures (exists i :: 0 <= i < |line| && !IsSpace(line[i])) ==>
      && 0 <= LineSpan(line).0 < LineSpan(line).1 <= |line|
      && (forall i :: 0 <= i < LineSpan(line).0 ==> IsSpace(line[i])) && !IsSpace(line[LineSpan(line).0])
      && (forall i :: LineSpan(line).1 <= i < |line| ==> IsSpace(line[i])) && !IsSpace(line[LineSpan(line).1 - 1])
      && line[LineSpan(line).0..LineSpan(line).1] == Trim(line)
  {
    LineSpanAfterLeading(line);
    var trimmed := Trim(line);
    if trimmed != [] {
      var lead := LeadingSpaces(line);
      assert line[lead] == trimmed[0] && line[lead + |trimmed| - 1] == trimmed[|trimmed| - 1];
    }
  }

  /**
   * The span of an entry's range around `anchor`, before clamping (src/norminette.ts:104-155).
   * NUMERIC offsets are independent, so the ends may come out in either order; DELIMITER
   * spans enclose the anchor; LINE spans ignore it.
   */
  function Span(range: Option<NormRange>, line: string, anchor: nat): (span: (int, int))
    requires anchor <= |line|
    ensures range.None? ==> span == (anchor, anchor)
    ensures range.Some? && range.value.Numeric? ==>
      span == (anchor + range.value.start.GetOr(0), anchor + range.value.end.GetOr(0))
    ensures range.Some? && range.value.Delimiter? ==> 0 <= span.0 <= anchor <= span.1 <= |line|
    ensures range.Some? && range.value.Delimiter? ==>
      && span.0 == (if range.value.startDelimiters.Some? && |range.value.startDelimiters.value| > 0
                    then StartBound(line, anchor, range.value.startDelimiters.value, range.value.invertStart)
                    else anchor)
      && span.1 == (if range.value.endDelimiters.Some? && |range.value.endDelimiters.value| > 0
                    then EndBound(line, anchor, range.value.endDelimiters.value, range.value.invertEnd)
                    else anchor)
    ensures range.Some? && range.value.Line? ==> span == LineSpan(line)
  {
    match range
    case None => (anchor, anchor)
    case Some(Numeric(start, end)) => (anchor + start.GetOr(0), anchor + end.GetOr(0))
    case Some(Delimiter(startDelimiters, endDelimiters, invertStart, invertEnd)) =>
      (if startDelimiters.Some? && |startDelimiters.value| > 0
       then StartBound(line, anchor, startDelimiters.value, invertStart) else anchor,
       if endDelimiters.Some? && |endDelimiters.value| > 0
       then EndBound(line, anchor, endDelimiters.value, invertEnd) else anchor)
    case Some(Line) => LineSpan(line)
  }

  // ---------------------------------------------------------------------------------------
  // Findings to diagnostics

  /** `document.lineAt(line)` succeeds for the finding's line. */
  predicate InDocument(document: seq<string>, f: Finding) {
    1 <= f.line <= |document|
  }

  /** The diagnostic of one finding (src/norminette.ts:64-179). */
  function Resolve(dictionary: seq<NormEntry>, document: seq<string>, f: Finding): (d: Diagnostic)
    requires InDocument(document, f)
    ensures d.line == f.line - 1 && d.source == DiagnosticSource && 0 <= d.start && 0 <= d.end
  {
    var lineText := document[f.line - 1];
    var anchor := Anchor(lineText, f.col - 1);
    match Lookup(dictionary, f.code)
    case None =>
      Diagnostic(f.line - 1, anchor, anchor, MissingEntryPrefix + f.code,
                 DiagnosticSeverity.Warning, DiagnosticSource)
    case Some(entry) =>
      var span := Span(entry.range, lineText, anchor);
      Diagnostic(f.line - 1, Max0(span.0), Max0(span.1), entry.errorMessage,
                 ToDiagnosticSeverity(entry.severity), DiagnosticSource)
  }

  /**
   * Every finding lands on the line before the reported one, with both ends clamped at 0.
   * An unknown code gives a zero-width Warning at the anchor whose message names the code;
   * a known one carries the entry's message and mapped severity, over its range's span
   * around the anchor with each end clamped at 0 on its own.
   */
  predicate WellResolved(dictionary: seq<NormEntry>, document: seq<string>, f: Finding, d: Diagnostic)
    requires InDocument(document, f)
  {
    && d.line == f.line - 1 && d.source == DiagnosticSource && 0 <= d.start && 0 <= d.end
    && (Lookup(dictionary, f.code).None? ==>
          && d.start == d.end == Anchor(document[f.line - 1], f.col - 1)
          && d.severity == DiagnosticSeverity.Warning && d.message == MissingEntryPrefix + f.code)
    && (Lookup(dictionary, f.code).Some? ==>
          && d.message == Lookup(dictionary, f.code).value.errorMessage
          && d.severity == ToDiagnosticSeverity(Lookup(dictionary, f.code).value.severity)
          && (var lineText := document[f.line - 1];
              var span := Span(Lookup(dictionary, f.code).value.range, lineText, Anchor(lineText, f.col - 1));
              d.start == Max0(span.0) && d.end == Max0(span.1)))
  }

  lemma ResolveWell(dictionary: seq<NormEntry>, document: seq<string>, f: Finding)
    requires InDocument(document, f)
    ensures WellResolved(dictionary, document, f, Resolve(dictionary, document, f))
  {
  }

  /** The diagnostics of the findings `ms`, in order, or nothing when one of them names a
      line the document lacks (`lineAt` throws and the whole parse is abandoned). */
  function ResolveAll(dictionary: seq<NormEntry>, document: seq<string>, ms: seq<Match>): Option<seq<Diagnostic>>
  {
    if ms == [] then Some([])
    else if !InDocument(document, ms[0].finding) then None
    else
      var rest :- ResolveAll(dictionary, document, ms[1..]);
      Some([Resolve(dictionary, document, ms[0].finding)] + rest)
  }

  /** What `parseNorminette` returns for `output`. */
  function ParseSpec(dictionary: seq<NormEntry>, document: seq<string>, output: string): Option<seq<Diagnostic>>
  {
    ResolveAll(dictionary, document, Matches(output, 0))
  }

  /** Resolving fails exactly when some finding names a line the document lacks. */
  lemma {:induction false} ResolveAllFails(dictionary: seq<NormEntry>, document: seq<string>, ms: seq<Match>)
    ensures ResolveAll(dictionary, document, ms).None? <==>
      exists i :: 0 <= i < |ms| && !InDocument(document, ms[i].finding)
  {
    if ms != [] {
      ResolveAllFails(dictionary, document, ms[1..]);
      if InDocument(document, ms[0].finding) && ResolveAll(dictionary, document, ms[1..]).None? {
        var k :| 0 <= k < |ms| - 1 && !InDocument(document, ms[1..][k].finding);
        assert ms[k + 1] == ms[1..][k];
      }
      if exists i :: 1 <= i < |ms| && !InDocument(document, ms[i].finding) {
        var i :| 1 <= i < |ms| && !InDocument(document, ms[i].finding);
        assert ms[1..][i - 1] == ms[i];
      }
    }
  }

  /** Otherwise it yields one diagnostic per finding, in the findings' order, each the
      resolution of its finding. */
  lemma {:induction false} ResolveAllEach(dictionary: seq<NormEntry>, document: seq<string>, ms: seq<Match>)
    ensures ResolveAll(dictionary, document, ms).Some? ==>
      && |ResolveAll(dictionary, document, ms).value| == |ms|
      && forall i :: 0 <= i < |ms| ==>
           InDocument(document, ms[i].finding)
           && ResolveAll(dictionary, document, ms).value[i] == Resolve(dictionary, document, ms[i].finding)
  {
    if ms != [] && InDocument(document, ms[0].finding) {
      ResolveAllEach(dictionary, document, ms[1..]);
      var r := ResolveAll(dictionary, document, ms[1..]);
      if r.Some? {
        var ds := ResolveAll(dictionary, document, ms).value;
        forall i | 1 <= i < |ms|
          ensures InDocument(document, ms[i].finding) && ds[i] == Resolve(dictionary, document, ms[i].finding)
        {
          assert ms[1..][i - 1] == ms[i] && ds[i] == r.value[i - 1];
        }
      }
    }
  }

  /**
   * Resolving fails exactly when some finding names a line the document lacks; otherwise it
   * yields one well-resolved diagnostic per finding, in the findings' order.
   */
  lemma ResolvedAll(dictionary: seq<NormEntry>, document: seq<string>, ms: seq<Match>)
    ensures ResolveAll(dictionary, document, ms).None? <==>
      exists i :: 0 <= i < |ms| && !InDocument(document, ms[i].finding)
    ensures ResolveAll(dictionary, document, ms).Some? ==>
      var ds := ResolveAll(dictionary, document, ms).value;
      && |ds| == |ms|
      && forall i :: 0 <= i < |ms| ==>
           InDocument(document, ms[i].finding) && WellResolved(dictionary, document, ms[i].finding, ds[i])
  {
    ResolveAllFails(dictionary, document, ms);
    ResolveAllEach(dictionary, document, ms);
    var r := ResolveAll(dictionary, document, ms);
    if r.Some? {
      forall i | 0 <= i < |ms|
        ensures WellResolved(dictionary, document, ms[i].finding, r.value[i])
      {
        ResolveWell(dictionary, document, ms[i].finding);
      }
    }
  }

  /** `done` diagnostics followed by what resolving the rest yields. */
  function Prepend(done: seq<Diagnostic>, rest: Option<seq<Diagnostic>>): Option<seq<Diagnostic>>
  {
    if rest.None? then None else Some(done + rest.value)
  }

  /** The body of the `exec` loop for one finding whose line exists (src/norminette.ts:64-179). */
  method ResolveFinding(dictionary: seq<NormEntry>, document: seq<string>, f: Finding) returns (d: Diagnostic)
    requires InDocument(document, f)
    ensures d == Resolve(dictionary, document, f)
  {
    var lineText := document[f.line - 1];
    var col := TranslateColumn(lineText, f.col - 1);
    var entry := Lookup(dictionary, f.code);
    if entry.None? {
      d := Diagnostic(f.line - 1, Max0(col), Max0(col), MissingEntryPrefix + f.code,
                      DiagnosticSeverity.Warning, DiagnosticSource);
      return;
    }
    var e := entry.value;
    var startCol, endCol := WidenAnchor(e.range, lineText, col);
    d := Diagnostic(f.line - 1, Max0(startCol), Max0(endCol), e.errorMessage,
                    ToDiagnosticSeverity(e.severity), DiagnosticSource);
  }

  /** The range kinds of the loop body (src/norminette.ts:104-155): the span an entry's range
      gives around the anchor `col`. */
  method WidenAnchor(range: Option<NormRange>, lineText: string, col: nat) returns (startCol: int, endCol: int)
    requires col <= |lineText|
    ensures (startCol, endCol) == Span(range, lineText, col)
  {
    startCol := col;
    endCol := col;
    if range.Some? {
      match range.value
      case Numeric(start, end) =>
        startCol := col + start.GetOr(0);
        endCol := col + end.GetOr(0);
      case Delimiter(startDelimiters, endDelimiters, invertStart, invertEnd) =>
        if startDelimiters.Some? && |startDelimiters.value| > 0 {
          startCol := ScanStart(lineText, col, startDelimiters.value, invertStart);
        }
        if endDelimiters.Some? && |endDelimiters.value| > 0 {
          endCol := ScanEnd(lineText, col, endDelimiters.value, invertEnd);
        }
      case Line =>
        var trimmedLine := Trim(lineText);
        var trimStart := IndexOf(lineText, trimmedLine);
        startCol := trimStart;
        endCol := trimStart + |trimmedLine|;
    }
  }

  /** `parseNorminette` (src/norminette.ts:56-185): the `exec` loop over the report. */
  method ParseNorminette(dictionary: seq<NormEntry>, document: seq<string>, output: string)
    returns (result: Option<seq<Diagnostic>>)
    ensures result == ParseSpec(dictionary, document, output)
  {
    var diagnostics: seq<Diagnostic> := [];
    var lastIndex := 0;
    var all := ResolveAll(dictionary, document, Matches(output, 0));
    assert all.Some? ==> [] + all.value == all.value;
    while true
      invariant lastIndex <= |output| + 1
      invariant ParseSpec(dictionary, document, output)
                == Prepend(diagnostics, ResolveAll(dictionary, document, Matches(output, lastIndex)))
      decreases |output| + 1 - lastIndex
    {
      var m := NextMatch(output, lastIndex);
      MatchesStep(output, lastIndex);
      if m.None? {
        assert diagnostics + [] == diagnostics;
        return Some(diagnostics);
      }
      var f := m.value.finding;
      if !(1 <= f.line <= |document|) {
        return None;
      }
      var d := ResolveFinding(dictionary, document, f);
      ResolveStep(dictionary, document, diagnostics, m.value, Matches(output, m.value.end));
      diagnostics := diagnostics + [d];
      lastIndex := m.value.end;
    }
  }

  /** One turn of the `exec` loop, for a finding whose line exists. */
  lemma ResolveStep(dictionary: seq<NormEntry>, document: seq<string>, done: seq<Diagnostic>, m: Match, rest: seq<Match>)
    requires InDocument(document, m.finding)
    ensures Prepend(done, ResolveAll(dictionary, document, [m] + rest))
            == Prepend(done + [Resolve(dictionary, document, m.finding)], ResolveAll(dictionary, document, rest))
  {
    assert ([m] + rest)[1..] == rest;
    var r := ResolveAll(dictionary, document, rest);
    if r.Some? {
      var d := Resolve(dictionary, document, m.finding);
      assert done + ([d] + r.value) == (done + [d]) + r.value;
    }
  }

  // ---------------------------------------------------------------------------------------
  // Supervisor

  /** What a finished run did: set the file's diagnostics, set nothing, or rejected its
      promise (a `lineAt` error reaching the `catch`, whose `error.stderr` is undefined). */
  datatype CheckOutcome = Published(diagnostics: seq<Diagnostic>) | NothingPublished | Failed

  /** The shell command of a run (src/norminette.ts:29-32). */
  function Command(fallback: bool, path: string): (cmd: string)
    ensures StartsWith(cmd, FallbackPrefix) <==> fallback
    ensures EndsWith(cmd, "norminette " + path)
  {
    if fallback then FallbackPrefix + "norminette " + path else "norminette " + path
  }

  class Supervisor {
    /** `runningChecks`: the run in flight for each file path. */
    var runningChecks: map<string, nat>
    var dictionary: seq<NormEntry>
    /** Once set, every later run goes through `host-spawn`. */
    var fallback: bool
    /** The number of runs started so far; run `n` stands for the `n`-th promise created. */
    var runs: nat

    /** Every file in flight has its own run, started earlier. */
    ghost predicate Valid()
      reads this
    {
      && (forall k :: k in runningChecks ==> runningChecks[k] < runs)
      && (forall k, k' :: k in runningChecks && k' in runningChecks && k != k' ==> runningChecks[k] != runningChecks[k'])
    }

    /** `initNorminette` (src/norminette.ts:14-18). */
    constructor Init(dictionary: seq<NormEntry>)
      ensures Valid()
      ensures runningChecks == map[] && this.dictionary == dictionary && !fallback && runs == 0
    {
      runningChecks := map[];
      this.dictionary := dictionary;
      fallback := false;
      runs := 0;
    }

    /**
     * The synchronous part of `handleNorminette` (src/norminette.ts:22-32, 51): a path that
     * already has a run in flight joins it and starts nothing; otherwise a new run, shared
     * with no other file in flight, is recorded and its command is chosen from the flag as
     * it stands now.
     */
    method Request(path: string) returns (run: nat, command: Option<string>)
      requires Valid()
      modifies this
      ensures Valid()
      ensures fallback == old(fallback) && dictionary == old(dictionary)
      ensures path in old(runningChecks) ==>
        && run == old(runningChecks)[path] && command.None?
        && runningChecks == old(runningChecks) && runs == old(runs)
      ensures path !in old(runningChecks) ==>
        && run == old(runs) && command == Some(Command(fallback, path))
        && runningChecks == old(runningChecks)[path := run] && runs == old(runs) + 1
      ensures path !in old(runningChecks) ==> forall k :: k in old(runningChecks) ==> old(runningChecks)[k] != run
    {
      if path in runningChecks {
        run := runningChecks[path];
        command := None;
        return;
      }
      var cmd := "norminette " + path;
      if fallback {
        cmd := FallbackPrefix + "norminette " + path;
      }
      run := runs;
      runs := runs + 1;
      runningChecks := runningChecks[path := run];
      command := Some(cmd);
    }

    /**
     * The rest of the run once `execAsync` settles (src/norminette.ts:35-48): parse
     * stdout+stderr on success; on failure engage the fallback if the command was not found
     * and parse a non-empty `error.stdout`; in every case drop the path from `runningChecks`.
     */
    method Complete(path: string, result: ExecResult, document: seq<string>) returns (outcome: CheckOutcome)
      requires Valid()
      modifies this
      ensures Valid()
      ensures runningChecks == old(runningChecks) - {path}
      ensures runs == old(runs) && dictionary == old(dictionary)
      ensures fallback == (old(fallback) || (result.Rejected? && Contains(result.stderr, CommandNotFound)))
      ensures result.Resolved? ==>
                (outcome == match ParseSpec(dictionary, document, result.stdout + result.stderr)
                            case Some(ds) => Published(ds)
                            case None => if old(fallback) then NothingPublished else Failed)
      ensures result.Rejected? ==>
                (outcome == if result.stdout == "" then NothingPublished
                            else match ParseSpec(dictionary, document, result.stdout)
                                 case Some(ds) => Published(ds)
                                 case None => Failed)
    {
      match result {
        case Resolved(stdout, stderr) =>
        var parsed := ParseNorminette(dictionary, document, stdout + stderr);
        if parsed.Some? {
          outcome := Published(parsed.value);
        } else if !fallback {
          outcome := Failed;
        } else {
          outcome := NothingPublished;
        }
      case Rejected(stdout, stderr) =>
        if !fallback && Contains(stderr, CommandNotFound) {
          fallback := true;
        }
        outcome := NothingPublished;
        if stdout != "" {
          var parsed := ParseNorminette(dictionary, document, stdout);
          outcome := if parsed.Some? then Published(parsed.value) else Failed;
        }
      }
      runningChecks := runningChecks - {path};
    }
  }
}
