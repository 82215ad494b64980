/**
 * The legacy norm resolver of src/extension.ts: it runs norminette on C sources and headers,
 * reads the same report lines as the current resolver, and widens each reported column by the
 * single signed number of a dictionary entry (`NormEntry.range`). Unlike the current resolver
 * it never consults the document's text: columns are taken as printed, minus one.
 */
module Extension {
  import opened Options
  import opened Text
  import opened Diagnostics
  import opened NormDictionary
  import opened NormOutput
  import opened Exec

  const LegacySource := "norminette"
  /** The width used for an unknown code, and for an entry whose range is absent or 0. */
  const DefaultWidth := 10

  /** The guard of `checkDocument` (src/extension.ts:57-63): a `.c` or `.h` file on disk. */
  predicate ShouldCheck(fileName: string, scheme: string)
    ensures ShouldCheck(fileName, scheme) ==> |fileName| >= 2 && fileName[|fileName| - 2] == '.'
  {
    assert |fileName| >= 2 ==> fileName[|fileName| - 2] == fileName[|fileName| - 2..][0];
    (EndsWith(fileName, ".c") || EndsWith(fileName, ".h")) && scheme == "file"
  }

  /** `entry.range || 10`: an absent range and a range of 0 both fall back to the default. */
  function EffectiveRange(range: Option<int>): (r: int)
    ensures r != 0
    ensures range.Some? && range.value != 0 ==> r == range.value
    ensures range.None? || range.value == 0 ==> r == DefaultWidth
  {
    match range
    case Some(v) => if v != 0 then v else DefaultWidth
    case None => DefaultWidth
  }

  /**
   * The span of a known code before clamping (src/extension.ts:112-120). A non-negative range
   * runs forward from the column and is `range` wide; a negative one runs back from the column
   * and also covers the column's own character, so it is one wider than `-range`.
   */
  function LegacySpan(col: int, range: int): (span: (int, int))
    ensures range >= 0 ==> span.0 == col && span.1 - span.0 == range
    ensures range < 0 ==> span.1 == col + 1 && span.1 - span.0 == 1 - range
    ensures range != 0 ==> span.0 <= col < span.1
  {
    if range >= 0 then (col, col + range) else (col + range, col + 1)
  }

  /** The diagnostic of one finding (src/extension.ts:87-144). */
  function LegacyResolve(data: seq<LegacyNormEntry>, f: Finding): (d: Diagnostic)
    ensures d.line == f.line - 1 && d.source == LegacySource
    ensures LookupLegacy(data, f.code).None? ==> d.end - d.start == DefaultWidth
    ensures LookupLegacy(data, f.code).Some? ==> 0 <= d.start <= d.end
  {
    var line := f.line - 1;
    var col := f.col - 1;
    match LookupLegacy(data, f.code)
    case None =>
      Diagnostic(line, col, col + DefaultWidth, f.code, DiagnosticSeverity.Warning, LegacySource)
    case Some(entry) =>
      var span := LegacySpan(col, EffectiveRange(entry.range));
      Diagnostic(line, Max0(span.0), Max0(span.1), entry.errorMessage,
                 ToDiagnosticSeverity(entry.severity), LegacySource)
  }

  /**
   * What every legacy diagnostic satisfies. An unknown code gives a Warning ten columns wide,
   * unclamped, whose message is the bare code. A known code gives the entry's message and
   * mapped severity and the entry's span from the column with each end clamped at 0, which
   * covers the reported column whenever that column is at least 1.
   */
  predicate LegacyWellResolved(data: seq<LegacyNormEntry>, f: Finding, d: Diagnostic) {
    && d.line == f.line - 1 && d.source == LegacySource
    && (LookupLegacy(data, f.code).None? ==>
          && d.start == f.col - 1 && d.end == d.start + DefaultWidth
          && d.severity == DiagnosticSeverity.Warning && d.message == f.code)
    && (LookupLegacy(data, f.code).Some? ==>
          && d.message == LookupLegacy(data, f.code).value.errorMessage
          && d.severity == ToDiagnosticSeverity(LookupLegacy(data, f.code).value.severity)
          && 0 <= d.start <= d.end
          && (f.col >= 1 ==> d.start <= f.col - 1 < d.end)
          && (var span := LegacySpan(f.col - 1, EffectiveRange(LookupLegacy(data, f.code).value.range));
              d.start == Max0(span.0) && d.end == Max0(span.1)))
  }

  lemma LegacyResolveWell(data: seq<LegacyNormEntry>, f: Finding)
    ensures LegacyWellResolved(data, f, LegacyResolve(data, f))
  {
    var entry := LookupLegacy(data, f.code);
    if entry.Some? {
      var span := LegacySpan(f.col - 1, EffectiveRange(entry.value.range));
      assert span.0 < span.1;
    }
  }

  /** The diagnostics of the findings `ms`, in order. */
  function LegacyResolveAll(data: seq<LegacyNormEntry>, ms: seq<Match>): (ds: seq<Diagnostic>)
    ensures |ds| == |ms|
    ensures forall i :: 0 <= i < |ms| ==> ds[i] == LegacyResolve(data, ms[i].finding)
  {
    if ms == [] then [] else [LegacyResolve(data, ms[0].finding)] + LegacyResolveAll(data, ms[1..])
  }

  /** What the legacy `parseNorminette` returns for `output`: one diagnostic per report line. */
  function LegacySpec(data: seq<LegacyNormEntry>, output: string): seq<Diagnostic>
  {
    LegacyResolveAll(data, Matches(output, 0))
  }

  /** Every report line yields exactly one well-resolved diagnostic, in output order. */
  lemma LegacyParsed(data: seq<LegacyNormEntry>, output: string)
    ensures |LegacySpec(data, output)| == |Matches(output, 0)|
    ensures forall i :: 0 <= i < |Matches(output, 0)| ==>
      LegacyWellResolved(data, Matches(output, 0)[i].finding, LegacySpec(data, output)[i])
  {
    var ms := Matches(output, 0);
    forall i | 0 <= i < |ms|
      ensures LegacyWellResolved(data, ms[i].finding, LegacySpec(data, output)[i])
    {
      LegacyResolveWell(data, ms[i].finding);
    }
  }

  /** `parseNorminette` of src/extension.ts:79-155: the `exec` loop over the report. */
  method ParseLegacy(data: seq<LegacyNormEntry>, output: string) returns (diagnostics: seq<Diagnostic>)
    ensures diagnostics == LegacySpec(data, output)
  {
    diagnostics := [];
    var lastIndex := 0;
    while true
      invariant lastIndex <= |output| + 1
      invariant LegacySpec(data, output) == diagnostics + LegacyResolveAll(data, Matches(output, lastIndex))
      decreases |output| + 1 - lastIndex
    {
      var m := NextMatch(output, lastIndex);
      MatchesStep(output, lastIndex);
      if m.None? {
        assert diagnostics + [] == diagnostics;
        return;
      }
      var d := LegacyResolveFinding(data, m.value.finding);
      LegacyStep(data, diagnostics, m.value, Matches(output, m.value.end));
      diagnostics := diagnostics + [d];
      lastIndex := m.value.end;
    }
  }

  /** The body of the legacy `exec` loop for one finding (src/extension.ts:87-144). */
  method LegacyResolveFinding(data: seq<LegacyNormEntry>, f: Finding) returns (d: Diagnostic)
    ensures d == LegacyResolve(data, f)
  {
    var line := f.line - 1;
    var col := f.col - 1;
    var entry := LookupLegacy(data, f.code);
    if entry.None? {
      return Diagnostic(line, col, col + DefaultWidth, f.code, DiagnosticSeverity.Warning, LegacySource);
    }
    var rangeValue := EffectiveRange(entry.value.range);
    var startCol: int;
    var endCol: int;
    if rangeValue >= 0 {
      startCol := col;
      endCol := col + rangeValue;
    } else {
      startCol := col + rangeValue;
      endCol := col + 1;
    }
    d := Diagnostic(line, Max0(startCol), Max0(endCol), entry.value.errorMessage,
                    ToDiagnosticSeverity(entry.value.severity), LegacySource);
  }

  /** One turn of the legacy `exec` loop. */
  lemma LegacyStep(data: seq<LegacyNormEntry>, done: seq<Diagnostic>, m: Match, rest: seq<Match>)
    ensures done + LegacyResolveAll(data, [m] + rest)
            == (done + [LegacyResolve(data, m.finding)]) + LegacyResolveAll(data, rest)
  {
    assert ([m] + rest)[1..] == rest;
  }

  /** The text `checkDocument` hands to the parser (src/extension.ts:65-76): both streams of a
      clean run, or a failed run's stdout when it is non-empty; otherwise nothing is parsed. */
  function TextToParse(result: ExecResult): (text: Option<string>)
    ensures result.Resolved? ==> text == Some(result.stdout + result.stderr)
    ensures result.Rejected? ==> (text.Some? <==> result.stdout != "")
    ensures result.Rejected? && text.Some? ==> text.value == result.stdout
  {
    match result
    case Resolved(stdout, stderr) => Some(stdout + stderr)
    case Rejected(stdout, _) => if stdout != "" then Some(stdout) else None
  }

  /**
   * `checkDocument` (src/extension.ts:56-77) once the run has settled: the diagnostics it sets
   * for the file, or nothing when the file is skipped or a failed run printed nothing.
   */
  method CheckDocument(fileName: string, scheme: string, result: ExecResult) returns (published: Option<seq<Diagnostic>>)
    ensures !ShouldCheck(fileName, scheme) ==> published.None?
    ensures ShouldCheck(fileName, scheme) ==>
      (published.Some? <==> TextToParse(result).Some?)
    ensures published.Some? ==> published.value == LegacySpec(DefaultDictionary, TextToParse(result).value)
  {
    if !EndsWith(fileName, ".c") && !EndsWith(fileName, ".h") {
      return None;
    }
    if scheme != "file" {
      return None;
    }
    match result {
      case Resolved(stdout, stderr) =>
        var diagnostics := ParseLegacy(DefaultDictionary, stdout + stderr);
        published := Some(diagnostics);
      case Rejected(stdout, _) =>
        published := None;
        if stdout != "" {
          var diagnostics := ParseLegacy(DefaultDictionary, stdout);
          published := Some(diagnostics);
        }
    }
  }

  /** `NO_ARGS_VOID` (range -1) underlines the reported character and the one before it. */
  lemma NoArgsVoidSpan(line: nat, col: nat)
    requires col >= 2
    ensures LegacyResolve(DefaultDictionary, Finding("Error", "NO_ARGS_VOID", line, col))
            == Diagnostic(line - 1, col - 2, col, "buy a gun and off yourself",
                          DiagnosticSeverity.Error, LegacySource)
  {
  }

  /** `DECL_ASSIGN_LINE` (range -99) runs back to the start of the line near the line's start. */
  lemma DeclAssignLineSpan(line: nat, col: nat)
    requires 1 <= col <= 99
    ensures LegacyResolve(DefaultDictionary, Finding("Error", "DECL_ASSIGN_LINE", line, col)).start == 0
    ensures LegacyResolve(DefaultDictionary, Finding("Error", "DECL_ASSIGN_LINE", line, col)).end == col
  {
  }
}
