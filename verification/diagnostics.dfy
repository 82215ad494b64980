/**
 * The editor's diagnostic record, reduced to plain values: one line, a start and an end
 * column (the pair handed to `vscode.Range` before the editor sees it), a message, a
 * severity and the source label. Also the severity enums of the rule dictionaries.
 */
module Diagnostics {

  /** `vscode.DiagnosticSeverity`, restricted to the values the extension produces. */
  datatype DiagnosticSeverity = Error | Warning | Information

  /** The severity a dictionary entry declares (`NormSeverity`, `MakefileSeverity`). */
  datatype EntrySeverity = Error | Warning | Info

  /** The `switch` over an entry's severity that every parser in the extension repeats. */
  function ToDiagnosticSeverity(s: EntrySeverity): (r: DiagnosticSeverity)
    ensures s.Error? <==> r.Error?
    ensures s.Warning? <==> r.Warning?
    ensures s.Info? <==> r.Information?
  {
    match s
    case Error => DiagnosticSeverity.Error
    case Warning => DiagnosticSeverity.Warning
    case Info => DiagnosticSeverity.Information
  }

  datatype Diagnostic = Diagnostic(
    line: int,
    start: int,
    end: int,
    message: string,
    severity: DiagnosticSeverity,
    source: string)

  /** `Math.max(0, n)` */
  function Max0(n: int): (r: nat)
    ensures r >= n && (n >= 0 ==> r == n)
  {
    if n < 0 then 0 else n
  }
}
