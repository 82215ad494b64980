# 42 Companion for VS Code: the text-to-diagnostics core

A model of the part of the 42 Companion extension that turns text into editor diagnostics. It
covers four parts of the extension.

- **The current norm resolver** (`Norminette`). It reads norminette's report and finds the lines
  `Error|Notice: CODE (line: N, col: N)`. For each one it translates the reported column into
  a character offset of the document line. Tabs advance to the next multiple of 4. It then looks
  the code up in the rule dictionary and widens that anchor into a span with one of three range
  kinds:
  - NUMERIC, signed offsets;
  - DELIMITER, left and right walks to stop characters, optionally inverted;
  - LINE, the trimmed line.

  Beside it sits the supervisor state: the sticky `host-spawn` fallback flag and the
  `runningChecks` map of files with a run in flight.
- **The legacy norm resolver** (`Extension`). It handles `.c` and `.h` files on disk only. It
  widens the reported column by one signed number, defaults to 10, and does no tab translation.
- **The Makefile checker** (`Makefile`, `MakefileDictionary`). It skips comment and empty lines
  and notes which required rules are declared. It flags source variables assigned with a
  wildcard, then lists the required rules it never saw.
- **The 42 header** (`Header`). A generator writes the thirteen-piece banner, and a detector
  looks for its first line. Together they make header insertion idempotent.

The regular expressions of the source are hand-coded as recognisers over characters:
- `NormOutput` holds the report-line pattern and its `exec` loop;
- `Makefile.RuleName` the rule pattern;
- `MakefileDictionary` the wildcard trigger and the token search.

`Text` holds the JavaScript string operations these use, with the `\s`, `\w` and `\d`
classes. Loops of the source are `while`/`for` loops here. Each one is proved against a
specification function, and the properties are proved about that function. The module-level
state of src/norminette.ts is the class `Norminette.Supervisor`.

## Model

| member | source | states |
|---|---|---|
| Text.IndexOf | src/norminette.ts:148 | `indexOf` gives -1 or an index where the text occurs, and no earlier index holds an occurrence |
| Text.Split | src/makefile.ts:20 | `split` on one character gives one more piece than there are separators, and no piece contains the separator |
| Text.SplitJoin | src/header.ts:19 | round trip: joining the pieces of a split with the same separator gives back the string |
| Text.SplitLast | src/header.ts:19 | the last piece of a split is a suffix of the string, and a split into one piece is the string itself |
| Text.Join | src/makefile.ts:76 | a join starts with its first piece |
| Text.CountJoin | src/header.ts:74 | joining with a one-character separator adds at least one separator per gap, and exactly one when no piece holds it |
| Text.Trim | src/norminette.ts:147 | `trim` is the slice after the leading spaces, empty exactly when the line is all spaces, and non-space at both ends, with only spaces after it |
| Text.PadEnd | src/header.ts:41 | `padEnd` keeps the text as a prefix, adds only spaces, and gives the larger of the text's length and the width; it never truncates |
| Text.ReplaceFirst | src/header.ts:50 | `replace` with a one-character pattern keeps the length and puts the replacement at the first occurrence only; every other character is kept |
| Text.SplitAbsent | src/header.ts:19 | a string without the separator splits into itself alone |
| Text.SplitFirstPrefix | src/header.ts:31 | the first piece of a split is a prefix of the string |
| Text.FoldCase | src/dictionary/MakefileDictionary.ts:13 | folding case keeps word characters word characters |
| Text.RunEndAll | src/dictionary/MakefileDictionary.ts:17 | every character of a maximal run satisfies the class, and the run stops at the end of the line or on a character outside it |
| Diagnostics.ToDiagnosticSeverity | src/norminette.ts:159-170 | Error maps to Error, Warning to Warning and Info to Information, in both directions |
| Diagnostics.Max0 | src/norminette.ts:157 | `Math.max(0, n)` is at least `n`, and exactly `n` when `n` is not negative |
| NormDictionary.Find | src/norminette.ts:68 | `find` by code fails exactly when no entry has the code; otherwise it yields an entry of the table with that code (both resolvers look up through it, the legacy one at src/extension.ts:92) |
| NormDictionary.FindFirst | src/norminette.ts:68 | the entry found is the first with the code |
| NormOutput.LeadingZero | src/norminette.ts:65-66 | `parseInt` of a digit run: a leading zero does not change the value |
| NormOutput.PlusRun | src/norminette.ts:59 | `p+` matches exactly when the next character is in the class, and takes the maximal run of it |
| NormOutput.PlusIs | src/norminette.ts:59 | a maximal run of the class is exactly what `p+` consumes |
| NormOutput.KindAt | src/norminette.ts:59 | `(Error\|Notice)` yields one of the two words, found at the position |
| NormOutput.KindAtIs | src/norminette.ts:59 | wherever `Error` or `Notice` stands, `(Error\|Notice)` reads that word |
| NormOutput.Scan | src/norminette.ts:59 | a match of the pattern after the kind ends within the output and not before it starts |
| NormOutput.ReportGroups | src/norminette.ts:59 | the capturing groups after the kind are `(\w+)`, `(\d+)`, `(\d+)`, in that order |
| NormOutput.ScanCount | src/norminette.ts:59-64 | a match captures exactly one text per capturing group, so the code, line and column are all present |
| NormOutput.ScanGroups | src/norminette.ts:59-64 | each captured text is a non-empty run of its group's class |
| NormOutput.ScanEndsWith | src/norminette.ts:59 | a pattern that ends with a literal ends each of its matches with that literal, here `)` |
| NormOutput.CodeGroupScan | src/norminette.ts:59 | `:` followed by maximal runs of spaces, word characters and spaces is read whole, and the word characters are captured |
| NormOutput.LineGroupScan | src/norminette.ts:59 | `(line:` followed by maximal runs of spaces and digits and then `,` is read whole, and the digits are captured |
| NormOutput.ColumnGroupScan | src/norminette.ts:59 | maximal runs of spaces, `col:`, spaces and digits and then `)` are read whole, and the digits are captured |
| NormOutput.CodeTextAt | src/norminette.ts:59 | the text `:` + spaces + code + spaces, followed by a non-space, is read by the code group, which captures exactly the code |
| NormOutput.LineTextAt | src/norminette.ts:59 | the text `(line:` + spaces + digits + `,` is read by the line group, which captures exactly the digits |
| NormOutput.ColumnTextAt | src/norminette.ts:59 | the text spaces + `col:` + spaces + digits + `)` is read by the column group, which captures exactly the digits |
| NormOutput.MatchAt | src/norminette.ts:59 | a match starts at the start of a line, inside the output, with kind Error or Notice |
| NormOutput.MatchAtShape | src/norminette.ts:59-64 | a match begins with its kind word, its code is a non-empty run of word characters, and its last character is `)` |
| NormOutput.MatchFromScan | src/norminette.ts:59-66 | a kind at a line start followed by a reading of the three groups gives the finding: the kind, the code, and `parseInt` of the line and column digits |
| NormOutput.LineAt | src/norminette.ts:59-66 | round trip: a report line `kind: code (line: l, col: c)`, padded with any whitespace runs, at a line start is matched up to its `)` and yields kind, code, `parseInt(l)`, `parseInt(c)` |
| NormOutput.ReportLineMatches | src/norminette.ts:59-66 | round trip: the same report line written after any text ending in a line terminator, and followed by anything, is matched there with the same finding |
| NormOutput.ReportMatcher | src/norminette.ts:59 | the report pattern matches only at its own start position and ends within the output |
| NormOutput.Exec | src/norminette.ts:62 | one `exec` from `lastIndex` yields a match of the pattern starting at or after `lastIndex` |
| NormOutput.ExecLeftmost | src/norminette.ts:62 | `exec` finds a match whenever one exists at or after `lastIndex`, and the one it finds is the leftmost |
| NormOutput.ExecAllAreMatches | src/norminette.ts:62 | every match of the `g`-flag loop is a match of the pattern at or after the starting index |
| NormOutput.ExecAllOrdered | src/norminette.ts:62 | the loop's matches come in output order and never overlap |
| NormOutput.ExecAllComplete | src/norminette.ts:62 | no match is skipped: every position where the pattern matches starts or lies inside a reported match |
| NormOutput.NextMatch | src/norminette.ts:62 | `errorRegex.exec(output)` yields a report line at or after `lastIndex` |
| NormOutput.MatchesStep | src/norminette.ts:62 | the matches from `lastIndex` are the next match followed by the matches from its end, or none when `exec` returns null |
| NormOutput.MatchesAreMatches | src/norminette.ts:59-62 | every reported finding is a report line of the output |
| NormOutput.MatchesOrdered | src/norminette.ts:59-62 | report lines are taken in output order without overlap |
| NormOutput.MatchesComplete | src/norminette.ts:59-62 | every report line of the output is found, whole or inside a match whose `\s+` crossed a line break |
| Norminette.VisualColAtLeast | src/norminette.ts:95-101 | the visual column grows by at least one per character, and equals the offset when no tab comes before |
| Norminette.AnchorFrom | src/norminette.ts:95-102 | the column walk stops at the first offset whose visual column reaches the target, or at the end of the line |
| Norminette.Anchor | src/norminette.ts:93-102 | the anchor lies within the line; either it is the end of the line or its visual column has reached the reported column, and every earlier offset falls short |
| Norminette.AnchorBounds | src/norminette.ts:93-102 | the anchor never passes the reported column (minus one) or the line's end, and equals their minimum when no tab precedes it |
| Norminette.TranslateColumn | src/norminette.ts:93-102 | the column-translation loop computes the anchor |
| Norminette.StartBound | src/norminette.ts:118-129 | the left walk stops at 0 or right after a stop character; every character it passes is a delimiter exactly when the walk is inverted |
| Norminette.EndBound | src/norminette.ts:131-142 | the right walk stops at the end of the line or on a stop character; every character it passes is a delimiter exactly when the walk is inverted |
| Norminette.ScanStart | src/norminette.ts:118-129 | both left-walking loops compute the start bound |
| Norminette.ScanEnd | src/norminette.ts:131-142 | both right-walking loops compute the end bound |
| Norminette.LineSpan | src/norminette.ts:144-152 | the LINE span lies within the line |
| Norminette.IndexOfFirstHead | src/norminette.ts:148 | `indexOf` finds an occurrence whose first character appears nowhere earlier |
| Norminette.LineSpanAfterLeading | src/norminette.ts:146-151 | the LINE span starts right after the leading whitespace and is as long as the trimmed line, or is (0, 0) on an all-space line |
| Norminette.LineSpanTrimmed | src/norminette.ts:144-152 | the LINE span runs from the first non-space character to just past the last, covers exactly the trimmed line, and is (0, 0) on an all-space line |
| Norminette.Span | src/norminette.ts:104-155 | no range keeps the anchor on both ends; NUMERIC adds `start ?? 0` and `end ?? 0` to it without reordering; DELIMITER encloses the anchor within the line, each side being the left or right walk for a non-empty stop list and the anchor for an absent or empty one; LINE is the trimmed-line span |
| Norminette.WidenAnchor | src/norminette.ts:104-155 | the range-kind branches compute the span |
| Norminette.ResolveWell | src/norminette.ts:64-179 | a finding lands on the line before the reported one, with the range's span clamped at 0 one end at a time (`Math.max(0, …)`); an unknown code gives a zero-width Warning at the anchor, `REPORT MISSING ERROR: <code>`; a known one gives the entry's message and mapped severity |
| Norminette.Resolve | src/norminette.ts:64-179 | a finding lands on the line before the reported one, as a diagnostic of the norminette source, with both ends at least 0 |
| Norminette.ResolveAllFails | src/norminette.ts:70 | resolving fails exactly when some finding names a line the document lacks |
| Norminette.ResolveAllEach | src/norminette.ts:62-181 | otherwise there is one diagnostic per finding, in order, each the resolution of its finding |
| Norminette.ResolvedAll | src/norminette.ts:56-185 | `parseNorminette` fails exactly on a missing line; otherwise it yields one well-resolved diagnostic per report line, in output order |
| Norminette.ResolveFinding | src/norminette.ts:64-179 | the loop body computes the diagnostic of one finding |
| Norminette.ParseNorminette | src/norminette.ts:56-185 | the `exec` loop returns the resolution of all report lines, or fails where `lineAt` throws |
| Norminette.ResolveStep | src/norminette.ts:179 | one turn of the loop pushes the finding's diagnostic and leaves the rest to later turns |
| Norminette.Command | src/norminette.ts:29-32 | the command starts with `host-spawn ` exactly when the fallback flag is set, and always ends with `norminette <path>` |
| Norminette.Supervisor.Init | src/norminette.ts:14-18 | `initNorminette` starts with no run in flight and the fallback off |
| Norminette.Supervisor.Request | src/norminette.ts:22-32 | a path with a run in flight joins that run and starts no command; otherwise a new run, shared with no other file in flight, is recorded for it, with the command chosen from the flag; the flag never changes here |
| Norminette.Supervisor.Complete | src/norminette.ts:34-48 | the path leaves `runningChecks` whatever the outcome; the flag becomes set only when a failed run's stderr says the command was not found, and is never cleared; a success parses stdout+stderr, a failure a non-empty stdout; a `lineAt` error fails the run |
| Extension.EffectiveRange | src/extension.ts:110 | `entry.range \|\| 10`: an absent or zero range becomes 10, any other is kept, and the result is never 0 |
| Extension.LegacySpan | src/extension.ts:112-120 | a non-negative range runs forward from the column and is that wide; a negative one runs back and ends just past the column; a non-zero range covers the column |
| Extension.LegacyResolveWell | src/extension.ts:87-144 | an unknown code gives a Warning ten columns wide whose message is the code; a known code gives the entry's message and mapped severity and the range's span from the reported column, clamped at 0 one end at a time, which covers that column |
| Extension.LegacyResolve | src/extension.ts:87-144 | a finding lands on the line before the reported one, as a diagnostic of the legacy source; an unknown code spans the default width of 10; a known one gives a span whose start is at least 0 and at most its end |
| Extension.LegacyResolveAll | src/extension.ts:86-147 | there is one diagnostic per finding, in order |
| Extension.LegacyParsed | src/extension.ts:79-155 | every report line yields exactly one well-resolved diagnostic, in output order |
| Extension.ParseLegacy | src/extension.ts:79-155 | the legacy `exec` loop computes the legacy specification |
| Extension.LegacyResolveFinding | src/extension.ts:87-144 | the loop body computes the legacy diagnostic of one finding |
| Extension.LegacyStep | src/extension.ts:144 | one turn of the legacy loop pushes one diagnostic |
| Extension.TextToParse | src/extension.ts:65-76 | on success stdout+stderr is parsed; on failure stdout, and only when it is non-empty |
| Extension.ShouldCheck | src/extension.ts:57-63 | a checked file name ends in a two-character extension `.?` (`.c` or `.h`) |
| Extension.CheckDocument | src/extension.ts:56-77 | only `.c`/`.h` files with the `file` scheme are checked, and diagnostics are set exactly when there is text to parse |
| Extension.NoArgsVoidSpan | src/dictionary/NormDictionary.ts:14 | `NO_ARGS_VOID` underlines the reported character and the one before it, as an Error |
| Extension.DeclAssignLineSpan | src/dictionary/NormDictionary.ts:15 | `DECL_ASSIGN_LINE` runs back to column 0 near the start of a line |
| MakefileDictionary.WildcardPattern | src/dictionary/MakefileDictionary.ts:13 | the trigger only accepts a line starting, case ignored, with `S` or `F` (one of the source-variable names) |
| MakefileDictionary.TriggerSeesToken | src/dictionary/MakefileDictionary.ts:13 | a line the trigger accepts starts, case ignored, with one of the names, goes on with `\s*[+:!?]?=`, and holds a case-insensitive token after the `=` with no line terminator before it |
| MakefileDictionary.TokenTriggers | src/dictionary/MakefileDictionary.ts:13 | the converse: such a name, operator and token, with no line terminator between the `=` and the token, make the trigger accept the line |
| MakefileDictionary.HeadOf | src/dictionary/MakefileDictionary.ts:13 | a pattern starting with a non-letter matches, with or without case, only where the text has that character |
| MakefileDictionary.AfterName | src/dictionary/MakefileDictionary.ts:13 | `\s*[+:!?]?=` ends just past an `=` |
| MakefileDictionary.TokenAt | src/dictionary/MakefileDictionary.ts:13-17 | a `*` token is `*.` followed by a maximal non-empty run of word characters; a `$` token is `$(wildcard` (case-sensitive or not, as asked) followed by one whitespace character; and each of these shapes is a token |
| MakefileDictionary.FirstToken | src/dictionary/MakefileDictionary.ts:17 | `match` finds the leftmost case-sensitive token, and none exists before it |
| MakefileDictionary.OccurrenceIsToken | src/dictionary/MakefileDictionary.ts:19 | any occurrence of a token's text is itself the start of a token |
| MakefileDictionary.GetRange | src/dictionary/MakefileDictionary.ts:16-24 | `getRange` is null exactly when the line holds no token; otherwise its span lies in the line, is exactly the leftmost token, and no token starts before it |
| MakefileDictionary.TokenCaseAgree | src/dictionary/MakefileDictionary.ts:13-17 | a case-sensitive token is the same token when case is ignored, and so is a `*.` token |
| MakefileDictionary.TokenAheadFinds | src/dictionary/MakefileDictionary.ts:13 | `.*` followed by a token finds a token at or after its start, with no line terminator before it |
| MakefileDictionary.TokenAheadFrom | src/dictionary/MakefileDictionary.ts:13 | the converse: a token with no line terminator before it is found by `.*` followed by a token |
| MakefileDictionary.StarTriggerHasRange | src/dictionary/MakefileDictionary.ts:13-24 | when the test holds and every token it could see is a `*.` one, `getRange` finds a span |
| MakefileDictionary.NoTokenWithout | src/dictionary/MakefileDictionary.ts:17 | without a `*` and a lower-case `w` there is no case-sensitive token |
| MakefileDictionary.UpperCaseLineChars | src/dictionary/MakefileDictionary.ts:13 | the line `SRCS = $(WILDCARD src)` has a case-insensitive token and neither `*` nor `w` |
| MakefileDictionary.UpperCaseLineTriggers | src/dictionary/MakefileDictionary.ts:13 | that line passes the case-insensitive test |
| MakefileDictionary.CaseMismatchUnreported | src/dictionary/MakefileDictionary.ts:16-24 | a line holding neither `*` nor a lower-case `w` gets no range from `getRange`, whatever the trigger says |
| MakefileDictionary.UpperCaseWildcardUnreported | src/makefile.ts:42-45 | an example: `SRCS = $(WILDCARD src)` passes the case-insensitive trigger, yet `getRange` is null on it, so nothing is reported |
| Makefile.Skipped | src/makefile.ts:28-30 | a line is skipped exactly when it starts with `#` or is empty |
| Makefile.RuleName | src/makefile.ts:32-34 | a declared rule name is non-empty and the line starts with it and a colon |
| Makefile.RuleNameIff | src/makefile.ts:32 | a line declares a rule exactly when a colon follows a non-empty leading run of non-space, non-colon characters, and the name is that run |
| Makefile.EntryReports | src/makefile.ts:42-66 | an entry reports a line once exactly when its test holds and `getRange` finds a span, with that span on that line, the entry's message and mapped severity |
| Makefile.MissingRules | src/makefile.ts:72 | a rule is missing exactly when it is required and not found |
| Makefile.MissingRulesInOrder | src/makefile.ts:72 | the missing rules keep the order of `requiredRules` |
| Makefile.MissingMessagePlural | src/makefile.ts:76 | the message says `rules` exactly when more than one rule is missing |
| Makefile.MissingMessageList | src/makefile.ts:76 | the message ends with the missing rules joined by `, ` |
| Makefile.MakefileSpec | src/makefile.ts:16-85 | every diagnostic has the Makefile source and sits on a line of the text, at most the number of line breaks |
| Makefile.ParseMakefile | src/makefile.ts:16-85 | the line loop and the closing check compute the Makefile specification |
| Makefile.LineStep | src/makefile.ts:25-70 | a skipped line adds no diagnostics; any other line adds its entries' diagnostics |
| Makefile.RuleStep | src/makefile.ts:28-38 | a skipped line adds no rule; another adds its rule name exactly when the name is required |
| Makefile.TestLine | src/makefile.ts:40-68 | the inner loop runs every entry, in dictionary order, over one line |
| Makefile.FoundRulesIff | src/makefile.ts:22-38 | a rule is found exactly when it is required and declared on some line that is not skipped |
| Makefile.MissingReported | src/makefile.ts:72-81 | the closing diagnostic comes after all line diagnostics and is added exactly when some required rule is never declared; it is the Error at line 0, columns 0 to 0, from the checker, whose message lists the missing rules, which are exactly the undeclared required rules |
| Makefile.LineDiagnosticsOnLine | src/makefile.ts:46 | every diagnostic of a line sits on that line, with the checker's source |
| Makefile.OrderedAppend | src/makefile.ts:25-65 | pushing the next line's diagnostics keeps them on unskipped lines and in line order |
| Makefile.CollectOrdered | src/makefile.ts:25-70 | diagnostics gathered line by line come from lines that are not skipped, in line order |
| Makefile.LineDiagnosticsOrdered | src/makefile.ts:25-70 | line diagnostics come from lines that are not skipped, ordered by line |
| Makefile.DefaultLineDiagnostics | src/dictionary/MakefileDictionary.ts:12-24 | with the shipped dictionary a line gets at most one diagnostic: an Error with the wildcard message, exactly when the test holds and a token is found, over the leftmost token |
| Header.Run | src/header.ts:59 | a run has the requested length and holds only the character |
| Header.FixedLines | src/header.ts:59-69 | the banner, blank and logo lines are 80 characters wide and hold no line break |
| Header.FormatFilename | src/header.ts:40-42 | the file name is padded to 51 columns, or kept whole when longer |
| Header.FormatUserLine | src/header.ts:44-47 | `By: <user> <<email>>` is padded to 47 columns, or kept whole when longer |
| Header.DateString | src/header.ts:50 | the date string is at most 19 characters |
| Header.DateStringOfTimestamp | src/header.ts:50 | on an ISO timestamp the date string keeps the first 19 characters except for a space in place of the `T` |
| Header.FormatDateLine | src/header.ts:49-53 | `<label>: <date> by <user>` is padded to 42 columns, or kept whole when longer |
| Header.FileLine | src/header.ts:62 | the file line is as wide as its padded field plus the fixed text around it |
| Header.UserLine | src/header.ts:64 | the user line is as wide as its padded field plus the fixed text around it |
| Header.CreatedLine | src/header.ts:66 | the creation line is as wide as its padded field plus the fixed text around it |
| Header.UpdatedLine | src/header.ts:67 | the update line is as wide as its padded field plus the fixed text around it |
| Header.HeaderLines | src/header.ts:58-72 | there are thirteen pieces: the banner first and eleventh, then two empty strings |
| Header.Basename | src/header.ts:19 | the file name is the path's last segment: it holds no `/`, ends the path, and is either the whole path or preceded by a `/` |
| Header.HasHeader | src/header.ts:29-38 | a text the detector accepts holds at least ten line breaks |
| Header.HeaderDetected | src/header.ts:29-38 | `hasHeader` holds exactly when the text starts with the banner and has at least eleven lines |
| Header.GenerateHeader | src/header.ts:55-75 | a generated header starts with the banner and ends with `\n\n` |
| Header.HandleHeader | src/header.ts:3-27 | the edit is made exactly when the user name and e-mail are set and the text has no header; it then puts the header for the path's last segment before the text, and otherwise leaves the text alone |
| Header.InsertHeader | src/header.ts:9-26 | a header is inserted exactly when the user name and e-mail are set and the text has none, and the text is unchanged otherwise |
| Header.InsertIdempotent | src/header.ts:15-23 | once a header the detector sees has been inserted, a second insertion does nothing |
| Header.JoinedLines | src/header.ts:74 | joined pieces start with the banner and hold one line break per gap, exactly one when no piece holds one |
| Header.JoinedEnd | src/header.ts:70-74 | pieces ending with two empty strings join to text ending with `\n\n` |
| Header.DetectsJoined | src/header.ts:29-38 | the detector sees any join of at least eleven pieces that starts with the banner, whatever follows |
| Header.FieldsShown | src/header.ts:62-67 | each field appears whole from the sixth column of its line |
| Header.LinesNoNewline | src/header.ts:59-71 | no piece holds a line break when no field does |
| Header.HeaderShape | src/header.ts:55-75 | a header starts with the banner, ends with `\n\n` and has at least twelve line breaks, exactly twelve when no field holds one |
| Header.DetectsGenerated | src/header.ts:29-38 | `hasHeader` is true of a generated header followed by any text |
| Header.HandleHeaderIdempotent | src/header.ts:3-27 | after `handleHeader` has inserted a header, calling it again changes nothing, whatever the file name, credentials and clock |
| Header.HeaderWidth | src/header.ts:59-69 | when every field fits its padding, all eleven lines are 80 characters wide |
| Header.FieldsFit | src/header.ts:40-53 | on an ISO timestamp, the fields fit exactly when the file name has at most 51 characters, the user name at most 10, and user name and e-mail together at most 40 |

## Left out

- Processes and timing. These are left out:
  - `execAsync` and the 5000 ms timeout;
  - the shared promise of concurrent callers;
  - `setInterval` and the editor events.

  A run is reduced to its settled result (`Exec.ExecResult`), and a run in flight to a number
  in `runningChecks`.
- The editor. These are left out:
  - `DiagnosticCollection.set`;
  - the decorations of the legacy resolver;
  - configuration reads;
  - `WorkspaceEdit`/`applyEdit`;
  - `deactivate`.

  Documents are sequences of lines or a string, diagnostics are plain records, and the header
  edit is the text it produces.
- `vscode.Range`. Diagnostics keep the pair handed to it. Two of its behaviours are not
  modelled: it reorders an inverted start and end, and it throws on a negative line or column.
  The legacy resolver can pass line or column -1 for a report of line or column 0.
- The clock. `new Date().toISOString()` is the parameter `now`.
- Character encoding. Strings are sequences of characters, not UTF-16 code units, and `parseInt` is exact.
- The legacy dictionary in the current resolver. The shipped dictionary holds numeric ranges,
  but the current resolver reads `entry.range.type`. It takes its dictionary as a parameter of
  the NormRange shape. A number there has no `type`, so no branch applies, and it behaves like
  an absent range (`None`).
- Regular expressions in general. Only the patterns the source uses are hand-coded.
- `MakefileEntry.pattern` and `getRange` are total functions over strings, not `RegExp` objects.
- `console.log` in the legacy `checkDocument`.
