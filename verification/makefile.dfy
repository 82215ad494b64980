/**
 * The Makefile checker of src/makefile.ts. It walks the text line by line, skipping comments
 * and empty lines, notes which of the required rules are declared, and runs every dictionary
 * entry over each line. At the end it adds one diagnostic at the top of the file listing the
 * required rules it never saw.
 */
module Makefile {
  import opened Options
  import opened Text
  import opened Diagnostics
  import opened MakefileDictionary

  const MakefileSource := "42 Companion: Makefile"
  const RequiredRules: seq<string> := ["all", "clean", "fclean", "re", "$(NAME)"]

  /** Comment lines (`line.startsWith('#')`) and empty lines are neither searched for rules
      nor tested. */
  predicate Skipped(line: string)
    ensures Skipped(line) <==> StartsWith(line, "#") || |line| == 0
  {
    assert |line| > 0 ==> line[..1][0] == line[0];
    |line| == 0 || line[0] == '#'
  }

  /** The class `[^\s:]`. */
  predicate IsRuleNameChar(c: char) {
    !IsSpace(c) && c != ':'
  }

  /** `line.match(/^([^\s:]+):/)`: the rule a line declares, which is everything before the
      line's first colon when that stretch is non-empty and holds no space. */
  function RuleName(line: string): (name: Option<string>)
    ensures name.Some? ==> name.value != [] && StartsWith(line, name.value + ":")
  {
    var j := RunEnd(line, 0, IsRuleNameChar);
    if 0 < j < |line| && line[j] == ':' then
      assert (line[..j] + ":") == line[..j + 1];
      Some(line[..j])
    else None
  }

  /** A line declares a rule exactly when a colon follows a non-empty stretch of characters
      that are neither spaces nor colons, starting at the beginning of the line. */
  lemma RuleNameIff(line: string)
    ensures RuleName(line).Some? <==>
      exists j :: 0 < j < |line| && line[j] == ':' && forall k :: 0 <= k < j ==> IsRuleNameChar(line[k])
    ensures RuleName(line).Some? ==>
      forall k :: 0 <= k < |RuleName(line).value| ==> IsRuleNameChar(RuleName(line).value[k])
  {
    var j := RunEnd(line, 0, IsRuleNameChar);
    RunEndAll(line, 0, IsRuleNameChar);
    forall j' | 0 < j' < |line| && line[j'] == ':' && (forall k :: 0 <= k < j' ==> IsRuleNameChar(line[k]))
      ensures j' == j
    {
    }
  }

  /** What one entry reports for line `i` (src/makefile.ts:42-66): nothing unless its test
      holds and its range function yields a span. */
  function EntryDiagnostics(entry: MakefileEntry, line: string, i: nat): seq<Diagnostic>
  {
    if entry.pattern(line) && entry.getRange.Some? then
      match entry.getRange.value(line, i)
      case Some(range) =>
        [Diagnostic(i, range.0, range.1, entry.errorMessage, ToDiagnosticSeverity(entry.severity), MakefileSource)]
      case None => []
    else []
  }

  /** An entry reports line `i` once when its test holds and its range function finds a
      span, over that span on line `i`, and not at all otherwise. */
  lemma EntryReports(entry: MakefileEntry, line: string, i: nat)
    ensures var ds := EntryDiagnostics(entry, line, i);
      && (|ds| == 1 <==> entry.pattern(line) && entry.getRange.Some? && entry.getRange.value(line, i).Some?)
      && (|ds| == 0 || |ds| == 1)
      && (|ds| == 1 ==>
            && ds[0].line == i && (ds[0].start, ds[0].end) == entry.getRange.value(line, i).value
            && ds[0].message == entry.errorMessage && ds[0].severity == ToDiagnosticSeverity(entry.severity))
  {
  }

  /** What the entries `data`, in order, report for line `i`. */
  function LineDiagnostics(data: seq<MakefileEntry>, line: string, i: nat): seq<Diagnostic>
  {
    if data == [] then []
    else LineDiagnostics(data[..|data| - 1], line, i) + EntryDiagnostics(data[|data| - 1], line, i)
  }

  /** What the first `n` lines get when each of them that is not skipped, line `i`, gets
      `report(lines[i], i)`. */
  function Collect(report: (string, nat) -> seq<Diagnostic>, lines: seq<string>, n: nat): seq<Diagnostic>
    requires n <= |lines|
  {
    if n == 0 then []
    else Collect(report, lines, n - 1) + (if Skipped(lines[n - 1]) then [] else report(lines[n - 1], n - 1))
  }

  /** The line diagnostics of the first `n` lines. */
  function AllLineDiagnostics(data: seq<MakefileEntry>, lines: seq<string>, n: nat): seq<Diagnostic>
    requires n <= |lines|
  {
    Collect((line: string, i: nat) => LineDiagnostics(data, line, i), lines, n)
  }

  /** The rule line `line` adds to `foundRules`, if any. */
  function RuleFound(line: string): set<string> {
    var name := RuleName(line);
    if !Skipped(line) && name.Some? && name.value in RequiredRules then {name.value} else {}
  }

  /** The required rules declared on the first `n` lines (`foundRules`). */
  function FoundRules(lines: seq<string>, n: nat): set<string>
    requires n <= |lines|
  {
    if n == 0 then {} else FoundRules(lines, n - 1) + RuleFound(lines[n - 1])
  }

  /** `requiredRules.filter(rule => !foundRules.has(rule))`. */
  function MissingRules(required: seq<string>, found: set<string>): (missing: seq<string>)
    ensures |missing| <= |required|
    ensures forall r :: r in missing <==> r in required && r !in found
  {
    if required == [] then []
    else
      var rest := MissingRules(required[1..], found);
      assert forall r :: r in required <==> r == required[0] || r in required[1..];
      (if required[0] !in found then [required[0]] else []) + rest
  }

  /** The message naming the missing rules, with a plural `s` for more than one. */
  function MissingMessage(missing: seq<string>): string {
    (if |missing| > 1 then "Missing required rules: " else "Missing required rule: ") + Join(missing, ", ")
  }

  /** `xs` is `ys` with some elements left out, the rest kept in order. */
  predicate Subsequence(xs: seq<string>, ys: seq<string>)
    decreases |ys|
  {
    xs == [] || (ys != [] && ((xs[0] == ys[0] && Subsequence(xs[1..], ys[1..])) || Subsequence(xs, ys[1..])))
  }

  /** `filter` keeps the required rules in their own order. */
  lemma {:induction false} MissingRulesInOrder(required: seq<string>, found: set<string>)
    ensures Subsequence(MissingRules(required, found), required)
  {
    if required != [] {
      MissingRulesInOrder(required[1..], found);
      var rest := MissingRules(required[1..], found);
      if required[0] !in found {
        assert ([required[0]] + rest)[1..] == rest;
      } else {
        assert MissingRules(required, found) == rest;
      }
    }
  }

  /** The message says `rules` exactly when more than one rule is missing. */
  lemma MissingMessagePlural(missing: seq<string>)
    ensures StartsWith(MissingMessage(missing), "Missing required rules: ") <==> |missing| > 1
    ensures StartsWith(MissingMessage(missing), "Missing required rule: ") <==> |missing| <= 1
  {
    var joined := Join(missing, ", ");
    if |missing| > 1 {
      PrefixOfJoin("Missing required rules: ", joined);
      PrefixDiffers(MissingMessage(missing), "Missing required rule: ", 21);
    } else {
      PrefixOfJoin("Missing required rule: ", joined);
      PrefixDiffers(MissingMessage(missing), "Missing required rules: ", 21);
    }
  }

  /** The message ends with the missing rules joined by `, `. */
  lemma MissingMessageList(missing: seq<string>)
    ensures EndsWith(MissingMessage(missing), ": " + Join(missing, ", "))
  {
    SuffixAfterColon(if |missing| > 1 then "Missing required rules: " else "Missing required rule: ",
                     Join(missing, ", "));
  }

  lemma SuffixAfterColon(prefix: string, b: string)
    requires EndsWith(prefix, ": ")
    ensures EndsWith(prefix + b, ": " + b)
  {
    assert (prefix + b)[|prefix| + |b| - |b| - 2..] == prefix[|prefix| - 2..] + b;
  }

  lemma PrefixOfJoin(a: string, b: string)
    ensures StartsWith(a + b, a)
  {
    assert (a + b)[..|a|] == a;
  }

  /** A text whose character `i` differs from the prefix's does not start with it. */
  lemma PrefixDiffers(m: string, prefix: string, i: nat)
    requires i < |prefix| && (i < |m| ==> m[i] != prefix[i])
    ensures !StartsWith(m, prefix)
  {
    if |prefix| <= |m| {
      assert m[..|prefix|][i] == m[i];
    }
  }

  /** The diagnostic at the very start of the file that lists the missing rules. */
  function MissingDiagnostic(missing: seq<string>): Diagnostic {
    Diagnostic(0, 0, 0, MissingMessage(missing), DiagnosticSeverity.Error, MakefileSource)
  }

  /** What `parseMakefile` returns for the document's text. */
  function MakefileSpec(data: seq<MakefileEntry>, text: string): (ds: seq<Diagnostic>)
    ensures forall k :: 0 <= k < |ds| ==> ds[k].source == MakefileSource && 0 <= ds[k].line <= Count(text, '\n')
  {
    var lines := Split(text, '\n');
    LineDiagnosticsOrdered(data, lines, |lines|);
    var missing := MissingRules(RequiredRules, FoundRules(lines, |lines|));
    AllLineDiagnostics(data, lines, |lines|) + (if |missing| > 0 then [MissingDiagnostic(missing)] else [])
  }

  /** `parseMakefile` (src/makefile.ts:16-85) over the document's text. */
  method ParseMakefile(data: seq<MakefileEntry>, text: string) returns (diagnostics: seq<Diagnostic>)
    ensures diagnostics == MakefileSpec(data, text)
  {
    diagnostics := [];
    var lines := Split(text, '\n');
    var foundRules: set<string> := {};
    for i := 0 to |lines|
      invariant diagnostics == AllLineDiagnostics(data, lines, i)
      invariant foundRules == FoundRules(lines, i)
    {
      var line := lines[i];
      LineStep(data, lines, i);
      RuleStep(lines, i);
      if Skipped(line) {
        continue;
      }
      var ruleMatch := RuleName(line);
      if ruleMatch.Some? && ruleMatch.value in RequiredRules {
        foundRules := foundRules + {ruleMatch.value};
      }
      var lineDiagnostics := TestLine(data, line, i);
      diagnostics := diagnostics + lineDiagnostics;
    }
    var missingRules := MissingRules(RequiredRules, foundRules);
    if |missingRules| > 0 {
      diagnostics := diagnostics + [MissingDiagnostic(missingRules)];
    }
  }

  /** What line `i` adds to the line diagnostics. */
  lemma LineStep(data: seq<MakefileEntry>, lines: seq<string>, i: nat)
    requires i < |lines|
    ensures Skipped(lines[i]) ==> AllLineDiagnostics(data, lines, i + 1) == AllLineDiagnostics(data, lines, i)
    ensures !Skipped(lines[i]) ==>
      AllLineDiagnostics(data, lines, i + 1) == AllLineDiagnostics(data, lines, i) + LineDiagnostics(data, lines[i], i)
  {
    assert AllLineDiagnostics(data, lines, i) + [] == AllLineDiagnostics(data, lines, i);
  }

  /** What line `i` adds to the found rules. */
  lemma RuleStep(lines: seq<string>, i: nat)
    requires i < |lines|
    ensures Skipped(lines[i]) ==> FoundRules(lines, i + 1) == FoundRules(lines, i)
    ensures !Skipped(lines[i]) && RuleName(lines[i]).Some? && RuleName(lines[i]).value in RequiredRules ==>
      FoundRules(lines, i + 1) == FoundRules(lines, i) + {RuleName(lines[i]).value}
    ensures !Skipped(lines[i]) && !(RuleName(lines[i]).Some? && RuleName(lines[i]).value in RequiredRules) ==>
      FoundRules(lines, i + 1) == FoundRules(lines, i)
  {
    assert FoundRules(lines, i) + {} == FoundRules(lines, i);
  }

  /** The inner loop of `parseMakefile` (src/makefile.ts:40-68): every entry, in order, over
      one line that is not skipped. */
  method TestLine(data: seq<MakefileEntry>, line: string, i: nat) returns (diagnostics: seq<Diagnostic>)
    ensures diagnostics == LineDiagnostics(data, line, i)
  {
    diagnostics := [];
    for j := 0 to |data|
      invariant diagnostics == LineDiagnostics(data[..j], line, i)
    {
      var entry := data[j];
      assert data[..j + 1][..j] == data[..j];
      if entry.pattern(line) {
        var range := if entry.getRange.Some? then entry.getRange.value(line, i) else None;
        if range.Some? {
          diagnostics := diagnostics + [Diagnostic(i, range.value.0, range.value.1, entry.errorMessage,
                                                   ToDiagnosticSeverity(entry.severity), MakefileSource)];
        }
      }
    }
    assert data[..|data|] == data;
  }

  /** Some line among the first `n`, not skipped, declares rule `r`. */
  predicate Declares(lines: seq<string>, n: nat, r: string)
    requires n <= |lines|
  {
    exists i :: 0 <= i < n && !Skipped(lines[i]) && RuleName(lines[i]) == Some(r)
  }

  /** A rule is found exactly when it is required and some line that is not skipped declares it. */
  lemma {:induction false} FoundRulesIff(lines: seq<string>, n: nat, r: string)
    requires n <= |lines|
    ensures r in FoundRules(lines, n) <==> r in RequiredRules && Declares(lines, n, r)
  {
    if n > 0 {
      FoundRulesIff(lines, n - 1, r);
      if Declares(lines, n, r) && !Declares(lines, n - 1, r) {
        var i :| 0 <= i < n && !Skipped(lines[i]) && RuleName(lines[i]) == Some(r);
        assert i == n - 1;
      }
    }
  }

  /**
   * The closing diagnostic: it is added exactly when some required rule is declared on no
   * line, it comes after every line diagnostic, and it names precisely the undeclared
   * required rules, in the order of `requiredRules`.
   */
  lemma MissingReported(data: seq<MakefileEntry>, text: string)
    ensures var lines := Split(text, '\n');
      var ds := MakefileSpec(data, text);
      var lineDs := AllLineDiagnostics(data, lines, |lines|);
      && ds[..|lineDs|] == lineDs
      && (|ds| == |lineDs| + 1 <==> exists k :: 0 <= k < |RequiredRules| && !Declares(lines, |lines|, RequiredRules[k]))
      && (|ds| == |lineDs| || |ds| == |lineDs| + 1)
    ensures var lines := Split(text, '\n');
      var missing := MissingRules(RequiredRules, FoundRules(lines, |lines|));
      forall r :: r in missing <==> r in RequiredRules && !Declares(lines, |lines|, r)
    ensures var lines := Split(text, '\n');
      var missing := MissingRules(RequiredRules, FoundRules(lines, |lines|));
      var ds := MakefileSpec(data, text);
      var lineDs := AllLineDiagnostics(data, lines, |lines|);
      |ds| == |lineDs| + 1 ==>
        ds[|lineDs|] == Diagnostic(0, 0, 0, MissingMessage(missing), DiagnosticSeverity.Error, MakefileSource)
  {
    var lines := Split(text, '\n');
    var found := FoundRules(lines, |lines|);
    var missing := MissingRules(RequiredRules, found);
    forall r
      ensures r in missing <==> r in RequiredRules && !Declares(lines, |lines|, r)
    {
      FoundRulesIff(lines, |lines|, r);
    }
    if exists k :: 0 <= k < |RequiredRules| && !Declares(lines, |lines|, RequiredRules[k]) {
      var k :| 0 <= k < |RequiredRules| && !Declares(lines, |lines|, RequiredRules[k]);
      assert RequiredRules[k] in missing;
    } else if |missing| > 0 {
      assert missing[0] in missing;
    }
  }

  /** Each of `ds` sits on line `i` and carries the checker's source. */
  predicate OnLine(ds: seq<Diagnostic>, i: nat) {
    forall k :: 0 <= k < |ds| ==> ds[k].line == i && ds[k].source == MakefileSource
  }

  /** Every diagnostic of one line sits on that line and carries the checker's source. */
  lemma {:induction false} LineDiagnosticsOnLine(data: seq<MakefileEntry>, line: string, i: nat)
    ensures OnLine(LineDiagnostics(data, line, i), i)
  {
    if data != [] {
      LineDiagnosticsOnLine(data[..|data| - 1], line, i);
      var a := LineDiagnostics(data[..|data| - 1], line, i);
      var b := EntryDiagnostics(data[|data| - 1], line, i);
      forall k | |a| <= k < |a + b|
        ensures (a + b)[k] == b[k - |a|]
      {
      }
    }
  }

  /** Each of `ds` lies on one of the first `n` lines, a line that is not skipped. */
  predicate OnUnskippedLines(ds: seq<Diagnostic>, lines: seq<string>, n: nat)
    requires n <= |lines|
  {
    forall k :: 0 <= k < |ds| ==> 0 <= ds[k].line < n && !Skipped(lines[ds[k].line]) && ds[k].source == MakefileSource
  }

  predicate InLineOrder(ds: seq<Diagnostic>) {
    forall a, b :: 0 <= a <= b < |ds| ==> ds[a].line <= ds[b].line
  }

  /** Appending the report of the next line, which is not skipped, keeps both. */
  lemma OrderedAppend(prev: seq<Diagnostic>, last: seq<Diagnostic>, lines: seq<string>, n: nat)
    requires 0 < n <= |lines| && !Skipped(lines[n - 1])
    requires OnUnskippedLines(prev, lines, n - 1) && InLineOrder(prev)
    requires OnLine(last, n - 1)
    ensures OnUnskippedLines(prev + last, lines, n) && InLineOrder(prev + last)
  {
    var ds := prev + last;
    forall k | |prev| <= k < |ds|
      ensures ds[k].line == n - 1 && ds[k].source == MakefileSource
    {
      assert ds[k] == last[k - |prev|];
    }
    forall a, b | 0 <= a <= b < |ds|
      ensures ds[a].line <= ds[b].line
    {
      if b < |prev| {
        assert ds[a] == prev[a] && ds[b] == prev[b];
      } else if a < |prev| {
        assert ds[a] == prev[a];
      }
    }
    forall k | 0 <= k < |prev|
      ensures ds[k] == prev[k]
    {
    }
  }

  /** When every report stays on its own line, the collected reports come from lines that are
      not skipped, in line order. */
  lemma {:induction false} CollectOrdered(report: (string, nat) -> seq<Diagnostic>, lines: seq<string>, n: nat)
    requires n <= |lines|
    requires forall line, i :: OnLine(report(line, i), i)
    ensures OnUnskippedLines(Collect(report, lines, n), lines, n)
    ensures InLineOrder(Collect(report, lines, n))
  {
    if n > 0 {
      CollectOrdered(report, lines, n - 1);
      var prev := Collect(report, lines, n - 1);
      if Skipped(lines[n - 1]) {
        assert Collect(report, lines, n) == prev + [] == prev;
      } else {
        OrderedAppend(prev, report(lines[n - 1], n - 1), lines, n);
      }
    }
  }

  /** Line diagnostics come from lines that are not skipped, in line order. */
  lemma LineDiagnosticsOrdered(data: seq<MakefileEntry>, lines: seq<string>, n: nat)
    requires n <= |lines|
    ensures OnUnskippedLines(AllLineDiagnostics(data, lines, n), lines, n)
    ensures InLineOrder(AllLineDiagnostics(data, lines, n))
  {
    var report := (line: string, i: nat) => LineDiagnostics(data, line, i);
    forall line: string, i: nat
      ensures OnLine(report(line, i), i)
    {
      LineDiagnosticsOnLine(data, line, i);
    }
    CollectOrdered(report, lines, n);
  }

  /**
   * With the shipped dictionary, a line gets at most one diagnostic: an Error carrying the
   * wildcard message, exactly when the test holds and the range search finds a token, over
   * the leftmost token's columns.
   */
  lemma DefaultLineDiagnostics(line: string, i: nat)
    ensures var ds := LineDiagnostics(DefaultMakefileDictionary, line, i);
      && |ds| <= 1
      && (|ds| == 1 <==> WildcardPattern(line) && GetRange(line, i).Some?)
      && (|ds| == 1 ==>
            && ds[0].line == i && ds[0].message == WildcardMessage
            && ds[0].severity == DiagnosticSeverity.Error && ds[0].source == MakefileSource
            && 0 <= ds[0].start < ds[0].end <= |line|
            && TokenAt(line, ds[0].start, false) == Some(ds[0].end))
  {
    assert DefaultMakefileDictionary[..0] == [];
  }
}
