/**
 * The report-line pattern both norm resolvers run over norminette's output
 * (src/norminette.ts:59, src/extension.ts:83):
 *
 *   /^(Error|Notice):\s+(\w+)\s+\(line:\s+(\d+),\s+col:\s+(\d+)\)/gm
 *
 * hand-coded as a recogniser over characters. Every quantified class in it is followed by
 * a character the class does not contain, so each `+` takes its maximal run and the match
 * at a given position is unique. `^` in multiline mode holds at the start of the text and
 * after a line terminator; `\s` includes the line terminators, so one match may span lines.
 * The `exec` loop with the `g` flag resumes each search where the previous match ended.
 */
module NormOutput {
  import opened Options
  import opened Text

  /** One finding of the report, with the line and column as norminette prints them. */
  datatype Finding = Finding(kind: string, code: string, line: nat, col: nat)

  /** A match of the pattern: where it starts and ends in the output, and what it found. */
  datatype Match = Match(start: nat, end: nat, finding: Finding)

  /** `^` in multiline mode. */
  predicate AtLineStart(s: string, p: nat) {
    p <= |s| && (p == 0 || IsLineTerminator(s[p - 1]))
  }

  /** `w` is a non-empty string of characters satisfying `p`. */
  predicate RunOf(w: string, p: char -> bool) {
    w != [] && forall k :: 0 <= k < |w| ==> p(w[k])
  }

  /** `s[i..j]` is a non-empty run of characters satisfying `p` that cannot be extended. */
  predicate IsRun(s: string, i: nat, j: nat, p: char -> bool) {
    && i < j <= |s|
    && (forall k :: i <= k < j ==> p(s[k]))
    && (j < |s| ==> !p(s[j]))
  }

  /** `p+` at `i`: the end of a non-empty maximal run, if there is one. */
  function Plus(s: string, i: nat, p: char -> bool): (r: Option<nat>)
    requires i <= |s|
    ensures r.Some? ==> i < r.value <= |s|
  {
    var j := RunEnd(s, i, p);
    if j == i then None else Some(j)
  }

  /** `p+` matches exactly where a character of `p` stands, and takes the maximal run. */
  lemma PlusRun(s: string, i: nat, p: char -> bool)
    requires i <= |s|
    ensures Plus(s, i, p).Some? <==> i < |s| && p(s[i])
    ensures Plus(s, i, p).Some? ==> IsRun(s, i, Plus(s, i, p).value, p)
  {
    RunEndAll(s, i, p);
  }

  /** A maximal run is exactly what `p+` takes. */
  lemma PlusIs(s: string, i: nat, j: nat, p: char -> bool)
    requires IsRun(s, i, j, p)
    ensures Plus(s, i, p) == Some(j)
  {
    RunEndAll(s, i, p);
  }

  /** `parseInt` of a run of decimal digits. */
  function DecimalValue(digits: string): nat {
    if digits == [] then 0
    else 10 * DecimalValue(digits[..|digits| - 1]) + (digits[|digits| - 1] as int - '0' as int) % 10
  }

  /** Leading zeros do not change the value `parseInt` reads. */
  lemma {:induction false} LeadingZero(digits: string)
    requires digits != [] && digits[0] == '0'
    ensures DecimalValue(digits) == DecimalValue(digits[1..])
    decreases |digits|
  {
    if |digits| > 1 {
      var init := digits[..|digits| - 1];
      assert init[1..] == digits[1..][..|digits| - 2];
      LeadingZero(init);
    }
  }

  /** `(Error|Notice)` at `p`. */
  function KindAt(s: string, p: nat): (kind: Option<string>)
    ensures kind.Some? ==> (kind.value == "Error" || kind.value == "Notice") && OccursAt(s, kind.value, p)
  {
    if OccursAt(s, "Error", p) then Some("Error")
    else if OccursAt(s, "Notice", p) then Some("Notice")
    else None
  }

  /** Wherever `Error` or `Notice` stands, `KindAt` reads it. */
  lemma KindAtIs(s: string, p: nat, kind: string)
    requires (kind == "Error" || kind == "Notice") && OccursAt(s, kind, p)
    ensures KindAt(s, p) == Some(kind)
  {
    assert s[p..p + |kind|][0] == s[p];
  }

  /** An element of the pattern after `(Error|Notice)`: a literal, or a greedy run `c+` of a
      class, which is a capturing group when `group` holds. */
  datatype Element = Literal(text: string) | Run(member: char -> bool, group: bool)

  /** A pattern: its elements in order. */
  datatype Pattern = Done | Then(element: Element, next: Pattern)

  /** `:\s+(\w+)\s+`, then `next`. */
  function CodeGroup(next: Pattern): Pattern {
    Then(Literal(":"), Then(Run(IsSpace, false), Then(Run(IsWordChar, true), Then(Run(IsSpace, false), next))))
  }

  /** `\(line:\s+(\d+),`, then `next`. */
  function LineGroup(next: Pattern): Pattern {
    Then(Literal("(line:"), Then(Run(IsSpace, false), Then(Run(IsDigit, true), Then(Literal(","), next))))
  }

  /** `\s+col:\s+(\d+)\)`, then `next`. */
  function ColumnGroup(next: Pattern): Pattern {
    Then(Run(IsSpace, false), Then(Literal("col:"), Then(Run(IsSpace, false), Then(Run(IsDigit, true), Then(Literal(")"), next)))))
  }

  /** `:\s+(\w+)\s+\(line:\s+(\d+),\s+col:\s+(\d+)\)`. */
  const ReportPattern: Pattern := CodeGroup(LineGroup(ColumnGroup(Done)))

  /** The classes of a pattern's capturing groups, in order. */
  function Groups(pattern: Pattern): seq<char -> bool>
    decreases pattern
  {
    match pattern
    case Done => []
    case Then(Run(member, true), next) => [member] + Groups(next)
    case Then(_, next) => Groups(next)
  }

  /** The report pattern captures the code, then the line and the column digits. */
  lemma ReportGroups()
    ensures Groups(ReportPattern) == [IsWordChar, IsDigit, IsDigit]
  {
    var column := ColumnGroup(Done);
    assert Groups(column.next.next.next) == [IsDigit];
    assert Groups(column) == [IsDigit];
    var line := LineGroup(column);
    assert Groups(line.next.next) == [IsDigit, IsDigit];
    assert Groups(line) == [IsDigit, IsDigit];
    assert Groups(ReportPattern.next.next) == [IsWordChar, IsDigit, IsDigit];
  }

  /** A match of the rest of a pattern with `captured` added in front of its groups. */
  function Prepend(captured: seq<string>, r: Option<(seq<string>, nat)>): Option<(seq<string>, nat)> {
    match r
    case None => None
    case Some(rest) => Some((captured + rest.0, rest.1))
  }

  /** `pattern` matched at `i`, each run taking all of its maximal extent: what the groups
      capture, and the index past the match. */
  function Scan(s: string, i: nat, pattern: Pattern): (r: Option<(seq<string>, nat)>)
    requires i <= |s|
    ensures r.Some? ==> i <= r.value.1 <= |s|
    decreases pattern, i
  {
    match pattern
    case Done => Some(([], i))
    case Then(Literal(text), next) =>
      if OccursAt(s, text, i) then Scan(s, i + |text|, next) else None
    case Then(Run(member, group), next) =>
      match Plus(s, i, member)
      case None => None
      case Some(j) => if group then Prepend([s[i..j]], Scan(s, j, next)) else Scan(s, j, next)
  }

  /** The pattern captures one text per group. */
  lemma {:induction false} ScanCount(s: string, i: nat, pattern: Pattern)
    requires i <= |s| && Scan(s, i, pattern).Some?
    ensures |Scan(s, i, pattern).value.0| == |Groups(pattern)|
    decreases pattern
  {
    match pattern
    case Done =>
    case Then(Literal(text), next) =>
      ScanCount(s, i + |text|, next);
    case Then(Run(member, group), next) =>
      ScanCount(s, Plus(s, i, member).value, next);
  }

  /** Each group captures one text, a non-empty run of its class. */
  lemma {:induction false} ScanGroups(s: string, i: nat, pattern: Pattern)
    requires i <= |s| && Scan(s, i, pattern).Some?
    ensures |Scan(s, i, pattern).value.0| == |Groups(pattern)|
    ensures forall k :: 0 <= k < |Groups(pattern)| ==>
      RunOf(Scan(s, i, pattern).value.0[k], Groups(pattern)[k])
    decreases pattern
  {
    match pattern
    case Done =>
    case Then(Literal(text), next) =>
      ScanGroups(s, i + |text|, next);
    case Then(Run(member, group), next) =>
      var j := Plus(s, i, member).value;
      PlusRun(s, i, member);
      ScanGroups(s, j, next);
      if group {
        assert forall k :: 0 <= k < j - i ==> s[i..j][k] == s[i + k];
      }
  }

  /** A pattern whose last element is the literal `text` ends its matches with `text`. */
  predicate EndsWithLiteral(pattern: Pattern, text: string)
    decreases pattern
  {
    match pattern
    case Done => false
    case Then(Literal(t), Done) => t == text
    case Then(_, next) => EndsWithLiteral(next, text)
  }

  lemma {:induction false} ScanEndsWith(s: string, i: nat, pattern: Pattern, text: string)
    requires i <= |s| && EndsWithLiteral(pattern, text) && Scan(s, i, pattern).Some?
    ensures OccursAt(s, text, Scan(s, i, pattern).value.1 - |text|)
    decreases pattern
  {
    match pattern
    case Then(Literal(t), Done) =>
    case Then(Literal(t), next) =>
      ScanEndsWith(s, i + |t|, next, text);
    case Then(Run(member, _), next) =>
      ScanEndsWith(s, Plus(s, i, member).value, next, text);
  }

  /** A run of `p` that occurs at `x` and that the next character does not continue is a
      maximal run there, which `p+` takes whole. */
  lemma RunAt(s: string, x: nat, w: string, p: char -> bool)
    requires OccursAt(s, w, x) && RunOf(w, p)
    requires x + |w| < |s| ==> !p(s[x + |w|])
    ensures Plus(s, x, p) == Some(x + |w|)
  {
    forall k | x <= k < x + |w|
      ensures p(s[k])
    {
      assert s[k] == s[x..x + |w|][k - x];
    }
    PlusIs(s, x, x + |w|, p);
  }

  /** A non-empty occurrence starts with its first character. */
  lemma FirstAt(s: string, w: string, x: nat)
    requires OccursAt(s, w, x) && w != []
    ensures s[x] == w[0]
  {
    assert s[x] == s[x..x + |w|][0];
  }

  /** An occurrence of `a + b` is an occurrence of `a` followed by one of `b`. */
  lemma Split2(s: string, a: string, b: string, x: nat)
    requires OccursAt(s, a + b, x)
    ensures OccursAt(s, a, x) && OccursAt(s, b, x + |a|)
  {
    assert s[x..x + |a|] == s[x..x + |a + b|][..|a|];
    assert s[x + |a|..x + |a + b|] == s[x..x + |a + b|][|a|..];
  }

  /** `:` at `i` followed by maximal runs of spaces, word characters and spaces: the code
      group reads them all and captures the word characters. */
  lemma CodeGroupScan(s: string, i: nat, a: nat, b: nat, c: nat, next: Pattern)
    requires OccursAt(s, ":", i) && Plus(s, i + 1, IsSpace) == Some(a)
    requires Plus(s, a, IsWordChar) == Some(b) && Plus(s, b, IsSpace) == Some(c)
    ensures Scan(s, i, CodeGroup(next)) == Prepend([s[a..b]], Scan(s, c, next))
  {
    var after := Then(Run(IsSpace, false), next);
    assert Scan(s, b, after) == Scan(s, c, next);
    var code := Then(Run(IsWordChar, true), after);
    assert Scan(s, a, code) == Prepend([s[a..b]], Scan(s, c, next));
    var spaced := Then(Run(IsSpace, false), code);
    assert Scan(s, i + 1, spaced) == Scan(s, a, code);
  }

  /** `(line:` at `i` followed by maximal runs of spaces and digits and then `,`: the line
      group reads them all and captures the digits. */
  lemma LineGroupScan(s: string, i: nat, a: nat, b: nat, next: Pattern)
    requires OccursAt(s, "(line:", i) && Plus(s, i + 6, IsSpace) == Some(a)
    requires Plus(s, a, IsDigit) == Some(b) && OccursAt(s, ",", b)
    ensures Scan(s, i, LineGroup(next)) == Prepend([s[a..b]], Scan(s, b + 1, next))
  {
    var comma := Then(Literal(","), next);
    assert Scan(s, b, comma) == Scan(s, b + 1, next);
    var digits := Then(Run(IsDigit, true), comma);
    assert Scan(s, a, digits) == Prepend([s[a..b]], Scan(s, b + 1, next));
    var spaced := Then(Run(IsSpace, false), digits);
    assert Scan(s, i + 6, spaced) == Scan(s, a, digits);
  }

  /** Maximal runs of spaces at `i`, then `col:`, maximal runs of spaces and digits and `)`:
      the column group reads them all and captures the digits. */
  lemma ColumnGroupScan(s: string, i: nat, a: nat, b: nat, c: nat, next: Pattern)
    requires i <= |s| && Plus(s, i, IsSpace) == Some(a)
    requires OccursAt(s, "col:", a) && Plus(s, a + 4, IsSpace) == Some(b)
    requires Plus(s, b, IsDigit) == Some(c) && OccursAt(s, ")", c)
    ensures Scan(s, i, ColumnGroup(next)) == Prepend([s[b..c]], Scan(s, c + 1, next))
  {
    var close := Then(Literal(")"), next);
    assert Scan(s, c, close) == Scan(s, c + 1, next);
    var digits := Then(Run(IsDigit, true), close);
    assert Scan(s, b, digits) == Prepend([s[b..c]], Scan(s, c + 1, next));
    var spaced := Then(Run(IsSpace, false), digits);
    assert Scan(s, a + 4, spaced) == Scan(s, b, digits);
    var col := Then(Literal("col:"), spaced);
    assert Scan(s, a, col) == Scan(s, a + 4, spaced);
    assert Scan(s, i, Then(Run(IsSpace, false), col)) == Scan(s, a, col);
  }

  /** The match of the pattern that starts exactly at `p`, if any. */
  function MatchAt(s: string, p: nat): (m: Option<Match>)
    ensures m.Some? ==> AtLineStart(s, p) && m.value.start == p && p < m.value.end <= |s|
    ensures m.Some? ==> m.value.finding.kind == "Error" || m.value.finding.kind == "Notice"
  {
    if !AtLineStart(s, p) then None
    else match KindAt(s, p)
      case None => None
      case Some(kind) =>
        match Scan(s, p + |kind|, ReportPattern)
        case None => None
        case Some(groups) =>
          ScanCount(s, p + |kind|, ReportPattern);
          ReportGroups();
          Some(Match(p, groups.1, Finding(kind, groups.0[0], DecimalValue(groups.0[1]), DecimalValue(groups.0[2]))))
  }

  /** A match starts with its kind, captures a non-empty run of word characters as the code
      and ends with `)`. */
  lemma MatchAtShape(s: string, p: nat)
    ensures MatchAt(s, p).Some? ==>
      && OccursAt(s, MatchAt(s, p).value.finding.kind, p)
      && RunOf(MatchAt(s, p).value.finding.code, IsWordChar)
      && OccursAt(s, ")", MatchAt(s, p).value.end - 1)
  {
    if MatchAt(s, p).Some? {
      var kind := KindAt(s, p).value;
      ReportGroups();
      ScanGroups(s, p + |kind|, ReportPattern);
      assert EndsWithLiteral(ReportPattern, ")");
      ScanEndsWith(s, p + |kind|, ReportPattern, ")");
    }
  }

  /** Where the kind stands at the start of a line and the pattern reads three groups after
      it, `MatchAt` reports the kind, the code, and the values of the digits. */
  lemma MatchFromScan(s: string, p: nat, kind: string, code: string, line: string, col: string, end: nat)
    requires AtLineStart(s, p) && (kind == "Error" || kind == "Notice") && OccursAt(s, kind, p)
    requires p + |kind| <= |s| && Scan(s, p + |kind|, ReportPattern) == Some(([code, line, col], end))
    ensures MatchAt(s, p) == Some(Match(p, end, Finding(kind, code, DecimalValue(line), DecimalValue(col))))
  {
    KindAtIs(s, p, kind);
    assert KindAt(s, p) == Some(kind);
  }

  /** The pieces of the text of `:\s+(\w+)\s+` at `x`, one after another. */
  lemma CodePieces(s: string, x: nat, w1: string, code: string, w2: string)
    requires OccursAt(s, ":" + w1 + code + w2, x)
    ensures OccursAt(s, ":", x) && OccursAt(s, w1, x + 1) && OccursAt(s, code, x + 1 + |w1|)
    ensures OccursAt(s, w2, x + 1 + |w1| + |code|)
  {
    Split2(s, ":" + w1 + code, w2, x);
    Split2(s, ":" + w1, code, x);
    Split2(s, ":", w1, x);
  }

  /** `:` and runs of spaces, word characters and spaces at `x`, followed by a non-space,
      are read by the code group, which captures the word characters. */
  lemma CodeRuns(s: string, x: nat, w1: string, code: string, w2: string, y: nat, next: Pattern)
    requires RunOf(w1, IsSpace) && RunOf(code, IsWordChar) && RunOf(w2, IsSpace)
    requires OccursAt(s, ":", x) && OccursAt(s, w1, x + 1) && OccursAt(s, code, x + 1 + |w1|)
    requires OccursAt(s, w2, x + 1 + |w1| + |code|) && y == x + 1 + |w1| + |code| + |w2|
    requires y < |s| ==> !IsSpace(s[y])
    ensures Scan(s, x, CodeGroup(next)) == Prepend([code], Scan(s, y, next))
  {
    var a, b := x + 1 + |w1|, x + 1 + |w1| + |code|;
    FirstAt(s, code, a);
    FirstAt(s, w2, b);
    assert IsWordChar(code[0]) && IsSpace(w2[0]);
    RunAt(s, x + 1, w1, IsSpace);
    RunAt(s, a, code, IsWordChar);
    RunAt(s, b, w2, IsSpace);
    CodeGroupScan(s, x, a, b, y, next);
  }

  /** The text of `:\s+(\w+)\s+` at `x`, followed by a non-space, is read by the code
      group, which captures the code. */
  lemma CodeTextAt(s: string, x: nat, w1: string, code: string, w2: string, y: nat, next: Pattern)
    requires RunOf(w1, IsSpace) && RunOf(code, IsWordChar) && RunOf(w2, IsSpace)
    requires OccursAt(s, ":" + w1 + code + w2, x) && y == x + |":" + w1 + code + w2|
    requires y < |s| ==> !IsSpace(s[y])
    ensures Scan(s, x, CodeGroup(next)) == Prepend([code], Scan(s, y, next))
  {
    CodePieces(s, x, w1, code, w2);
    CodeRuns(s, x, w1, code, w2, y, next);
  }

  /** The pieces of the text of `\(line:\s+(\d+),` at `x`, one after another. */
  lemma LinePieces(s: string, x: nat, w3: string, dl: string)
    requires OccursAt(s, "(line:" + w3 + dl + ",", x)
    ensures OccursAt(s, "(line:", x) && OccursAt(s, w3, x + 6) && OccursAt(s, dl, x + 6 + |w3|)
    ensures OccursAt(s, ",", x + 6 + |w3| + |dl|)
  {
    Split2(s, "(line:" + w3 + dl, ",", x);
    Split2(s, "(line:" + w3, dl, x);
    Split2(s, "(line:", w3, x);
  }

  /** `(line:` and runs of spaces and digits and `,` at `x` are read by the line group,
      which captures the digits. */
  lemma LineRuns(s: string, x: nat, w3: string, dl: string, y: nat, next: Pattern)
    requires RunOf(w3, IsSpace) && RunOf(dl, IsDigit)
    requires OccursAt(s, "(line:", x) && OccursAt(s, w3, x + 6) && OccursAt(s, dl, x + 6 + |w3|)
    requires OccursAt(s, ",", x + 6 + |w3| + |dl|) && y == x + 6 + |w3| + |dl| + 1
    ensures Scan(s, x, LineGroup(next)) == Prepend([dl], Scan(s, y, next))
  {
    var a, b := x + 6 + |w3|, x + 6 + |w3| + |dl|;
    FirstAt(s, dl, a);
    FirstAt(s, ",", b);
    assert IsDigit(dl[0]);
    RunAt(s, x + 6, w3, IsSpace);
    RunAt(s, a, dl, IsDigit);
    LineGroupScan(s, x, a, b, next);
  }

  /** The text of `\(line:\s+(\d+),` at `x` is read by the line group, which captures the
      digits. */
  lemma LineTextAt(s: string, x: nat, w3: string, dl: string, y: nat, next: Pattern)
    requires RunOf(w3, IsSpace) && RunOf(dl, IsDigit)
    requires OccursAt(s, "(line:" + w3 + dl + ",", x) && y == x + |"(line:" + w3 + dl + ","|
    ensures Scan(s, x, LineGroup(next)) == Prepend([dl], Scan(s, y, next))
  {
    LinePieces(s, x, w3, dl);
    LineRuns(s, x, w3, dl, y, next);
  }

  /** The pieces of the text of `\s+col:\s+(\d+)\)` at `x`, one after another. */
  lemma ColumnPieces(s: string, x: nat, w4: string, w5: string, dc: string)
    requires OccursAt(s, w4 + "col:" + w5 + dc + ")", x)
    ensures OccursAt(s, w4, x) && OccursAt(s, "col:", x + |w4|) && OccursAt(s, w5, x + |w4| + 4)
    ensures OccursAt(s, dc, x + |w4| + 4 + |w5|) && OccursAt(s, ")", x + |w4| + 4 + |w5| + |dc|)
  {
    Split2(s, w4 + "col:" + w5 + dc, ")", x);
    Split2(s, w4 + "col:" + w5, dc, x);
    Split2(s, w4 + "col:", w5, x);
    Split2(s, w4, "col:", x);
  }

  /** Runs of spaces and `col:`, spaces and digits and `)` at `x` are read by the column
      group, which captures the digits. */
  lemma ColumnRuns(s: string, x: nat, w4: string, w5: string, dc: string, y: nat, next: Pattern)
    requires RunOf(w4, IsSpace) && RunOf(w5, IsSpace) && RunOf(dc, IsDigit)
    requires OccursAt(s, w4, x) && OccursAt(s, "col:", x + |w4|) && OccursAt(s, w5, x + |w4| + 4)
    requires OccursAt(s, dc, x + |w4| + 4 + |w5|) && OccursAt(s, ")", x + |w4| + 4 + |w5| + |dc|)
    requires y == x + |w4| + 4 + |w5| + |dc| + 1
    ensures Scan(s, x, ColumnGroup(next)) == Prepend([dc], Scan(s, y, next))
  {
    var a, b, c := x + |w4|, x + |w4| + 4 + |w5|, x + |w4| + 4 + |w5| + |dc|;
    FirstAt(s, "col:", a);
    FirstAt(s, dc, b);
    FirstAt(s, ")", c);
    assert IsDigit(dc[0]);
    RunAt(s, x, w4, IsSpace);
    RunAt(s, a + 4, w5, IsSpace);
    RunAt(s, b, dc, IsDigit);
    ColumnGroupScan(s, x, a, b, c, next);
  }

  /** The text of `\s+col:\s+(\d+)\)` at `x` is read by the column group, which captures
      the digits. */
  lemma ColumnTextAt(s: string, x: nat, w4: string, w5: string, dc: string, y: nat, next: Pattern)
    requires RunOf(w4, IsSpace) && RunOf(w5, IsSpace) && RunOf(dc, IsDigit)
    requires OccursAt(s, w4 + "col:" + w5 + dc + ")", x) && y == x + |w4 + "col:" + w5 + dc + ")"|
    ensures Scan(s, x, ColumnGroup(next)) == Prepend([dc], Scan(s, y, next))
  {
    ColumnPieces(s, x, w4, w5, dc);
    ColumnRuns(s, x, w4, w5, dc, y, next);
  }

  /** The three groups read one after another make up the report pattern. */
  lemma ReportAssembly(s: string, x: nat, y: nat, z: nat, end: nat, code: string, dl: string, dc: string)
    requires x <= y <= z <= end <= |s|
    requires Scan(s, x, CodeGroup(LineGroup(ColumnGroup(Done)))) == Prepend([code], Scan(s, y, LineGroup(ColumnGroup(Done))))
    requires Scan(s, y, LineGroup(ColumnGroup(Done))) == Prepend([dl], Scan(s, z, ColumnGroup(Done)))
    requires Scan(s, z, ColumnGroup(Done)) == Prepend([dc], Scan(s, end, Done))
    ensures Scan(s, x, ReportPattern) == Some(([code, dl, dc], end))
  {
    assert Scan(s, z, ColumnGroup(Done)) == Some(([dc], end)) by {
      assert [dc] + [] == [dc];
    }
    assert Scan(s, y, LineGroup(ColumnGroup(Done))) == Some(([dl, dc], end)) by {
      assert [dl] + [dc] == [dl, dc];
    }
    assert [code] + [dl, dc] == [code, dl, dc];
  }

  /** The kind and the three group texts of a report line stand one after another, and the
      line group starts with `(`. */
  lemma Pieces(s: string, p: nat, kind: string, codeText: string, lineText: string, columnText: string)
    requires OccursAt(s, kind + codeText + lineText + columnText, p) && lineText != [] && lineText[0] == '('
    ensures OccursAt(s, kind, p) && OccursAt(s, codeText, p + |kind|)
    ensures OccursAt(s, lineText, p + |kind| + |codeText|) && s[p + |kind| + |codeText|] == '('
    ensures OccursAt(s, columnText, p + |kind| + |codeText| + |lineText|)
  {
    Split2(s, kind + codeText + lineText, columnText, p);
    Split2(s, kind + codeText, lineText, p);
    Split2(s, kind, codeText, p);
    FirstAt(s, lineText, p + |kind| + |codeText|);
  }

  /**
   * A report line that occurs at the start of a line of `s` is matched there, and the match
   * gives back its kind, its code, and the values of its line and column digits. The
   * separators `w1`..`w5` are any non-empty runs of whitespace, as norminette pads its
   * columns; what follows the line does not matter.
   */
  lemma LineAt(s: string, p: nat, kind: string, w1: string, code: string, w2: string,
               w3: string, dl: string, w4: string, w5: string, dc: string)
    requires AtLineStart(s, p) && (kind == "Error" || kind == "Notice")
    requires RunOf(code, IsWordChar) && RunOf(dl, IsDigit) && RunOf(dc, IsDigit)
    requires RunOf(w1, IsSpace) && RunOf(w2, IsSpace) && RunOf(w3, IsSpace)
    requires RunOf(w4, IsSpace) && RunOf(w5, IsSpace)
    requires OccursAt(s, kind + (":" + w1 + code + w2) + ("(line:" + w3 + dl + ",") + (w4 + "col:" + w5 + dc + ")"), p)
    ensures MatchAt(s, p)
      == Some(Match(p, p + |kind + (":" + w1 + code + w2) + ("(line:" + w3 + dl + ",") + (w4 + "col:" + w5 + dc + ")")|,
                    Finding(kind, code, DecimalValue(dl), DecimalValue(dc))))
  {
    var codeText := ":" + w1 + code + w2;
    var lineText := "(line:" + w3 + dl + ",";
    var columnText := w4 + "col:" + w5 + dc + ")";
    var x := p + |kind|;
    var y := x + |codeText|;
    var z := y + |lineText|;
    Pieces(s, p, kind, codeText, lineText, columnText);
    var end := z + |columnText|;
    ColumnTextAt(s, z, w4, w5, dc, end, Done);
    LineTextAt(s, y, w3, dl, z, ColumnGroup(Done));
    CodeTextAt(s, x, w1, code, w2, y, LineGroup(ColumnGroup(Done)));
    ReportAssembly(s, x, y, z, end, code, dl, dc);
    MatchFromScan(s, p, kind, code, dl, dc, end);
  }

  /** `line` written out after `pre` occurs right after it, at the start of a line when
      `pre` is empty or ends with a line terminator. */
  lemma WrittenAfter(pre: string, line: string, rest: string)
    requires pre == [] || IsLineTerminator(pre[|pre| - 1])
    ensures OccursAt(pre + line + rest, line, |pre|) && AtLineStart(pre + line + rest, |pre|)
  {
    var s := pre + line + rest;
    Split2(s, pre + line, rest, 0);
    Split2(s, pre, line, 0);
    if pre != [] {
      assert s[|pre| - 1] == s[0..|pre|][|pre| - 1];
    }
  }

  /** Round trip: a report line written out after the start of a line (or of the output) is
      matched there, whatever follows it. */
  lemma ReportLineMatches(pre: string, kind: string, w1: string, code: string, w2: string,
                          w3: string, dl: string, w4: string, w5: string, dc: string, rest: string)
    requires pre == [] || IsLineTerminator(pre[|pre| - 1])
    requires kind == "Error" || kind == "Notice"
    requires RunOf(code, IsWordChar) && RunOf(dl, IsDigit) && RunOf(dc, IsDigit)
    requires RunOf(w1, IsSpace) && RunOf(w2, IsSpace) && RunOf(w3, IsSpace)
    requires RunOf(w4, IsSpace) && RunOf(w5, IsSpace)
    ensures MatchAt(pre + (kind + (":" + w1 + code + w2) + ("(line:" + w3 + dl + ",") + (w4 + "col:" + w5 + dc + ")")) + rest, |pre|)
      == Some(Match(|pre|, |pre| + |kind + (":" + w1 + code + w2) + ("(line:" + w3 + dl + ",") + (w4 + "col:" + w5 + dc + ")")|,
                    Finding(kind, code, DecimalValue(dl), DecimalValue(dc))))
  {
    var line := kind + (":" + w1 + code + w2) + ("(line:" + w3 + dl + ",") + (w4 + "col:" + w5 + dc + ")");
    WrittenAfter(pre, line, rest);
    LineAt(pre + line + rest, |pre|, kind, w1, code, w2, w3, dl, w4, w5, dc);
  }

  /**
   * A sticky matcher for a text of length `n`: at each position, the match that starts
   * exactly there, if any. The `exec` loop below works for any of them; `MatchAt` is the one
   * the report pattern gives.
   */
  ghost predicate Sticky(at: nat -> Option<Match>, n: nat) {
    forall p: nat :: at(p).Some? ==> at(p).value.start == p < at(p).value.end <= n
  }

  function ReportMatcher(s: string): (at: nat -> Option<Match>)
    ensures Sticky(at, |s|)
  {
    (p: nat) => MatchAt(s, p)
  }

  /** One `exec` with `lastIndex == from`: the leftmost match starting at or after `from`. */
  function Exec(at: nat -> Option<Match>, n: nat, from: nat): (m: Option<Match>)
    requires Sticky(at, n)
    ensures m.Some? ==> from <= m.value.start < m.value.end <= n && at(m.value.start) == m
    decreases n + 1 - from
  {
    if from > n then None
    else match at(from)
      case Some(here) => Some(here)
      case None => Exec(at, n, from + 1)
  }

  /** The match `exec` finds is the leftmost one: no match starts between `from` and it. */
  lemma {:induction false} ExecLeftmost(at: nat -> Option<Match>, n: nat, from: nat, q: nat)
    requires Sticky(at, n) && from <= q && at(q).Some?
    ensures Exec(at, n, from).Some? && Exec(at, n, from).value.start <= q
    decreases n + 1 - from
  {
    if from < q && at(from).None? {
      ExecLeftmost(at, n, from + 1, q);
    }
  }

  /** All matches the `exec` loop finds when it starts with `lastIndex == from`. */
  function ExecAll(at: nat -> Option<Match>, n: nat, from: nat): (ms: seq<Match>)
    requires Sticky(at, n)
    decreases n + 1 - from
  {
    match Exec(at, n, from)
    case None => []
    case Some(m) => [m] + ExecAll(at, n, m.end)
  }

  /** Every reported match is a match of the matcher at or after `from`. */
  lemma {:induction false} ExecAllAreMatches(at: nat -> Option<Match>, n: nat, from: nat)
    requires Sticky(at, n)
    ensures forall i :: 0 <= i < |ExecAll(at, n, from)| ==>
      from <= ExecAll(at, n, from)[i].start && at(ExecAll(at, n, from)[i].start) == Some(ExecAll(at, n, from)[i])
    decreases n + 1 - from
  {
    var next := Exec(at, n, from);
    if next.Some? {
      var m := next.value;
      ExecAllAreMatches(at, n, m.end);
      var rest := ExecAll(at, n, m.end);
      var ms := [m] + rest;
      assert ExecAll(at, n, from) == ms;
      forall i | 1 <= i < |ms|
        ensures from <= ms[i].start && at(ms[i].start) == Some(ms[i])
      {
        assert ms[i] == rest[i - 1];
      }
    }
  }

  /** Matches that come in order and do not overlap. */
  predicate InOrder(ms: seq<Match>) {
    forall i, j :: 0 <= i < j < |ms| ==> ms[i].end <= ms[j].start
  }

  /** Matches that all start at or after `from`. */
  predicate StartFrom(ms: seq<Match>, from: nat) {
    forall i :: 0 <= i < |ms| ==> from <= ms[i].start
  }

  lemma InOrderCons(m: Match, rest: seq<Match>, from: nat)
    requires from <= m.start <= m.end && InOrder(rest) && StartFrom(rest, m.end)
    ensures InOrder([m] + rest) && StartFrom([m] + rest, from)
  {
    var ms := [m] + rest;
    forall i | 1 <= i < |ms|
      ensures ms[i] == rest[i - 1]
    {
    }
  }

  /** Reported matches come in order and do not overlap. */
  lemma {:induction false} ExecAllOrdered(at: nat -> Option<Match>, n: nat, from: nat)
    requires Sticky(at, n)
    ensures InOrder(ExecAll(at, n, from)) && StartFrom(ExecAll(at, n, from), from)
    decreases n + 1 - from
  {
    var next := Exec(at, n, from);
    if next.Some? {
      ExecAllOrdered(at, n, next.value.end);
      InOrderCons(next.value, ExecAll(at, n, next.value.end), from);
    }
  }

  /** `q` lies within one of the matches `ms`. */
  predicate Covered(ms: seq<Match>, q: nat) {
    exists i :: 0 <= i < |ms| && ms[i].start <= q < ms[i].end
  }

  /** No match is skipped: every position where the matcher matches is the start of a
      reported match or lies inside one. */
  lemma {:induction false} ExecAllComplete(at: nat -> Option<Match>, n: nat, from: nat, q: nat)
    requires Sticky(at, n) && from <= q && at(q).Some?
    ensures Covered(ExecAll(at, n, from), q)
    decreases n + 1 - from
  {
    ExecLeftmost(at, n, from, q);
    var m := Exec(at, n, from).value;
    var rest := ExecAll(at, n, m.end);
    var ms := [m] + rest;
    assert ExecAll(at, n, from) == ms;
    if q < m.end {
      assert ms[0].start <= q < ms[0].end;
    } else {
      ExecAllComplete(at, n, m.end, q);
      var i :| 0 <= i < |rest| && rest[i].start <= q < rest[i].end;
      assert ms[i + 1] == rest[i];
    }
  }

  /** `exec` over the report with `lastIndex == from`. */
  function NextMatch(s: string, from: nat): (m: Option<Match>)
    ensures m.Some? ==> from <= m.value.start < m.value.end <= |s| && MatchAt(s, m.value.start) == m
  {
    Exec(ReportMatcher(s), |s|, from)
  }

  /** The report lines the `exec` loop finds from `from` on. */
  function Matches(s: string, from: nat): seq<Match>
  {
    ExecAll(ReportMatcher(s), |s|, from)
  }

  /** One `exec` of the loop: the matches from `from` are the next match and those after it. */
  lemma MatchesStep(s: string, from: nat)
    ensures NextMatch(s, from).None? ==> Matches(s, from) == []
    ensures NextMatch(s, from).Some? ==>
      Matches(s, from) == [NextMatch(s, from).value] + Matches(s, NextMatch(s, from).value.end)
  {
  }

  /** Every reported finding is a match of the pattern at or after `from`. */
  lemma MatchesAreMatches(s: string, from: nat)
    ensures forall i :: 0 <= i < |Matches(s, from)| ==>
      from <= Matches(s, from)[i].start && MatchAt(s, Matches(s, from)[i].start) == Some(Matches(s, from)[i])
  {
    ExecAllAreMatches(ReportMatcher(s), |s|, from);
  }

  /** Report lines come in output order and do not overlap. */
  lemma MatchesOrdered(s: string, from: nat)
    ensures InOrder(Matches(s, from)) && StartFrom(Matches(s, from), from)
  {
    ExecAllOrdered(ReportMatcher(s), |s|, from);
  }

  /** No line goes unreported: every position where the pattern matches is the start of a
      reported match or lies inside one (a match whose `\s+` ran across a line break). */
  lemma MatchesComplete(s: string, from: nat, q: nat)
    requires from <= q && MatchAt(s, q).Some?
    ensures Covered(Matches(s, from), q)
  {
    ExecAllComplete(ReportMatcher(s), |s|, from, q);
  }


}
