/**
 * The Makefile rule dictionary of src/dictionary/MakefileDictionary.ts: one entry, which flags
 * source-file variables assigned with a wildcard. An entry pairs a line test (a regular
 * expression in the source, a predicate here) with an optional function that finds the
 * columns to underline (src/dictionary/MakefileEntry.ts).
 *
 * The test is `/^(SRCS?|SRC?|SOURCES?|FILES?)\s*[+:!?]?=.*(\*\.\w+|\$\(wildcard\s)/i` and the
 * range search is `/(\*\.\w+|\$\(wildcard\s)/`, both hand-coded below. The test ignores ASCII
 * case; the range search does not.
 */
module MakefileDictionary {
  import opened Options
  import opened Text
  import opened Diagnostics

  datatype MakefileEntry = MakefileEntry(
    severity: EntrySeverity,
    pattern: string -> bool,
    errorMessage: string,
    getRange: Option<(string, int) -> Option<(int, int)>>)

  const WildcardMessage := "Wildcards are not allowed to specify source files."

  /** The spellings `SRCS?|SRC?|SOURCES?|FILES?` accepts. */
  const Names: seq<string> := ["SRCS", "SRC", "SR", "SOURCES", "SOURCE", "FILES", "FILE"]

  /** `pat` occurs at `i` when ASCII letters are compared without case (the `i` flag). */
  predicate OccursAtIgnoreCase(s: string, pat: string, i: nat) {
    i + |pat| <= |s| && forall k :: 0 <= k < |pat| ==> FoldCase(s[i + k]) == FoldCase(pat[k])
  }

  /** A pattern that starts with a character other than a letter matches, with or without
      case, only where the text has that very character. */
  lemma HeadOf(s: string, pat: string, i: nat)
    ensures ((OccursAt(s, pat, i) || OccursAtIgnoreCase(s, pat, i)) && |pat| > 0
             && !('a' <= pat[0] <= 'z') && !('A' <= pat[0] <= 'Z')) ==> s[i] == pat[0]
  {
    if OccursAt(s, pat, i) && |pat| > 0 {
      assert s[i..i + |pat|][0] == s[i];
    }
    if OccursAtIgnoreCase(s, pat, i) && |pat| > 0 {
      assert FoldCase(s[i + 0]) == FoldCase(pat[0]);
    }
  }

  /** `\s*[+:!?]?=` at `p`: the index just past `=`. The spaces are taken whole, since
      neither an operator nor `=` is a space. */
  function AfterName(line: string, p: nat): (r: Option<nat>)
    requires p <= |line|
    ensures r.Some? ==> p < r.value <= |line| && line[r.value - 1] == '='
  {
    var k := RunEnd(line, p, IsSpace);
    if k < |line| && line[k] == '=' then Some(k + 1)
    else if k + 1 < |line| && line[k] in "+:!?" && line[k + 1] == '=' then Some(k + 2)
    else None
  }

  /**
   * `(\*\.\w+|\$\(wildcard\s)` at `t`, without or with the `i` flag: the index just past the
   * token. The first alternative takes its maximal run of word characters.
   */
  function TokenAt(line: string, t: nat, ignoreCase: bool): (r: Option<nat>)
    ensures r.Some? ==> t < r.value <= |line|
    ensures r.Some? ==> (line[t] == '*' && r.value >= t + 3) || (line[t] == '$' && r.value == t + 11)
    ensures r.Some? && line[t] == '*' ==>
      && line[t + 1] == '.'
      && (forall k :: t + 2 <= k < r.value ==> IsWordChar(line[k]))
      && (r.value == |line| || !IsWordChar(line[r.value]))
    ensures r.Some? && line[t] == '$' ==>
      && (if ignoreCase then OccursAtIgnoreCase(line, "$(wildcard", t) else OccursAt(line, "$(wildcard", t))
      && IsSpace(line[t + 10])
    ensures t + 2 < |line| && line[t] == '*' && line[t + 1] == '.' && IsWordChar(line[t + 2]) ==> r.Some?
    ensures && (if ignoreCase then OccursAtIgnoreCase(line, "$(wildcard", t) else OccursAt(line, "$(wildcard", t))
            && t + 10 < |line| && IsSpace(line[t + 10])
            ==> r == Some(t + 11)
  {
    HeadOf(line, "$(wildcard", t);
    if t + 1 < |line| && line[t] == '*' && line[t + 1] == '.' then
      var j := RunEnd(line, t + 2, IsWordChar);
      RunEndAll(line, t + 2, IsWordChar);
      if j > t + 2 then Some(j) else None
    else if (if ignoreCase then OccursAtIgnoreCase(line, "$(wildcard", t) else OccursAt(line, "$(wildcard", t))
            && t + 10 < |line| && IsSpace(line[t + 10]) then
      Some(t + 11)
    else None
  }

  /** `.*` from `t` and then a token ignoring case: `.` stops at a line terminator. */
  predicate TokenAhead(line: string, t: nat)
    decreases |line| - t
  {
    t < |line| && (TokenAt(line, t, true).Some? || (!IsLineTerminator(line[t]) && TokenAhead(line, t + 1)))
  }

  /** The test with one spelling of the variable name. */
  predicate NameTrigger(line: string, name: string) {
    && OccursAtIgnoreCase(line, name, 0)
    && var eq := AfterName(line, |name|);
       eq.Some? && TokenAhead(line, eq.value)
  }

  /** `pattern.test(line)` of the wildcard entry (src/dictionary/MakefileDictionary.ts:13). */
  predicate WildcardPattern(line: string)
    ensures WildcardPattern(line) ==> |line| > 0 && (FoldCase(line[0]) == 'S' || FoldCase(line[0]) == 'F')
  {
    assert forall k :: 0 <= k < |Names| && OccursAtIgnoreCase(line, Names[k], 0) ==>
      FoldCase(line[0]) == FoldCase(Names[k][0 + 0]) && (Names[k][0] == 'S' || Names[k][0] == 'F');
    exists k :: 0 <= k < |Names| && NameTrigger(line, Names[k])
  }

  /**
   * The test holds only on a line that starts, ignoring case, with one of the names, goes on
   * with the assignment operator, and holds a token, ignoring case, after the `=` with no
   * line terminator before it.
   */
  lemma TriggerSeesToken(line: string)
    ensures WildcardPattern(line) ==>
      exists k, t :: && 0 <= k < |Names| && OccursAtIgnoreCase(line, Names[k], 0)
                     && AfterName(line, |Names[k]|).Some?
                     && AfterName(line, |Names[k]|).value <= t < |line| && TokenAt(line, t, true).Some?
                     && forall q :: AfterName(line, |Names[k]|).value <= q < t ==> !IsLineTerminator(line[q])
  {
    if WildcardPattern(line) {
      var k :| 0 <= k < |Names| && NameTrigger(line, Names[k]);
      var eq := AfterName(line, |Names[k]|);
      TokenAheadFinds(line, eq.value);
    }
  }

  /**
   * The converse: a line that starts, ignoring case, with one of the names, goes on with the
   * assignment operator and then holds a token, ignoring case, with no line terminator
   * between the `=` and the token, passes the test.
   */
  lemma TokenTriggers(line: string, k: nat, t: nat)
    requires k < |Names| && OccursAtIgnoreCase(line, Names[k], 0)
    requires AfterName(line, |Names[k]|).Some? && AfterName(line, |Names[k]|).value <= t
    requires TokenAt(line, t, true).Some?
    requires forall q :: AfterName(line, |Names[k]|).value <= q < t ==> !IsLineTerminator(line[q])
    ensures WildcardPattern(line)
  {
    TokenAheadFrom(line, AfterName(line, |Names[k]|).value, t);
    assert NameTrigger(line, Names[k]);
  }

  /** The leftmost case-sensitive token at or after `from`: where it starts and ends. */
  function FirstToken(line: string, from: nat): (r: Option<(nat, nat)>)
    ensures r.Some? ==> from <= r.value.0 && TokenAt(line, r.value.0, false) == Some(r.value.1)
    ensures forall q :: from <= q && (r.None? || q < r.value.0) ==> TokenAt(line, q, false).None?
    decreases |line| + 1 - from
  {
    if from > |line| then None
    else match TokenAt(line, from, false)
      case Some(e) => Some((from, e))
      case None => FirstToken(line, from + 1)
  }

  /** Any occurrence of a token's text is itself the start of a token. */
  lemma OccurrenceIsToken(line: string, t: nat, e: nat, q: nat)
    requires TokenAt(line, t, false) == Some(e) && OccursAt(line, line[t..e], q)
    ensures TokenAt(line, q, false).Some?
  {
    var matched := line[t..e];
    assert line[q..q + |matched|] == matched;
    assert line[q] == matched[0] == line[t];
    if line[t] == '*' {
      assert line[q + 1] == matched[1] == line[t + 1];
      assert line[q + 2] == matched[2] == line[t + 2];
      RunEndAll(line, t + 2, IsWordChar);
      assert IsWordChar(line[t + 2]);
    } else {
      assert line[q..q + 10] == matched[..10] == "$(wildcard";
      assert line[q + 10] == matched[10] == line[t + 10];
    }
  }

  /**
   * `getRange` of the wildcard entry (src/dictionary/MakefileDictionary.ts:16-24). It looks up
   * the matched text again with `indexOf`; that finds the match itself, because any earlier
   * occurrence of the text would have been an earlier match. So the span is exactly the
   * leftmost case-sensitive token, and there is none exactly when no token occurs.
   */
  function GetRange(line: string, lineNumber: int): (r: Option<(int, int)>)
    ensures r.None? <==> forall t :: TokenAt(line, t, false).None?
    ensures r.Some? ==> 0 <= r.value.0 < r.value.1 <= |line| && TokenAt(line, r.value.0, false) == Some(r.value.1)
    ensures r.Some? ==> forall q :: 0 <= q < r.value.0 ==> TokenAt(line, q, false).None?
  {
    match FirstToken(line, 0)
    case None => None
    case Some(tok) =>
      var matched := line[tok.0..tok.1];
      var start := IndexOf(line, matched);
      assert start == tok.0 by {
        assert OccursAt(line, matched, tok.0);
        if start < tok.0 {
          OccurrenceIsToken(line, tok.0, tok.1, start);
        }
      }
      Some((start, start + |matched|))
  }

  /** `defaultDictionary()` of src/dictionary/MakefileDictionary.ts. */
  const DefaultMakefileDictionary: seq<MakefileEntry> :=
    [MakefileEntry(EntrySeverity.Error, WildcardPattern, WildcardMessage, Some(GetRange))]

  /** A case-sensitive token is also a token when case is ignored, and a `*.` token is the
      same token either way. */
  lemma TokenCaseAgree(line: string, t: nat)
    ensures TokenAt(line, t, false).Some? ==> TokenAt(line, t, true) == TokenAt(line, t, false)
    ensures t < |line| && line[t] == '*' ==> TokenAt(line, t, true) == TokenAt(line, t, false)
  {
    HeadOf(line, "$(wildcard", t);
  }

  /** `.*` then a token: some token, ignoring case, starts at or after `t`, and no line
      terminator comes before it. */
  lemma {:induction false} TokenAheadFinds(line: string, t: nat)
    requires TokenAhead(line, t)
    ensures exists u :: t <= u < |line| && TokenAt(line, u, true).Some?
                        && forall q :: t <= q < u ==> !IsLineTerminator(line[q])
    decreases |line| - t
  {
    if TokenAt(line, t, true).None? {
      TokenAheadFinds(line, t + 1);
      var u :| t + 1 <= u < |line| && TokenAt(line, u, true).Some?
               && forall q :: t + 1 <= q < u ==> !IsLineTerminator(line[q]);
      assert forall q :: t <= q < u ==> !IsLineTerminator(line[q]);
    } else {
      assert TokenAt(line, t, true).Some?;
    }
  }

  /** A token, ignoring case, with no line terminator between `t` and it is seen by `.*`
      then a token from `t`. */
  lemma {:induction false} TokenAheadFrom(line: string, t: nat, u: nat)
    requires t <= u && TokenAt(line, u, true).Some?
    requires forall q :: t <= q < u ==> !IsLineTerminator(line[q])
    ensures TokenAhead(line, t)
    decreases u - t
  {
    if t < u {
      TokenAheadFrom(line, t + 1, u);
    }
  }

  /**
   * When the test holds and every token it could have seen is a `*.` one, `getRange` finds a
   * span, so the line is reported.
   */
  lemma StarTriggerHasRange(line: string, lineNumber: int)
    requires WildcardPattern(line)
    requires forall t :: 0 <= t < |line| && TokenAt(line, t, true).Some? ==> line[t] == '*'
    ensures GetRange(line, lineNumber).Some?
  {
    var k :| 0 <= k < |Names| && NameTrigger(line, Names[k]);
    var eq := AfterName(line, |Names[k]|);
    TokenAheadFinds(line, eq.value);
    var u :| eq.value <= u < |line| && TokenAt(line, u, true).Some?
             && forall q :: eq.value <= q < u ==> !IsLineTerminator(line[q]);
    assert line[u] == '*';
    TokenCaseAgree(line, u);
    assert TokenAt(line, u, false).Some?;
  }

  /** Without a `*` and a lower-case `w`, a line holds no case-sensitive token. */
  lemma NoTokenWithout(line: string, t: nat)
    ensures '*' !in line && 'w' !in line ==> TokenAt(line, t, false).None?
  {
    if t < |line| {
      assert line[t] in line;
    }
    if OccursAt(line, "$(wildcard", t) {
      assert line[t + 2] == line[t..t + 10][2];
      assert line[t + 2] in line;
    }
  }

  /**
   * The test ignores case but the range search does not. A line whose only wildcard is
   * spelled without a lower-case `w`, and which holds no `*`, gets no span, so it is not
   * reported, whether or not the test holds.
   */
  lemma CaseMismatchUnreported(line: string, lineNumber: int)
    requires '*' !in line && 'w' !in line
    ensures GetRange(line, lineNumber).None?
  {
    forall t: nat
      ensures TokenAt(line, t, false).None?
    {
      NoTokenWithout(line, t);
    }
  }

  /** The line `UpperCaseWildcardUnreported` is about. */
  const UpperCaseLine := "SRCS = $(WILDCARD src)"

  lemma UpperCaseLineChars()
    ensures TokenAt(UpperCaseLine, 7, true) == Some(18)
    ensures '*' !in UpperCaseLine && 'w' !in UpperCaseLine
  {
    var line := UpperCaseLine;
    forall k | 0 <= k < 10
      ensures FoldCase(line[7 + k]) == FoldCase("$(wildcard"[k])
    {
      assert k == 0 || k == 1 || k == 2 || k == 3 || k == 4 || k == 5 || k == 6 || k == 7 || k == 8 || k == 9;
    }
    forall i | 0 <= i < |line|
      ensures line[i] != '*' && line[i] != 'w'
    {
      assert || i == 0 || i == 1 || i == 2 || i == 3 || i == 4 || i == 5 || i == 6 || i == 7
             || i == 8 || i == 9 || i == 10 || i == 11 || i == 12 || i == 13 || i == 14 || i == 15
             || i == 16 || i == 17 || i == 18 || i == 19 || i == 20 || i == 21;
    }
  }

  lemma UpperCaseLineTriggers()
    ensures NameTrigger(UpperCaseLine, Names[0])
  {
    var line := UpperCaseLine;
    UpperCaseLineChars();
    assert AfterName(line, 4) == Some(6);
    assert TokenAhead(line, 7);
    assert OccursAtIgnoreCase(line, "SRCS", 0) by {
      assert line[..4] == "SRCS";
    }
  }

  /** An instance of `CaseMismatchUnreported`: `SRCS = $(WILDCARD src)` passes the test, yet
      yields no span. */
  lemma UpperCaseWildcardUnreported()
    ensures WildcardPattern(UpperCaseLine)
    ensures GetRange(UpperCaseLine, 0).None?
  {
    UpperCaseLineTriggers();
    UpperCaseLineChars();
    CaseMismatchUnreported(UpperCaseLine, 0);
  }
}
