/**
 * The 42 school header of src/header.ts: a generator for the thirteen-piece comment banner
 * and a detector that looks for its first line. `handleHeader` inserts the banner at the top
 * of a document that has none, once the user name and e-mail are configured.
 *
 * The clock is a parameter: `now` is what `new Date().toISOString()` returns. The editor's
 * configuration, the document and the edit are parameters and results.
 */
module Header {
  import opened Text

  /** A run of `n` copies of `c`. */
  function Run(c: char, n: nat): (r: string)
    ensures |r| == n && forall i :: 0 <= i < n ==> r[i] == c
  {
    seq(n, _ => c)
  }

  /** The fixed lines of the header, written as runs of one character around the 42 logo.
      `Banner` is the first and the eleventh line, `Blank` the second and the tenth. */
  const Banner := "/* " + Run('*', 74) + " */"
  const Blank := "/*" + Run(' ', 76) + "*/"
  const LogoTop := "/*" + Run(' ', 56) + ":::      ::::::::   */"
  const LogoMiddle := "/*" + Run(' ', 52) + "+:+ +:+         +:+     */"
  const LogoBottom := "/*" + Run(' ', 48) + "+#+#+#+#+#+   +#+           */"

  /** The width of every line of a header whose fields fit. */
  const Width := 80

  /** The fixed lines are as wide as a header and hold no line break. */
  lemma FixedLines()
    ensures |Banner| == Width && |Blank| == Width && |LogoTop| == Width && |LogoMiddle| == Width && |LogoBottom| == Width
    ensures '\n' !in Banner && '\n' !in Blank && '\n' !in LogoTop && '\n' !in LogoMiddle && '\n' !in LogoBottom
  {
    assert '\n' !in Run('*', 74) && '\n' !in Run(' ', 76) && '\n' !in Run(' ', 56) && '\n' !in Run(' ', 52) && '\n' !in Run(' ', 48);
  }

  /** `hasHeader`: at least eleven `\n`-separated pieces, the first starting with the banner. */
  predicate HasHeader(text: string)
    ensures HasHeader(text) ==> Count(text, '\n') >= 10
  {
    var lines := Split(text, '\n');
    |lines| >= 11 && StartsWith(lines[0], Banner)
  }

  /** The detector sees a header exactly when the text starts with the banner and holds at
      least ten line breaks. */
  lemma HeaderDetected(text: string)
    ensures HasHeader(text) <==> StartsWith(text, Banner) && Count(text, '\n') >= 10
  {
    var first := Split(text, '\n')[0];
    SplitFirstPrefix(text, '\n');
    FixedLines();
    if StartsWith(first, Banner) {
      assert text[..|Banner|] == first[..|Banner|] by {
        assert text[..|first|][..|Banner|] == text[..|Banner|];
      }
    }
    if StartsWith(text, Banner) {
      SplitFirstStartsWith(text, '\n', Banner);
    }
  }

  /** `formatFilename`: the file name padded to the 51 columns of its field. */
  function FormatFilename(filename: string): (r: string)
    ensures |r| == if |filename| >= 51 then |filename| else 51
    ensures StartsWith(r, filename)
  {
    PadEnd(filename, 51)
  }

  /** `By: <username> <<email>>`, the user part before padding. */
  function UserPart(username: string, email: string): string {
    "By: " + username + " <" + email + ">"
  }

  /** `formatUserLine`: the user part padded to the 47 columns of its field. */
  function FormatUserLine(username: string, email: string): (r: string)
    ensures |r| == if |username| + |email| >= 40 then |username| + |email| + 7 else 47
    ensures StartsWith(r, UserPart(username, email))
  {
    PadEnd(UserPart(username, email), 47)
  }

  /** `toISOString().slice(0, 19).replace('T', ' ')`: the date and time of day, second
      precision, with the first `T` turned into a space. */
  function DateString(now: string): (r: string)
    ensures |r| == if |now| >= 19 then 19 else |now|
  {
    ReplaceFirst(now[..if |now| >= 19 then 19 else |now|], 'T', ' ')
  }

  /** What `toISOString` returns: at least date and time, with the first `T` at index 10. */
  predicate IsIsoTimestamp(now: string) {
    |now| >= 19 && now[10] == 'T' && forall i :: 0 <= i < 10 ==> now[i] != 'T'
  }

  /** On a timestamp, the date string keeps the first 19 characters and puts a space
      between the date and the time. */
  lemma DateStringOfTimestamp(now: string)
    requires IsIsoTimestamp(now)
    ensures |DateString(now)| == 19 && DateString(now)[10] == ' '
    ensures forall i :: 0 <= i < 19 && i != 10 ==> DateString(now)[i] == now[i]
  {
    var head := now[..19];
    assert head[10] == 'T';
  }

  /** `<label>: <date> by <username>`, the date part before padding. */
  function DatePart(caption: string, now: string, username: string): string {
    caption + ": " + DateString(now) + " by " + username
  }

  /** `formatDateLine`: the date part padded to the 42 columns of its field. */
  function FormatDateLine(caption: string, now: string, username: string): (r: string)
    ensures |r| == if |DatePart(caption, now, username)| >= 42 then |DatePart(caption, now, username)| else 42
    ensures StartsWith(r, DatePart(caption, now, username))
  {
    PadEnd(DatePart(caption, now, username), 42)
  }

  /** The fourth line: the file name. */
  function FileLine(filename: string): (r: string)
    ensures |r| == 5 + |FormatFilename(filename)| + 24
  {
    "/*   " + FormatFilename(filename) + ":+:      :+:    :+:   */"
  }

  /** The sixth line: the user name and e-mail. */
  function UserLine(username: string, email: string): (r: string)
    ensures |r| == 5 + |FormatUserLine(username, email)| + 28
  {
    "/*   " + FormatUserLine(username, email) + "+#+  +:+       +#+        */"
  }

  /** The eighth line: the creation date. */
  function CreatedLine(now: string, username: string): (r: string)
    ensures |r| == 5 + |FormatDateLine("Created", now, username)| + 33
  {
    "/*   " + FormatDateLine("Created", now, username) + "        #+#    #+#             */"
  }

  /** The ninth line: the update date. */
  function UpdatedLine(now: string, username: string): (r: string)
    ensures |r| == 5 + |FormatDateLine("Updated", now, username)| + 33
  {
    "/*   " + FormatDateLine("Updated", now, username) + "       ###   ########.fr       */"
  }

  /** The thirteen pieces `generateHeader` joins: eleven lines and two empty strings. */
  function HeaderLines(filename: string, username: string, email: string, now: string): (lines: seq<string>)
    ensures |lines| == 13 && lines[0] == Banner && lines[10] == Banner && lines[11] == "" && lines[12] == ""
  {
    [ Banner, Blank, LogoTop, FileLine(filename), LogoMiddle, UserLine(username, email), LogoBottom,
      CreatedLine(now, username), UpdatedLine(now, username), Blank, Banner, "", "" ]
  }

  /** `generateHeader`: the pieces joined with `\n`. */
  function GenerateHeader(filename: string, username: string, email: string, now: string): (r: string)
    ensures StartsWith(r, Banner) && EndsWith(r, "\n\n")
  {
    var lines := HeaderLines(filename, username, email, now);
    JoinedEnd(lines);
    Join(lines, "\n")
  }

  /** `document.fileName.split('/').pop() || ''`: the last path segment. */
  function Basename(fileName: string): (r: string)
    ensures '/' !in r && EndsWith(fileName, r)
    ensures '/' !in fileName ==> r == fileName
    ensures r == fileName || (|r| < |fileName| && fileName[|fileName| - |r| - 1] == '/')
  {
    var pieces := Split(fileName, '/');
    SplitLast(fileName, '/');
    SplitAbsent(fileName, '/');
    SplitJoin(fileName, '/');
    var last := pieces[|pieces| - 1];
    if |pieces| == 1 then last
    else
      var init := pieces[..|pieces| - 1];
      assert pieces == init + [last];
      JoinAppend(init, [last], "/");
      assert fileName == Join(init, "/") + "/" + last;
      last
  }

  /**
   * The early exits and the edit of `handleHeader` (src/header.ts:9-26) once the header text is
   * known: whether it inserts, and the document's text afterwards. Missing credentials or an
   * existing header leave the text unchanged.
   */
  function InsertHeader(text: string, username: string, email: string, header: string): (r: (bool, string))
    ensures r.0 <==> username != "" && email != "" && !HasHeader(text)
    ensures r.1 == if r.0 then header + text else text
  {
    if username == "" || email == "" then (false, text)
    else if HasHeader(text) then (false, text)
    else (true, header + text)
  }

  /** `handleHeader` (src/header.ts:3-27) on the document's text, with the header generated
      for the last segment of the file's path. */
  function HandleHeader(text: string, fileName: string, username: string, email: string, now: string): (r: (bool, string))
    ensures r.0 <==> username != "" && email != "" && !HasHeader(text)
    ensures r.1 == if r.0 then GenerateHeader(Basename(fileName), username, email, now) + text else text
  {
    InsertHeader(text, username, email, GenerateHeader(Basename(fileName), username, email, now))
  }

  /** Once a header the detector sees has been inserted, a second insertion is a no-op. */
  lemma InsertIdempotent(text: string, username: string, email: string, header: string,
                         username2: string, email2: string, header2: string)
    requires HasHeader(header + text)
    ensures var first := InsertHeader(text, username, email, header);
      first.0 ==> HasHeader(first.1) && InsertHeader(first.1, username2, email2, header2) == (false, first.1)
  {
  }

  /** Pieces joined with `\n` whose first is the banner: the join starts with the banner, and
      holds a line break per gap, exactly one per gap when no piece holds one. */
  lemma JoinedLines(lines: seq<string>)
    requires |lines| >= 1 && lines[0] == Banner
    ensures StartsWith(Join(lines, "\n"), Banner)
    ensures Count(Join(lines, "\n"), '\n') >= |lines| - 1
    ensures (forall i :: 0 <= i < |lines| ==> '\n' !in lines[i]) ==> Count(Join(lines, "\n"), '\n') == |lines| - 1
  {
    CountJoin(lines, '\n');
  }

  /** Pieces that end with two empty strings join to text ending with `\n\n`. */
  lemma JoinedEnd(lines: seq<string>)
    requires |lines| >= 3 && lines[|lines| - 2] == "" && lines[|lines| - 1] == ""
    ensures EndsWith(Join(lines, "\n"), "\n\n")
  {
    var n := |lines| - 2;
    var head := Join(lines[..n], "\n");
    JoinAppend(lines[..n], lines[n..], "\n");
    assert lines[..n] + lines[n..] == lines;
    assert Join(lines[n..], "\n") == "\n" by {
      assert lines[n..][1..] == [""];
    }
    EndsWithAppended(head + "\n", "\n");
  }

  /** A string ends with whatever was appended to it. */
  lemma EndsWithAppended(s: string, suffix: string)
    ensures EndsWith(s + suffix, suffix)
  {
    assert (s + suffix)[|s|..] == suffix;
  }

  /** The detector sees a join of at least eleven pieces starting with the banner, whatever
      text follows it. */
  lemma DetectsJoined(lines: seq<string>, rest: string)
    requires |lines| >= 11 && lines[0] == Banner
    ensures HasHeader(Join(lines, "\n") + rest)
  {
    var header := Join(lines, "\n");
    JoinedLines(lines);
    CountAppend(header, rest, '\n');
    FixedLines();
    assert StartsWith(header + rest, Banner) by {
      assert (header + rest)[..|Banner|] == header[..|Banner|];
    }
    SplitFirstStartsWith(header + rest, '\n', Banner);
  }

  /** Padding adds only spaces. */
  lemma PadEndNoNewline(s: string, width: nat)
    ensures '\n' !in s ==> '\n' !in PadEnd(s, width)
  {
    if |s| < width {
      assert '\n' !in Spaces(width - |s|);
    }
  }

  /** The date string adds only a space to the clock's characters. */
  lemma DateStringNoNewline(now: string)
    ensures '\n' !in now ==> '\n' !in DateString(now)
  {
    var head := now[..if |now| >= 19 then 19 else |now|];
    assert forall i :: 0 <= i < |head| ==> head[i] == now[i];
  }

  /** The fixed text after each field holds no line break. */
  lemma FileTailNoNewline()
    ensures '\n' !in ":+:      :+:    :+:   */"
  {
  }

  lemma UserTailNoNewline()
    ensures '\n' !in "+#+  +:+       +#+        */"
  {
  }

  lemma CreatedTailNoNewline()
    ensures '\n' !in "        #+#    #+#             */"
  {
  }

  lemma UpdatedTailNoNewline()
    ensures '\n' !in "       ###   ########.fr       */"
  {
  }

  /** The lines that show a field hold no line break when the field holds none. */
  lemma FileLineNoNewline(filename: string)
    ensures '\n' !in filename ==> '\n' !in FileLine(filename)
  {
    FileTailNoNewline();
    PadEndNoNewline(filename, 51);
  }

  lemma UserLineNoNewline(username: string, email: string)
    ensures '\n' !in username && '\n' !in email ==> '\n' !in UserLine(username, email)
  {
    UserTailNoNewline();
    PadEndNoNewline(UserPart(username, email), 47);
  }

  lemma CreatedLineNoNewline(now: string, username: string)
    ensures '\n' !in now && '\n' !in username ==> '\n' !in CreatedLine(now, username)
  {
    CreatedTailNoNewline();
    DateStringNoNewline(now);
    PadEndNoNewline(DatePart("Created", now, username), 42);
  }

  lemma UpdatedLineNoNewline(now: string, username: string)
    ensures '\n' !in now && '\n' !in username ==> '\n' !in UpdatedLine(now, username)
  {
    UpdatedTailNoNewline();
    DateStringNoNewline(now);
    PadEndNoNewline(DatePart("Updated", now, username), 42);
  }

  /**
   * A generated header starts with the banner, ends with `\n\n`, and holds at least twelve
   * line breaks: exactly twelve when no field holds one.
   */
  lemma HeaderShape(filename: string, username: string, email: string, now: string)
    ensures StartsWith(GenerateHeader(filename, username, email, now), Banner)
    ensures EndsWith(GenerateHeader(filename, username, email, now), "\n\n")
    ensures Count(GenerateHeader(filename, username, email, now), '\n') >= 12
    ensures '\n' !in filename && '\n' !in username && '\n' !in email && '\n' !in now ==>
      Count(GenerateHeader(filename, username, email, now), '\n') == 12
  {
    var lines := HeaderLines(filename, username, email, now);
    JoinedLines(lines);
    JoinedEnd(lines);
    if '\n' !in filename && '\n' !in username && '\n' !in email && '\n' !in now {
      LinesNoNewline(filename, username, email, now);
    }
  }

  /** No piece of a header holds a line break when no field does. */
  lemma LinesNoNewline(filename: string, username: string, email: string, now: string)
    requires '\n' !in filename && '\n' !in username && '\n' !in email && '\n' !in now
    ensures forall i :: 0 <= i < 13 ==> '\n' !in HeaderLines(filename, username, email, now)[i]
  {
    var lines := HeaderLines(filename, username, email, now);
    FixedLines();
    FileLineNoNewline(filename);
    UserLineNoNewline(username, email);
    CreatedLineNoNewline(now, username);
    UpdatedLineNoNewline(now, username);
    forall i | 0 <= i < 13 ensures '\n' !in lines[i] {
      assert i == 0 || i == 1 || i == 2 || i == 3 || i == 4 || i == 5 || i == 6
          || i == 7 || i == 8 || i == 9 || i == 10 || i == 11 || i == 12;
    }
  }

  /** The detector recognises what the generator writes, whatever text follows it. */
  lemma DetectsGenerated(filename: string, username: string, email: string, now: string, rest: string)
    ensures HasHeader(GenerateHeader(filename, username, email, now) + rest)
  {
    DetectsJoined(HeaderLines(filename, username, email, now), rest);
  }

  /**
   * Inserting a header is idempotent: once `handleHeader` has inserted one, calling it again
   * on the edited text changes nothing, whatever the file name, credentials and clock.
   */
  lemma HandleHeaderIdempotent(text: string, fileName: string, username: string, email: string, now: string,
                               fileName2: string, username2: string, email2: string, now2: string)
    ensures var first := HandleHeader(text, fileName, username, email, now);
      first.0 ==> HandleHeader(first.1, fileName2, username2, email2, now2) == (false, first.1)
  {
    var header := GenerateHeader(Basename(fileName), username, email, now);
    DetectsGenerated(Basename(fileName), username, email, now, text);
    InsertIdempotent(text, username, email, header,
                     username2, email2, GenerateHeader(Basename(fileName2), username2, email2, now2));
  }

  /** A field padded behind a five-character margin appears whole from the sixth column. */
  lemma ShownAfterMargin(margin: string, field: string, padded: string, tail: string)
    requires |margin| == 5 && StartsWith(padded, field)
    ensures OccursAt(margin + padded + tail, field, 5)
  {
    assert (margin + padded + tail)[5..5 + |field|] == padded[..|field|];
  }

  /** Each field appears whole, from the sixth column of its line on, however long it is. */
  lemma FieldsShown(filename: string, username: string, email: string, now: string)
    ensures OccursAt(FileLine(filename), filename, 5)
    ensures OccursAt(UserLine(username, email), UserPart(username, email), 5)
    ensures OccursAt(CreatedLine(now, username), DatePart("Created", now, username), 5)
    ensures OccursAt(UpdatedLine(now, username), DatePart("Updated", now, username), 5)
  {
    ShownAfterMargin("/*   ", filename, FormatFilename(filename), ":+:      :+:    :+:   */");
    ShownAfterMargin("/*   ", UserPart(username, email), FormatUserLine(username, email), "+#+  +:+       +#+        */");
    ShownAfterMargin("/*   ", DatePart("Created", now, username), FormatDateLine("Created", now, username),
                     "        #+#    #+#             */");
    ShownAfterMargin("/*   ", DatePart("Updated", now, username), FormatDateLine("Updated", now, username),
                     "       ###   ########.fr       */");
  }

  /** When every field fits its padding, each of the eleven header lines is exactly as wide
      as the banner. */
  lemma HeaderWidth(filename: string, username: string, email: string, now: string)
    requires |filename| <= 51 && |UserPart(username, email)| <= 47
    requires |DatePart("Created", now, username)| <= 42 && |DatePart("Updated", now, username)| <= 42
    ensures forall i :: 0 <= i < 11 ==> |HeaderLines(filename, username, email, now)[i]| == Width
  {
    FixedLines();
  }

  /** With a timestamp for the clock, the fields fit exactly when the file name has at most
      51 characters, the user name at most 10, and the user name and e-mail together at most 40. */
  lemma FieldsFit(filename: string, username: string, email: string, now: string)
    requires IsIsoTimestamp(now)
    ensures (|filename| <= 51 && |UserPart(username, email)| <= 47
             && |DatePart("Created", now, username)| <= 42 && |DatePart("Updated", now, username)| <= 42)
            <==> |filename| <= 51 && |username| <= 10 && |username| + |email| <= 40
  {
  }
}
