/**
 * The norm rule dictionary: the two entry shapes the resolvers read, the range kinds of
 * src/dictionary/NormRange.ts, the entries shipped in src/dictionary/NormDictionary.ts, and
 * the first-match lookup both resolvers perform with `data.find`.
 */
module NormDictionary {
  import opened Options
  import opened Diagnostics

  /**
   * How an entry of the current resolver widens the anchor into a span
   * (`NormRange` with its `NormRangeType`). Fields the resolver does not read for a given
   * type are left out of that variant; an absent `invert…` flag is `false`.
   */
  datatype NormRange =
    | Numeric(start: Option<int>, end: Option<int>)
    | Delimiter(startDelimiters: Option<seq<string>>, endDelimiters: Option<seq<string>>,
                invertStart: bool, invertEnd: bool)
    | Line

  /** An entry as src/norminette.ts reads it: the range, if present, is a `NormRange`. */
  datatype NormEntry = NormEntry(severity: EntrySeverity, errorCode: string, errorMessage: string,
                                 range: Option<NormRange>)

  /** An entry as src/extension.ts reads it (src/dictionary/NormEntry.ts): one signed number. */
  datatype LegacyNormEntry = LegacyNormEntry(severity: EntrySeverity, errorCode: string,
                                             errorMessage: string, range: Option<int>)

  /** The entries of `defaultDictionary()` in src/dictionary/NormDictionary.ts. */
  const DefaultDictionary: seq<LegacyNormEntry> := [
    LegacyNormEntry(EntrySeverity.Warning, "TOO_MANY_LINES", "kill yourself", Some(1)),
    LegacyNormEntry(EntrySeverity.Error, "SPACE_BEFORE_FUNC", "Space before function name", Some(1)),
    LegacyNormEntry(EntrySeverity.Error, "NO_ARGS_VOID", "buy a gun and off yourself", Some(-1)),
    LegacyNormEntry(EntrySeverity.Error, "DECL_ASSIGN_LINE", "djndh8db23u9bu9gd9", Some(-99))
  ]

  /** `data.find(e => code(e) === c)`: the first entry whose code is `c`. Both resolvers look
      their codes up this way, each over its own entry shape. */
  function Find<E>(data: seq<E>, code: E -> string, c: string): (r: Option<E>)
    ensures r.None? <==> forall i :: 0 <= i < |data| ==> code(data[i]) != c
    ensures r.Some? ==> r.value in data && code(r.value) == c
  {
    if data == [] then None
    else if code(data[0]) == c then Some(data[0])
    else
      assert forall e :: e in data[1..] ==> e in data;
      Find(data[1..], code, c)
  }

  /** The entry found is the first one with the code. */
  lemma {:induction false} FindFirst<E>(data: seq<E>, code: E -> string, c: string)
    ensures Find(data, code, c).Some? ==>
      exists i :: 0 <= i < |data| && data[i] == Find(data, code, c).value
                  && forall j :: 0 <= j < i ==> code(data[j]) != c
  {
    if data != [] && code(data[0]) != c {
      FindFirst(data[1..], code, c);
      if Find(data, code, c).Some? {
        var i :| 0 <= i < |data| - 1 && data[1..][i] == Find(data, code, c).value
                 && forall j :: 0 <= j < i ==> code(data[1..][j]) != c;
        assert data[i + 1] == data[1..][i];
      }
    }
  }

  function EntryCode(e: NormEntry): string { e.errorCode }

  function LegacyEntryCode(e: LegacyNormEntry): string { e.errorCode }

  /** The lookup of src/norminette.ts:68. */
  function Lookup(data: seq<NormEntry>, code: string): Option<NormEntry> {
    Find(data, EntryCode, code)
  }

  /** The lookup of src/extension.ts:92. */
  function LookupLegacy(data: seq<LegacyNormEntry>, code: string): Option<LegacyNormEntry> {
    Find(data, LegacyEntryCode, code)
  }
}
