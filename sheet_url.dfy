/**
 * The spreadsheet-id parser shared by the sheet connector and the editor:
 * the id is the run of `[a-zA-Z0-9-_]` after the first of three URL
 * patterns that matches.
 */
module SheetUrl {
  import opened Wrappers
  import Text
  import opened Values

  /** `/\/d\/…/`, `/spreadsheet\/d\/…/` and `/\/spreadsheets\/d\/…/`, tried in this order. */
  const SheetPatterns: seq<string> := ["/d/", "spreadsheet/d/", "/spreadsheets/d/"]

  /** The id captured by the first pattern that matches `s`, if any. */
  function FirstPatternId(s: string, patterns: seq<string>): (r: Option<string>)
    ensures r.Some? ==> r.value != [] && forall k :: 0 <= k < |r.value| ==> Text.IsIdChar(r.value[k])
    ensures r.None? <==> forall p, j :: p in patterns ==> !Text.MatchesAt(s, p, j)
  {
    if patterns == [] then None
    else
      var m := Text.FindIdAfter(s, patterns[0]);
      if m.Some? then m else FirstPatternId(s, patterns[1..])
  }

  /**
   * `extractSheetId` (and its copy `extractSpreadsheetId`): `null` for a
   * missing, empty or non-string URL; otherwise the id of the first pattern
   * that matches, or `null` when none does.
   */
  function ExtractSheetId(url: Option<Value>): (r: Option<string>)
    ensures !(url.Some? && url.value.Str? && url.value.s != []) ==> r.None?
    ensures r.Some? ==> r.value != [] && forall k :: 0 <= k < |r.value| ==> Text.IsIdChar(r.value[k])
  {
    match url
    case Some(Str(s)) => if s == [] then None else FirstPatternId(s, SheetPatterns)
    case _ => None
  }

  /** A match of the second or third pattern is a match of the first one, further right. */
  lemma LaterPatternsImplyFirst(s: string, j: int)
    ensures Text.MatchesAt(s, "spreadsheet/d/", j) ==> Text.MatchesAt(s, "/d/", j + 11)
    ensures Text.MatchesAt(s, "/spreadsheets/d/", j) ==> Text.MatchesAt(s, "/d/", j + 13)
  {
    if Text.MatchesAt(s, "spreadsheet/d/", j) {
      assert "spreadsheet/d/" == "spreadsheet" + "/d/";
      Text.MatchOfSuffix(s, "spreadsheet", "/d/", j);
    }
    if Text.MatchesAt(s, "/spreadsheets/d/", j) {
      assert "/spreadsheets/d/" == "/spreadsheets" + "/d/";
      Text.MatchOfSuffix(s, "/spreadsheets", "/d/", j);
    }
  }

  /**
   * The second and third patterns never decide the result: for a non-empty
   * string the id is exactly the one after the leftmost `/d/` that is
   * followed by an id character, and there is one exactly when such a
   * `/d/` exists.
   */
  lemma SheetIdIsFirstSlashD(s: string)
    requires s != []
    ensures ExtractSheetId(Some(Str(s))) == Text.FindIdAfter(s, "/d/")
    ensures ExtractSheetId(Some(Str(s))).Some? <==> exists j :: Text.MatchesAt(s, "/d/", j)
  {
    if Text.FindIdAfter(s, "/d/").None? {
      forall p, j | p in SheetPatterns ensures !Text.MatchesAt(s, p, j) {
        LaterPatternsImplyFirst(s, j);
      }
    }
  }
}
