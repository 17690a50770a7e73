/** The settings dialog (`SettingsModel`): the user pastes a Google Sheets share
    URL, the dialog extracts the spreadsheet id, stores it and reports it. */
module SpreadsheetSettings {
  import opened Wrappers
  import opened Text
  import Browser

  const UrlPrefix := "https://docs.google.com/spreadsheets/d/"

  /** `[a-zA-Z0-9-_]`: the characters of a spreadsheet id. */
  predicate IsIdChar(c: char) {
    'a' <= c <= 'z' || 'A' <= c <= 'Z' || '0' <= c <= '9' || c == '-' || c == '_'
  }

  predicate IsSpreadsheetId(id: string) {
    id != [] && forall k :: 0 <= k < |id| ==> IsIdChar(id[k])
  }

  /** The longest prefix of `s` made of id characters (the greedy `+` of the pattern). */
  function IdRun(s: string): (r: string)
    ensures |r| <= |s| && r == s[..|r|]
    ensures forall k :: 0 <= k < |r| ==> IsIdChar(r[k])
    ensures |r| == |s| || !IsIdChar(s[|r|])
  {
    if s != [] && IsIdChar(s[0]) then [s[0]] + IdRun(s[1..]) else []
  }

  /** `extractSpreadsheetId`: trims, requires the URL prefix at the start, and returns the
      maximal run of id characters after it; whatever follows (`/edit`, `#gid=0`) is ignored. */
  function ExtractSpreadsheetId(input: string): (r: Option<string>)
    ensures var c := JsTrim(input);
      r.Some? <==> UrlPrefix <= c && |c| > |UrlPrefix| && IsIdChar(c[|UrlPrefix|])
    ensures var c := JsTrim(input);
      r.Some? ==>
        && IsSpreadsheetId(r.value)
        && UrlPrefix + r.value <= c
        && (|c| == |UrlPrefix| + |r.value| || !IsIdChar(c[|UrlPrefix| + |r.value|]))
  {
    var c := JsTrim(input);
    if UrlPrefix <= c then
      ExtractAfterPrefix(UrlPrefix, c);
      var id := IdRun(c[|UrlPrefix|..]);
      if id != [] then Some(id) else None
    else None
  }

  /** The id run after a prefix: present exactly when an id character follows the prefix,
      and then the prefix and the run together begin the text and end at a non-id
      character or at the end. */
  lemma {:induction false} ExtractAfterPrefix(p: string, c: string)
    requires p <= c
    ensures var id := IdRun(c[|p|..]);
      && (id != [] <==> |c| > |p| && IsIdChar(c[|p|]))
      && (id != [] ==> IsSpreadsheetId(id) && p + id <= c &&
                       (|c| == |p| + |id| || !IsIdChar(c[|p| + |id|])))
  {
    var rest := c[|p|..];
    var id := IdRun(rest);
    assert id != [] <==> |rest| > 0 && IsIdChar(rest[0]);
    if id != [] {
      assert p + id == c[..|p| + |id|];
    }
  }

  /** `buildSpreadsheetUrl`: the share URL for an id, `""` for a missing or empty id. */
  function BuildSpreadsheetUrl(id: Option<string>): (url: string)
    ensures url == "" <==> id.None? || id.value == ""
    ensures url != "" ==> UrlPrefix <= url && url[|UrlPrefix|..] == id.value
  {
    if id.None? || id.value == "" then "" else UrlPrefix + id.value
  }

  lemma {:induction false} IdRunOfId(s: string)
    requires forall k :: 0 <= k < |s| ==> IsIdChar(s[k])
    ensures IdRun(s) == s
  {
    if s != [] {
      IdRunOfId(s[1..]);
      assert s == [s[0]] + s[1..];
    }
  }

  /** Building the URL of an id and extracting from it gives the id back. */
  lemma {:induction false} ExtractBuildRoundTrip(id: string)
    requires IsSpreadsheetId(id)
    ensures ExtractSpreadsheetId(BuildSpreadsheetUrl(Some(id))) == Some(id)
  {
    var url := UrlPrefix + id;
    assert BuildSpreadsheetUrl(Some(id)) == url;
    assert !IsJsSpace(url[0]) && !IsJsSpace(url[|url| - 1]) by {
      assert url[0] == 'h';
      assert url[|url| - 1] == id[|id| - 1];
    }
    assert JsTrim(url) == url;
    assert UrlPrefix <= url && url[|UrlPrefix|..] == id;
    IdRunOfId(id);
  }

  /** Extraction is a normal form: rebuilding the URL from an extracted id and extracting
      again yields the same id, whatever surrounded it in the pasted text. */
  lemma {:induction false} ExtractIsCanonical(input: string)
    requires ExtractSpreadsheetId(input).Some?
    ensures var id := ExtractSpreadsheetId(input).value;
      ExtractSpreadsheetId(BuildSpreadsheetUrl(Some(id))) == Some(id)
  {
    ExtractBuildRoundTrip(ExtractSpreadsheetId(input).value);
  }

  /** The dialog's state: the text field and the storage it writes to. */
  class SettingsModal {
    var tempId: string
    const storage: Browser.LocalStorage

    /** The field starts with the share URL of the current id (empty when there is none). */
    constructor(currentId: string, storage: Browser.LocalStorage)
      ensures this.storage == storage
      ensures tempId == BuildSpreadsheetUrl(Some(currentId))
    {
      this.storage := storage;
      tempId := BuildSpreadsheetUrl(Some(currentId));
    }

    /** `handleSave`: an empty field or a URL without an id stores nothing and reports
        nothing; otherwise the extracted id (not the pasted text) is stored under
        `spreadsheetId` and reported to `onSave`. */
    method HandleSave() returns (reported: Option<string>)
      modifies storage
      ensures tempId == "" ==> reported.None?
      ensures tempId != "" ==> reported == ExtractSpreadsheetId(tempId)
      ensures storage.spreadsheetId == if reported.Some? then reported else old(storage.spreadsheetId)
    {
      if tempId == "" {
        return None;
      }
      var extracted := ExtractSpreadsheetId(tempId);
      if extracted.None? {
        return None;
      }
      storage.spreadsheetId := extracted;
      reported := extracted;
    }
  }
}
