/** The request-header gate of `useApiConfig`: every saving call needs the
    spreadsheet id from local storage and the OAuth provider token of the session. */
module ApiConfig {
  import opened Wrappers

  /** JavaScript falsiness of an optional string: missing or empty. */
  predicate Missing(s: Option<string>) {
    s.None? || s.value == ""
  }

  /** What `getHeaders` produces. `null` comes with one of two prompts, told apart here. */
  datatype HeaderCheck =
    | Headers(headers: map<string, string>)
    | MissingSpreadsheetId   // "register the spreadsheet id in settings"
    | MissingToken           // "no credentials, log in again"

  const AccessTokenHeader := "x-access-token"
  const SpreadsheetIdHeader := "x-spreadsheet-id"

  /** `getHeaders()`: the spreadsheet id is checked first, then the token; when both
      are present the result has exactly the two headers. */
  function GetHeaders(spreadsheetId: Option<string>, providerToken: Option<string>): (r: HeaderCheck)
    ensures r.MissingSpreadsheetId? <==> Missing(spreadsheetId)
    ensures r.MissingToken? <==> !Missing(spreadsheetId) && Missing(providerToken)
    ensures r.Headers? <==> !Missing(spreadsheetId) && !Missing(providerToken)
    ensures r.Headers? ==>
      && r.headers.Keys == {AccessTokenHeader, SpreadsheetIdHeader}
      && |r.headers| == 2
      && r.headers[AccessTokenHeader] == providerToken.value
      && r.headers[SpreadsheetIdHeader] == spreadsheetId.value
  {
    if Missing(spreadsheetId) then MissingSpreadsheetId
    else if Missing(providerToken) then MissingToken
    else
      var h := map[AccessTokenHeader := providerToken.value, SpreadsheetIdHeader := spreadsheetId.value];
      assert AccessTokenHeader != SpreadsheetIdHeader;
      assert h.Keys == {AccessTokenHeader, SpreadsheetIdHeader};
      Headers(h)
  }
}
