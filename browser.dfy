/** The browser's `localStorage`, reduced to the one slot the client uses:
    the key `spreadsheetId`. */
module Browser {
  import opened Wrappers

  class LocalStorage {
    /** `localStorage.getItem('spreadsheetId')`: `None` when the key was never set. */
    var spreadsheetId: Option<string>

    constructor(initial: Option<string>)
      ensures spreadsheetId == initial
    {
      spreadsheetId := initial;
    }
  }
}
