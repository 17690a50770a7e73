/** `CsvService.parse_csv` (backend): turns the rows of a card statement CSV into
    transactions, given the column mapping inferred for the file. The CSV reader is
    abstracted as the row sequence it yields, and `dateutil`'s fuzzy parser as an
    oracle that either returns a date or rejects the text. */
module CsvService {
  import opened Wrappers
  import opened Text
  import Seqs

  /** The keys `parse_csv` reads from its `mapping` dict; a missing index key is `None`. */
  datatype ColumnMapping = ColumnMapping(
    dateCol: Option<int>, storeCol: Option<int>, priceCol: Option<int>, hasHeader: bool)

  /** A calendar date as `dateutil` returns it inside a `datetime`. */
  datatype DateTime = DateTime(year: int, month: int, day: int)

  type ParsedDate = d: DateTime | 1 <= d.year <= 9999 && 1 <= d.month <= 12 && 1 <= d.day <= 31
    witness DateTime(1, 1, 1)

  /** `ParsedCsvTransaction`. */
  datatype Transaction = Transaction(date: string, store: string, price: nat)

  /** `mapping.get(key, 0)`. */
  function GetOrZero(index: Option<int>): int {
    if index.Some? then index.value else 0
  }

  /** `max_col_index`: the largest of the three indices, a missing key counting as 0. */
  function MaxColIndex(m: ColumnMapping): (r: int)
    ensures r >= GetOrZero(m.dateCol) && r >= GetOrZero(m.storeCol) && r >= GetOrZero(m.priceCol)
    ensures r == GetOrZero(m.dateCol) || r == GetOrZero(m.storeCol) || r == GetOrZero(m.priceCol)
  {
    var a := GetOrZero(m.dateCol);
    var b := GetOrZero(m.storeCol);
    var c := GetOrZero(m.priceCol);
    if a >= b && a >= c then a else if b >= c then b else c
  }

  /** Python's `row[index]`: a negative index counts from the end; out of range is an
      `IndexError`, here `None`. */
  function PyIndex(row: seq<string>, index: int): (r: Option<string>)
    ensures r.Some? <==> -|row| <= index < |row|
  {
    if 0 <= index < |row| then Some(row[index])
    else if -|row| <= index < 0 then Some(row[|row| + index])
    else None
  }

  /** Two decimal digits, as `%m` and `%d` print them. */
  function Pad2(n: nat): (r: string)
    requires n < 100
    ensures |r| == 2 && AllDigits(r) && DigitValue(r) == n
  {
    var r := [NatToDigit(n / 10), NatToDigit(n % 10)];
    assert r[..1] == [NatToDigit(n / 10)];
    r
  }

  /** `strftime("%Y-%m-%d")`, with `%Y` printed as glibc prints it: no padding. */
  function FormatDate(d: ParsedDate): string {
    DecimalString(d.year as nat) + "-" + Pad2(d.month as nat) + "-" + Pad2(d.day as nat)
  }

  /** The emitted price: the integer read from the digits of the field, 0 when it has none. */
  function PriceOf(rawPrice: string): nat {
    var priceStr := DigitsOnly(rawPrice);
    if priceStr != "" then DigitValue(priceStr) else 0
  }

  /** What one loop iteration of `parse_csv` appends for row `i`, or `None` when it
      `continue`s (the header row, a short row, or whatever the `try` block skips). */
  function ParseRow(i: nat, row: seq<string>, m: ColumnMapping,
                    parseDate: string -> Option<ParsedDate>): (r: Option<Transaction>)
    ensures r.Some? ==> r.value.price > 0 && r.value.store != "" && r.value.store != "-"
  {
    if m.hasHeader && i == 0 then None
    else if |row| <= MaxColIndex(m) then None
    else TryRow(row, m, parseDate)
  }

  /** The `try` block of one iteration: a missing key (`KeyError`) or an index outside
      the row (`IndexError`) is caught and skips the row. */
  function TryRow(row: seq<string>, m: ColumnMapping,
                  parseDate: string -> Option<ParsedDate>): (r: Option<Transaction>)
    ensures r.Some? ==> r.value.price > 0 && r.value.store != "" && r.value.store != "-"
  {
    if m.dateCol.None? || m.storeCol.None? || m.priceCol.None? then None
    else
      var dateField := PyIndex(row, m.dateCol.value);
      var storeField := PyIndex(row, m.storeCol.value);
      var priceField := PyIndex(row, m.priceCol.value);
      if dateField.None? || storeField.None? || priceField.None? then None
      else ParseFields(PyStrip(dateField.value), PyStrip(storeField.value), PyStrip(priceField.value), parseDate)
  }

  /** The checks on the three stripped fields, then the date parse. */
  function ParseFields(rawDate: string, rawStore: string, rawPrice: string,
                       parseDate: string -> Option<ParsedDate>): (r: Option<Transaction>)
    ensures r.Some? ==> r.value.price > 0 && r.value.store != "" && r.value.store != "-"
  {
    if rawDate == "" || rawStore == "" || rawStore == "-" || rawPrice == "" then None
    else
      var price := PriceOf(rawPrice);
      if price == 0 then None
      else
        match parseDate(rawDate)
        case None => None
        case Some(d) => Some(Transaction(FormatDate(d), rawStore, price))
  }

  /** The outcome of every row, by position. */
  function RowResults(rows: seq<seq<string>>, m: ColumnMapping,
                      parseDate: string -> Option<ParsedDate>): (r: seq<Option<Transaction>>)
    ensures |r| == |rows|
    ensures forall i :: 0 <= i < |rows| ==> r[i] == ParseRow(i, rows[i], m, parseDate)
  {
    Seqs.MapIndexed(rows, (i: nat, row: seq<string>) => ParseRow(i, row, m, parseDate))
  }

  /** The transactions `parse_csv` returns for `rows`. */
  function Parsed(rows: seq<seq<string>>, m: ColumnMapping,
                  parseDate: string -> Option<ParsedDate>): (txs: seq<Transaction>)
    ensures |txs| <= |rows|
  {
    Seqs.Somes(RowResults(rows, m, parseDate))
  }

  /** The indices of the rows that yield a transaction, in order. */
  function KeptRows(rows: seq<seq<string>>, m: ColumnMapping,
                    parseDate: string -> Option<ParsedDate>): seq<nat>
  {
    Seqs.SomeIndices(RowResults(rows, m, parseDate))
  }

  /** `parse_csv(csv_text, mapping)`. */
  method ParseCsv(rows: seq<seq<string>>, m: ColumnMapping,
                  parseDate: string -> Option<ParsedDate>) returns (txs: seq<Transaction>)
    ensures txs == Parsed(rows, m, parseDate)
  {
    txs := [];
    var maxColIndex := MaxColIndex(m);
    for i := 0 to |rows|
      invariant txs == Parsed(rows[..i], m, parseDate)
    {
      ParsedStep(rows, i, m, parseDate);
      var row := rows[i];
      if m.hasHeader && i == 0 {
        continue;
      }
      if |row| <= maxColIndex {
        continue;
      }
      var t := ProcessRow(row, m, parseDate);
      if t.Some? {
        txs := txs + [t.value];
      }
    }
    assert rows[..|rows|] == rows;
  }

  /** The `try` block of one iteration: the transaction it appends, or `None` where it
      `continue`s or an exception is caught. */
  method ProcessRow(row: seq<string>, m: ColumnMapping,
                    parseDate: string -> Option<ParsedDate>) returns (t: Option<Transaction>)
    ensures t == TryRow(row, m, parseDate)
  {
    // `mapping[...]` raises KeyError, caught by the row's `except`
    if m.dateCol.None? || m.storeCol.None? || m.priceCol.None? {
      return None;
    }
    var dateField := PyIndex(row, m.dateCol.value);
    var storeField := PyIndex(row, m.storeCol.value);
    var priceField := PyIndex(row, m.priceCol.value);
    if dateField.None? || storeField.None? || priceField.None? {
      return None;
    }
    var rawDate := PyStrip(dateField.value);
    var rawStore := PyStrip(storeField.value);
    var rawPrice := PyStrip(priceField.value);
    t := ProcessFields(rawDate, rawStore, rawPrice, parseDate);
  }

  /** The rest of the `try` block, once the three fields are read and stripped. */
  method ProcessFields(rawDate: string, rawStore: string, rawPrice: string,
                       parseDate: string -> Option<ParsedDate>) returns (t: Option<Transaction>)
    ensures t == ParseFields(rawDate, rawStore, rawPrice, parseDate)
  {
    if rawDate == "" || rawStore == "" || rawStore == "-" || rawPrice == "" {
      return None;
    }
    var priceStr := DigitsOnly(rawPrice);
    var price := if priceStr != "" then DigitValue(priceStr) else 0;
    if price == 0 {
      return None;
    }
    var parsedDate := parseDate(rawDate);
    if parsedDate.None? {
      return None;
    }
    t := Some(Transaction(FormatDate(parsedDate.value), rawStore, price));
  }

  /** The transactions of one more row are those of the rows before it, then its own. */
  lemma {:induction false} ParsedStep(rows: seq<seq<string>>, i: nat, m: ColumnMapping,
                                      parseDate: string -> Option<ParsedDate>)
    requires i < |rows|
    ensures Parsed(rows[..i + 1], m, parseDate) ==
      Parsed(rows[..i], m, parseDate) + Seqs.OptionSeq(ParseRow(i, rows[i], m, parseDate))
  {
    var f := (j: nat, row: seq<string>) => ParseRow(j, row, m, parseDate);
    Seqs.MapIndexedPrefix(rows, i, f);
    var before := RowResults(rows[..i], m, parseDate);
    Seqs.SomesAppend(before, ParseRow(i, rows[i], m, parseDate));
  }

  // ---------------------------------------------------------------------------
  // One row

  /** With `has_header` set, row 0 yields nothing; without it, row 0 is treated like
      any other row. */
  lemma {:induction false} HeaderRow(row: seq<string>, i: nat, m: ColumnMapping,
                                     parseDate: string -> Option<ParsedDate>)
    ensures m.hasHeader ==> ParseRow(0, row, m, parseDate) == None
    ensures !m.hasHeader ==> ParseRow(0, row, m, parseDate) == ParseRow(i, row, m, parseDate)
    ensures i > 0 ==>
      ParseRow(i, row, m, parseDate) == ParseRow(i, row, m.(hasHeader := false), parseDate)
  {
  }

  /** A row with no more cells than the largest mapped index is skipped, whatever it holds. */
  lemma {:induction false} ShortRowSkipped(i: nat, row: seq<string>, m: ColumnMapping,
                                           parseDate: string -> Option<ParsedDate>)
    requires |row| <= GetOrZero(m.dateCol) || |row| <= GetOrZero(m.storeCol)
      || |row| <= GetOrZero(m.priceCol)
    ensures ParseRow(i, row, m, parseDate) == None
  {
  }

  /** Without one of the three index keys, no row yields a transaction. */
  lemma {:induction false} MissingKeySkipsAll(rows: seq<seq<string>>, m: ColumnMapping,
                                              parseDate: string -> Option<ParsedDate>)
    requires m.dateCol.None? || m.storeCol.None? || m.priceCol.None?
    ensures Parsed(rows, m, parseDate) == []
  {
    Seqs.NoSomes(RowResults(rows, m, parseDate));
  }

  /** A row whose trimmed date, store or price is empty, or whose store is "-", is skipped. */
  lemma {:induction false} BlankFieldSkipped(i: nat, row: seq<string>, m: ColumnMapping,
                                             parseDate: string -> Option<ParsedDate>,
                                             date: string, store: string, price: string)
    requires m.dateCol.Some? && m.storeCol.Some? && m.priceCol.Some?
    requires PyIndex(row, m.dateCol.value) == Some(date)
    requires PyIndex(row, m.storeCol.value) == Some(store)
    requires PyIndex(row, m.priceCol.value) == Some(price)
    requires PyStrip(date) == "" || PyStrip(store) == "" || PyStrip(store) == "-" || PyStrip(price) == ""
    ensures ParseRow(i, row, m, parseDate) == None
  {
  }

  /** A price field without a non-zero digit is skipped: "0", "-", "¥0,000" and the like. */
  lemma {:induction false} ZeroPriceSkipped(i: nat, row: seq<string>, m: ColumnMapping,
                                            parseDate: string -> Option<ParsedDate>, price: string)
    requires m.priceCol.Some? && PyIndex(row, m.priceCol.value) == Some(price)
    requires forall k :: 0 <= k < |price| ==> !IsDigit(price[k]) || price[k] == '0'
    ensures ParseRow(i, row, m, parseDate) == None
  {
    var p := PyStrip(price);
    StripKeeps(price, IsPySpace);
    forall k | 0 <= k < |p| ensures !IsDigit(p[k]) || p[k] == '0' {
      var j :| 0 <= j < |price| && price[j] == p[k];
    }
    DigitsOnlyZeros(p);
    ZerosValue(DigitsOnly(p));
    assert PriceOf(p) == 0;
  }

  lemma {:induction false} DigitsOnlyZeros(s: string)
    requires forall k :: 0 <= k < |s| ==> !IsDigit(s[k]) || s[k] == '0'
    ensures forall k :: 0 <= k < |DigitsOnly(s)| ==> DigitsOnly(s)[k] == '0'
  {
    if s != [] {
      DigitsOnlyZeros(s[..|s| - 1]);
    }
  }

  lemma {:induction false} ZerosValue(s: string)
    requires forall k :: 0 <= k < |s| ==> s[k] == '0'
    ensures AllDigits(s) && DigitValue(s) == 0
  {
    if s != [] {
      ZerosValue(s[..|s| - 1]);
    }
  }

  /** A row yields a transaction exactly when every check passes, and then the
      transaction is the formatted date, the trimmed store and the digits of the price. */
  lemma {:induction false} RowKept(i: nat, row: seq<string>, m: ColumnMapping,
                                   parseDate: string -> Option<ParsedDate>,
                                   date: string, store: string, price: string)
    requires !(m.hasHeader && i == 0)
    requires |row| > MaxColIndex(m)
    requires m.dateCol.Some? && m.storeCol.Some? && m.priceCol.Some?
    requires PyIndex(row, m.dateCol.value) == Some(date)
    requires PyIndex(row, m.storeCol.value) == Some(store)
    requires PyIndex(row, m.priceCol.value) == Some(price)
    requires PyStrip(date) != "" && PyStrip(store) != "" && PyStrip(store) != "-"
    ensures ParseRow(i, row, m, parseDate).Some? <==>
      PyStrip(price) != "" && PriceOf(PyStrip(price)) > 0 && parseDate(PyStrip(date)).Some?
    ensures ParseRow(i, row, m, parseDate).Some? ==>
      ParseRow(i, row, m, parseDate).value ==
        Transaction(FormatDate(parseDate(PyStrip(date)).value), PyStrip(store), PriceOf(PyStrip(price)))
  {
    RowReachesFields(i, row, m, parseDate, date, store, price);
    FieldsKept(PyStrip(date), PyStrip(store), PyStrip(price), parseDate);
  }

  /** A row past the header and length checks, with all three keys present and in
      range, is decided by its stripped fields alone. */
  lemma {:induction false} RowReachesFields(i: nat, row: seq<string>, m: ColumnMapping,
                                            parseDate: string -> Option<ParsedDate>,
                                            date: string, store: string, price: string)
    requires !(m.hasHeader && i == 0)
    requires |row| > MaxColIndex(m)
    requires m.dateCol.Some? && m.storeCol.Some? && m.priceCol.Some?
    requires PyIndex(row, m.dateCol.value) == Some(date)
    requires PyIndex(row, m.storeCol.value) == Some(store)
    requires PyIndex(row, m.priceCol.value) == Some(price)
    ensures ParseRow(i, row, m, parseDate) == ParseFields(PyStrip(date), PyStrip(store), PyStrip(price), parseDate)
  {
    assert ParseRow(i, row, m, parseDate) == TryRow(row, m, parseDate);
  }

  /** With a date and a usable store, the fields yield a transaction exactly when the
      price has a non-zero value and the date parses. */
  lemma {:induction false} FieldsKept(rawDate: string, rawStore: string, rawPrice: string,
                                      parseDate: string -> Option<ParsedDate>)
    requires rawDate != "" && rawStore != "" && rawStore != "-"
    ensures ParseFields(rawDate, rawStore, rawPrice, parseDate).Some? <==>
      rawPrice != "" && PriceOf(rawPrice) > 0 && parseDate(rawDate).Some?
    ensures ParseFields(rawDate, rawStore, rawPrice, parseDate).Some? ==>
      ParseFields(rawDate, rawStore, rawPrice, parseDate).value ==
        Transaction(FormatDate(parseDate(rawDate).value), rawStore, PriceOf(rawPrice))
  {
  }

  /** Signs, thousands separators and currency marks never change a price: dropping
      one non-digit character anywhere in the field leaves the price as it was. */
  lemma {:induction false} PriceIgnoresNonDigits(a: string, c: char, b: string)
    requires !IsDigit(c)
    ensures PriceOf(a + [c] + b) == PriceOf(a + b)
  {
    DigitsOnlyDropsNonDigit(a, c, b);
  }

  /** A price written as one run of digits amid digit-free text (`"¥1,"` around
      `"200"`, say) is the decimal value of that run. */
  lemma {:induction false} PriceOfDigitRun(pre: string, d: string, post: string)
    requires d != [] && AllDigits(d)
    requires forall k :: 0 <= k < |pre| ==> !IsDigit(pre[k])
    requires forall k :: 0 <= k < |post| ==> !IsDigit(post[k])
    ensures PriceOf(pre + d + post) == DigitValue(d)
  {
    DigitsOnlyOfRun(pre, d, post);
  }

  // ---------------------------------------------------------------------------
  // Dates

  /** `%Y-%m-%d`: the year, a dash, two month digits, a dash, two day digits. */
  lemma {:induction false} FormatDateShape(d: ParsedDate)
    ensures var s := FormatDate(d); var y := DecimalString(d.year as nat);
      && |s| == |y| + 6
      && s[..|y|] == y && s[|y|] == '-' && s[|y| + 3] == '-'
      && DigitValue(s[|y| + 1..|y| + 3]) == d.month && DigitValue(s[|y| + 4..]) == d.day
  {
    var y := DecimalString(d.year as nat);
    var s := FormatDate(d);
    assert s[|y| + 1..|y| + 3] == Pad2(d.month as nat);
    assert s[|y| + 4..] == Pad2(d.day as nat);
  }

  /** Formatting loses nothing: different dates never print the same. */
  lemma {:induction false} FormatDateInjective(a: ParsedDate, b: ParsedDate)
    requires FormatDate(a) == FormatDate(b)
    ensures a == b
  {
    var s := FormatDate(a);
    var ya := DecimalString(a.year as nat);
    var yb := DecimalString(b.year as nat);
    FormatDateShape(a);
    FormatDateShape(b);
    assert |ya| == |yb|;
    assert ya == yb;
    DecimalStringValue(a.year as nat);
    DecimalStringValue(b.year as nat);
  }

  /** From year 1000 on, the first seven characters of a formatted date are its year and
      month, `YYYY-MM`. */
  lemma {:induction false} FormatDateMonthPrefix(d: ParsedDate)
    requires d.year >= 1000
    ensures |FormatDate(d)| == 10
    ensures FormatDate(d)[..7] == DecimalString(d.year as nat) + "-" + Pad2(d.month as nat)
  {
    FourDigitYear(d.year as nat);
  }

  lemma {:induction false} FourDigitYear(n: nat)
    requires 1000 <= n <= 9999
    ensures |DecimalString(n)| == 4
  {
    assert DecimalString(n) == DecimalString(n / 10) + [NatToDigit(n % 10)];
    assert DecimalString(n / 10) == DecimalString(n / 100) + [NatToDigit(n / 10 % 10)];
    assert DecimalString(n / 100) == DecimalString(n / 1000) + [NatToDigit(n / 100 % 10)];
  }

  /** From year 1000 on, two formatted dates share their first seven characters exactly
      when they fall in the same year and month. */
  lemma {:induction false} SameMonthPrefix(a: ParsedDate, b: ParsedDate)
    requires a.year >= 1000 && b.year >= 1000
    ensures FormatDate(a)[..7] == FormatDate(b)[..7] <==> a.year == b.year && a.month == b.month
  {
    FormatDateMonthPrefix(a);
    FormatDateMonthPrefix(b);
    var ya := DecimalString(a.year as nat);
    var yb := DecimalString(b.year as nat);
    var pa := FormatDate(a)[..7];
    var pb := FormatDate(b)[..7];
    if pa == pb {
      assert ya == pa[..4] && yb == pb[..4];
      DecimalStringValue(a.year as nat);
      DecimalStringValue(b.year as nat);
      assert Pad2(a.month as nat) == pa[5..] && Pad2(b.month as nat) == pb[5..];
    }
  }

  // ---------------------------------------------------------------------------
  // The whole file

  /** Every emitted transaction has a positive price and a real store name. */
  lemma {:induction false} ParsedWellFormed(rows: seq<seq<string>>, m: ColumnMapping,
                                            parseDate: string -> Option<ParsedDate>)
    ensures forall j :: 0 <= j < |Parsed(rows, m, parseDate)| ==>
      Parsed(rows, m, parseDate)[j].price > 0 && Parsed(rows, m, parseDate)[j].store != "-"
  {
    var results := RowResults(rows, m, parseDate);
    Seqs.SomesAtIndices(results);
  }

  /** The output is an order-preserving selection of the rows: transaction `j` comes from
      row `KeptRows[j]`, those indices increase, and they are exactly the rows that yield
      a transaction, so no row yields more than one. */
  lemma {:induction false} ParsedIsSubsequence(rows: seq<seq<string>>, m: ColumnMapping,
                                               parseDate: string -> Option<ParsedDate>)
    ensures var txs := Parsed(rows, m, parseDate); var kept := KeptRows(rows, m, parseDate);
      && |kept| == |txs|
      && (forall j :: 0 <= j < |kept| ==> kept[j] < |rows|)
      && (forall j, l :: 0 <= j < l < |kept| ==> kept[j] < kept[l])
      && (forall j :: 0 <= j < |kept| ==>
            ParseRow(kept[j], rows[kept[j]], m, parseDate) == Some(txs[j]))
      && (forall i :: 0 <= i < |rows| ==>
            (ParseRow(i, rows[i], m, parseDate).Some? <==> i in kept))
  {
    Seqs.SomesAtIndices(RowResults(rows, m, parseDate));
  }
}
