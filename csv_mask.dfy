/** `maskCsvData`: before a CSV sample is sent for column inference, every data
    field is masked so that no real date, amount or text leaves the browser. */
module CsvMask {
  import opened Text
  import Seqs

  /** `rowsToProcess` when the caller gives none. */
  const DefaultRowsToProcess: nat := 5

  const SampleText := "Sample_Text"

  /** `[/\-年]` and `[/\-月]` of `DATE_REGEX`. */
  predicate IsYearSeparator(c: char) {
    c == '/' || c == '-' || c == '年'
  }

  predicate IsMonthSeparator(c: char) {
    c == '/' || c == '-' || c == '月'
  }

  /** `\d{4}[/\-年]\d{1,2}[/\-月]\d{1,2}` matches `v` starting at position `i`. */
  predicate DateMatchAt(v: string, i: nat) {
    && i + 8 <= |v|
    && IsDigit(v[i]) && IsDigit(v[i + 1]) && IsDigit(v[i + 2]) && IsDigit(v[i + 3])
    && IsYearSeparator(v[i + 4])
    && IsDigit(v[i + 5])
    && (|| (IsMonthSeparator(v[i + 6]) && IsDigit(v[i + 7]))
        || (i + 9 <= |v| && IsDigit(v[i + 6]) && IsMonthSeparator(v[i + 7]) && IsDigit(v[i + 8])))
  }

  /** `DATE_REGEX.test(v)`: the pattern is not anchored, so a match anywhere counts. */
  predicate HasDate(v: string) {
    exists i :: 0 <= i < |v| && DateMatchAt(v, i)
  }

  /** `[-\d,¥￥.]`. */
  predicate IsMoneyChar(c: char) {
    c == '-' || IsDigit(c) || c == ',' || c == '¥' || c == '￥' || c == '.'
  }

  /** `MONEY_REGEX.test(v)`, `^[-\d,¥￥.]+$`: non-empty and made of money characters only. */
  predicate IsMoney(v: string) {
    v != [] && forall k :: 0 <= k < |v| ==> IsMoneyChar(v[k])
  }

  /** The masked form of a trimmed field: the date test first, then the amount test,
      otherwise the placeholder. */
  function MaskValue(v: string): string {
    if HasDate(v) then ReplaceDigits(v, '1')
    else if IsMoney(v) then ReplaceDigits(v, '9')
    else SampleText
  }

  /** The masked form of one comma-separated field, which is trimmed first. */
  function MaskField(col: string): string {
    MaskValue(JsTrim(col))
  }

  /** A field with a date keeps its characters except that every digit becomes `1`; an
      amount keeps its characters except that every digit becomes `9`; anything else
      becomes the placeholder. */
  lemma {:induction false} MaskValueChars(v: string)
    ensures var r := MaskValue(v);
      HasDate(v) ==> |r| == |v| && forall k :: 0 <= k < |v| ==>
        (IsDigit(v[k]) ==> r[k] == '1') && (!IsDigit(v[k]) ==> r[k] == v[k])
    ensures var r := MaskValue(v);
      !HasDate(v) && IsMoney(v) ==> |r| == |v| && forall k :: 0 <= k < |v| ==>
        (IsDigit(v[k]) ==> r[k] == '9') && (!IsDigit(v[k]) ==> r[k] == v[k])
    ensures !HasDate(v) && !IsMoney(v) ==> MaskValue(v) == SampleText
  {
    if HasDate(v) {
      var r := ReplaceDigits(v, '1');
      assert MaskValue(v) == r;
    } else if IsMoney(v) {
      var r := ReplaceDigits(v, '9');
      assert MaskValue(v) == r;
    }
  }

  /** The digits of a masked field are mask digits only. */
  predicate OnlyMaskDigits(r: string) {
    forall k :: 0 <= k < |r| && IsDigit(r[k]) ==> r[k] == '1' || r[k] == '9'
  }

  /** No masked field reveals a digit other than the mask digits. */
  lemma {:induction false} MaskFieldHidesDigits(col: string)
    ensures OnlyMaskDigits(MaskField(col))
  {
    var v := JsTrim(col);
    assert MaskField(col) == MaskValue(v);
    if HasDate(v) {
      ReplacedHidesDigits(v, '1');
    } else if IsMoney(v) {
      ReplacedHidesDigits(v, '9');
    } else {
      SampleTextHidesDigits();
    }
  }

  lemma {:induction false} SampleTextHidesDigits()
    ensures OnlyMaskDigits(SampleText)
  {
    assert forall k :: 0 <= k < |SampleText| ==> !IsDigit(SampleText[k]);
  }

  lemma {:induction false} ReplacedHidesDigits(v: string, d: char)
    requires d == '1' || d == '9'
    ensures OnlyMaskDigits(ReplaceDigits(v, d))
  {
  }

  /** `line.split(',').map(mask).join(',')`. */
  function MaskLine(line: string): string {
    var cols := Split(line, ',');
    Join(seq(|cols|, k requires 0 <= k < |cols| => MaskField(cols[k])), ',')
  }

  /** `rawCsv.split(/\r\n|\n|\r/)`: each of CR LF, LF and CR ends a line. */
  function SplitLines(s: string): (lines: seq<string>)
    ensures |lines| >= 1
  {
    if s == [] then [[]]
    else if |s| >= 2 && s[0] == '\r' && s[1] == '\n' then [[]] + SplitLines(s[2..])
    else if s[0] == '\n' || s[0] == '\r' then [[]] + SplitLines(s[1..])
    else
      var rest := SplitLines(s[1..]);
      [[s[0]] + rest[0]] + rest[1..]
  }

  predicate IsNonBlank(line: string) {
    JsTrim(line) != ""
  }

  /** The lines kept by `.filter((line) => line.trim() !== '')`. */
  function NonBlankLines(raw: string): seq<string> {
    Seqs.Filter(SplitLines(raw), IsNonBlank)
  }

  function Min(a: nat, b: nat): nat {
    if a <= b then a else b
  }

  /** The output lines: the header verbatim, then the next `rowsToProcess` lines masked. */
  function MaskedLines(raw: string, rowsToProcess: nat): seq<string> {
    MaskLines(NonBlankLines(raw), rowsToProcess)
  }

  /** The first line of `lines` verbatim, then the next `rowsToProcess` lines masked. */
  function MaskLines(lines: seq<string>, rowsToProcess: nat): seq<string> {
    HeadThenMapped(lines, rowsToProcess, MaskLine)
  }

  /** The first line verbatim, then `f` applied to each of the next `n` lines. */
  function HeadThenMapped(lines: seq<string>, n: nat, f: string -> string): seq<string> {
    if lines == [] then []
    else [lines[0]] + Seqs.Map(lines[1..1 + Min(n, |lines| - 1)], f)
  }

  /** `maskCsvData(rawCsv, rowsToProcess)`. */
  function MaskCsvData(raw: string, rowsToProcess: nat): (r: string)
    ensures r == "" <==> NonBlankLines(raw) == []
  {
    var out := MaskedLines(raw, rowsToProcess);
    if out == [] then ""
    else
      var lines := NonBlankLines(raw);
      Seqs.FilterSatisfies(SplitLines(raw), IsNonBlank);
      JoinStartsWithFirst(out, '\n');
      Join(out, '\n')
  }

  // ---------------------------------------------------------------------------
  // Line splitting

  lemma {:induction false} SplitLinesLackBreaks(s: string)
    ensures forall k :: 0 <= k < |SplitLines(s)| ==>
      '\n' !in SplitLines(s)[k] && '\r' !in SplitLines(s)[k]
  {
    if s == [] {
    } else if |s| >= 2 && s[0] == '\r' && s[1] == '\n' {
      SplitLinesLackBreaks(s[2..]);
    } else {
      SplitLinesLackBreaks(s[1..]);
    }
  }

  /** Without carriage returns, line splitting is splitting on LF. */
  lemma {:induction false} SplitLinesOnLf(s: string)
    requires '\r' !in s
    ensures SplitLines(s) == Split(s, '\n')
  {
    if s != [] {
      SplitLinesOnLf(s[1..]);
    }
  }

  // ---------------------------------------------------------------------------
  // Properties of one field and one line

  /** Replacing digits by a digit does not change whether a date pattern occurs. */
  lemma {:induction false} DateShapeKept(v: string, d: char)
    requires IsDigit(d)
    ensures HasDate(ReplaceDigits(v, d)) == HasDate(v)
  {
    var w := ReplaceDigits(v, d);
    assert forall k :: 0 <= k < |v| ==> (IsDigit(w[k]) <==> IsDigit(v[k]));
    assert forall k :: 0 <= k < |v| ==> (IsYearSeparator(w[k]) <==> IsYearSeparator(v[k]));
    assert forall k :: 0 <= k < |v| ==> (IsMonthSeparator(w[k]) <==> IsMonthSeparator(v[k]));
    assert forall i :: 0 <= i < |v| ==> (DateMatchAt(w, i) <==> DateMatchAt(v, i));
  }

  lemma {:induction false} MoneyShapeKept(v: string, d: char)
    requires IsDigit(d)
    ensures IsMoney(ReplaceDigits(v, d)) == IsMoney(v)
  {
    var w := ReplaceDigits(v, d);
    assert forall k :: 0 <= k < |v| ==> (IsMoneyChar(w[k]) <==> IsMoneyChar(v[k]));
  }

  lemma {:induction false} NoDigitNoDate(v: string)
    requires forall k :: 0 <= k < |v| ==> !IsDigit(v[k])
    ensures !HasDate(v)
  {
  }

  /** Non-empty with no white space at either end: what `trim()` leaves unchanged. */
  predicate IsTrimmedNonEmpty(r: string) {
    r != [] && IsJsTrimmed(r)
  }

  /** A masked value is non-empty and has no space at either end, when the value it
      masks is trimmed. */
  lemma {:induction false} MaskValueShape(v: string)
    requires IsJsTrimmed(v)
    ensures IsTrimmedNonEmpty(MaskValue(v))
  {
    if HasDate(v) {
      ReplacedEnds(v, '1');
    } else if IsMoney(v) {
      ReplacedEnds(v, '9');
    } else {
      assert SampleText[0] == 'S' && SampleText[|SampleText| - 1] == 't';
    }
  }

  /** A masked field is non-empty, has no space at either end, and holds none of the
      non-digit characters its source field lacks (no comma, no line break). */
  lemma {:induction false} MaskFieldShape(col: string)
    ensures IsTrimmedNonEmpty(MaskField(col))
    ensures forall c :: !IsDigit(c) && c !in col && c !in SampleText ==> c !in MaskField(col)
  {
    MaskValueShape(JsTrim(col));
    forall c | !IsDigit(c) && c !in col && c !in SampleText ensures c !in MaskField(col) {
      MaskFieldLacks(col, c);
    }
  }

  lemma {:induction false} MaskFieldLacks(col: string, c: char)
    requires !IsDigit(c) && c !in col && c !in SampleText
    ensures c !in MaskField(col)
  {
    var v := JsTrim(col);
    StripLacks(col, IsJsSpace, c);
    if HasDate(v) {
      ReplacedLacks(v, '1', c);
    } else if IsMoney(v) {
      ReplacedLacks(v, '9', c);
    }
  }

  /** Replacing digits of a trimmed non-empty field keeps it non-empty with the same ends. */
  lemma {:induction false} ReplacedEnds(v: string, d: char)
    requires IsTrimmedNonEmpty(v)
    requires IsDigit(d)
    ensures IsTrimmedNonEmpty(ReplaceDigits(v, d))
  {
  }

  lemma {:induction false} ReplacedLacks(v: string, d: char, c: char)
    requires c !in v && c != d
    ensures c !in ReplaceDigits(v, d)
  {
    var w := ReplaceDigits(v, d);
    forall k | 0 <= k < |w| ensures w[k] != c {
      assert v[k] != c;
    }
  }

  /** A masked date is its own mask. */
  lemma {:induction false} MaskedDateFixed(v: string)
    requires HasDate(v)
    ensures MaskValue(ReplaceDigits(v, '1')) == ReplaceDigits(v, '1')
  {
    DateShapeKept(v, '1');
    ReplaceDigitsIdempotent(v, '1');
  }

  /** A masked amount is its own mask. */
  lemma {:induction false} MaskedMoneyFixed(v: string)
    requires !HasDate(v) && IsMoney(v)
    ensures MaskValue(ReplaceDigits(v, '9')) == ReplaceDigits(v, '9')
  {
    DateShapeKept(v, '9');
    MoneyShapeKept(v, '9');
    ReplaceDigitsIdempotent(v, '9');
  }

  /** The placeholder is its own mask. */
  lemma {:induction false} SampleTextFixed()
    ensures MaskValue(SampleText) == SampleText
  {
    var v := SampleText;
    assert forall k :: 0 <= k < |v| ==> !IsDigit(v[k]);
    NoDigitNoDate(v);
    assert !IsMoneyChar(v[0]);
  }

  /** Masking a value twice is masking it once. */
  lemma {:induction false} MaskValueIdempotent(v: string)
    ensures MaskValue(MaskValue(v)) == MaskValue(v)
  {
    if HasDate(v) {
      MaskedDateFixed(v);
    } else if IsMoney(v) {
      MaskedMoneyFixed(v);
    } else {
      SampleTextFixed();
    }
  }

  /** Masking a field twice is masking it once: the mask is already trimmed. */
  lemma {:induction false} MaskFieldIdempotent(col: string)
    ensures MaskField(MaskField(col)) == MaskField(col)
  {
    var v := JsTrim(col);
    var r := MaskValue(v);
    MaskValueShape(v);
    assert JsTrim(r) == r;
    MaskValueIdempotent(v);
  }

  /** The masked fields of a line, before joining. */
  function MaskedFields(line: string): (fields: seq<string>)
    ensures |fields| == |Split(line, ',')|
  {
    var cols := Split(line, ',');
    seq(|cols|, k requires 0 <= k < |cols| => MaskField(cols[k]))
  }

  /** A masked line has exactly the fields of its source line, each masked: splitting
      it on commas again gives one masked field per source field. */
  lemma {:induction false} MaskLineFields(line: string)
    ensures Split(MaskLine(line), ',') == MaskedFields(line)
    ensures |Split(MaskLine(line), ',')| == |Split(line, ',')|
  {
    var fields := MaskedFields(line);
    assert MaskLine(line) == Join(fields, ',');
    MaskedFieldsLack(line, ',');
    SplitJoin(fields, ',');
  }

  /** A masked field holds no comma or line break, as its source field holds none. */
  lemma {:induction false} MaskedFieldsLack(line: string, c: char)
    requires c == ',' || (c in "\n\r" && c !in line)
    ensures forall k :: 0 <= k < |MaskedFields(line)| ==> c !in MaskedFields(line)[k]
  {
    var cols := Split(line, ',');
    var fields := MaskedFields(line);
    SplitPartsLackSeparator(line, ',');
    forall k | 0 <= k < |fields| ensures c !in fields[k] {
      if c != ',' {
        SplitPartLacks(line, ',', k, c);
      }
      MaskFieldLacks(cols[k], c);
    }
  }

  /** Masking a line twice is masking it once. */
  lemma {:induction false} MaskLineIdempotent(line: string)
    ensures MaskLine(MaskLine(line)) == MaskLine(line)
  {
    MaskLineFields(line);
    var fields := MaskedFields(line);
    var again := MaskedFields(MaskLine(line));
    forall k | 0 <= k < |fields| ensures again[k] == fields[k] {
      MaskFieldIdempotent(Split(line, ',')[k]);
    }
    assert again == fields;
  }

  /** A line with no line break masks to a non-blank line with no line break. */
  lemma {:induction false} MaskLineShape(line: string)
    requires '\n' !in line && '\r' !in line
    ensures '\n' !in MaskLine(line) && '\r' !in MaskLine(line)
    ensures IsNonBlank(MaskLine(line))
  {
    var cols := Split(line, ',');
    var fields := MaskedFields(line);
    assert MaskLine(line) == Join(fields, ',');
    MaskedFieldsLack(line, '\n');
    MaskedFieldsLack(line, '\r');
    JoinLacks(fields, ',', '\n');
    JoinLacks(fields, ',', '\r');
    MaskValueShape(JsTrim(cols[0]));
    assert fields[0] == MaskField(cols[0]);
    JoinStartsWithFirst(fields, ',');
    NonSpaceStartNonBlank(MaskLine(line));
  }

  lemma {:induction false} NonSpaceStartNonBlank(s: string)
    requires s != [] && !IsJsSpace(s[0])
    ensures IsNonBlank(s)
  {
    StripEmpty(s, IsJsSpace);
  }

  /** A character absent from `s` is absent from each of its parts. */
  lemma {:induction false} SplitPartLacks(s: string, sep: char, k: nat, c: char)
    requires c !in s
    requires k < |Split(s, sep)|
    ensures c !in Split(s, sep)[k]
  {
    if s != [] {
      var rest := Split(s[1..], sep);
      if s[0] == sep {
        if k > 0 { SplitPartLacks(s[1..], sep, k - 1, c); }
      } else if k == 0 {
        SplitPartLacks(s[1..], sep, 0, c);
      } else {
        SplitPartLacks(s[1..], sep, k, c);
      }
    }
  }

  // ---------------------------------------------------------------------------
  // Properties of the whole sample

  /** The output lines, one by one. */
  lemma {:induction false} MaskedLinesAt(raw: string, rowsToProcess: nat, k: nat)
    requires NonBlankLines(raw) != []
    requires k < |MaskedLines(raw, rowsToProcess)|
    ensures |MaskedLines(raw, rowsToProcess)| == 1 + Min(rowsToProcess, |NonBlankLines(raw)| - 1)
    ensures k < |NonBlankLines(raw)|
    ensures k == 0 ==> MaskedLines(raw, rowsToProcess)[k] == NonBlankLines(raw)[0]
    ensures k > 0 ==> MaskedLines(raw, rowsToProcess)[k] == MaskLine(NonBlankLines(raw)[k])
  {
    MaskLinesAt(NonBlankLines(raw), rowsToProcess);
  }

  /** The output lines are non-blank and hold no line break. */
  lemma {:induction false} MaskedLinesShape(raw: string, rowsToProcess: nat)
    requires NonBlankLines(raw) != []
    ensures forall k :: 0 <= k < |MaskedLines(raw, rowsToProcess)| ==>
      LacksBreaks(MaskedLines(raw, rowsToProcess)[k]) && IsNonBlank(MaskedLines(raw, rowsToProcess)[k])
  {
    var lines := NonBlankLines(raw);
    var out := MaskedLines(raw, rowsToProcess);
    LinesLackBreaks(raw);
    forall k | 0 <= k < |out| ensures LacksBreaks(out[k]) && IsNonBlank(out[k]) {
      MaskedLinesAt(raw, rowsToProcess, k);
      if k > 0 {
        assert LacksBreaks(lines[k]);
        MaskLineShape(lines[k]);
      }
    }
  }

  /** The output, read back line by line, is the header verbatim followed by at most
      `rowsToProcess` masked lines: the next non-blank lines of the input, in order. */
  lemma {:induction false} MaskedOutputLines(raw: string, rowsToProcess: nat)
    requires NonBlankLines(raw) != []
    ensures var out := MaskCsvData(raw, rowsToProcess);
      var lines := NonBlankLines(raw);
      && SplitLines(out) == MaskedLines(raw, rowsToProcess)
      && SplitLines(out)[0] == lines[0]
      && |SplitLines(out)| - 1 == Min(rowsToProcess, |lines| - 1)
      && forall k :: 1 <= k < |SplitLines(out)| ==> SplitLines(out)[k] == MaskLine(lines[k])
  {
    var lines := NonBlankLines(raw);
    var out := MaskedLines(raw, rowsToProcess);
    MaskedLinesShape(raw, rowsToProcess);
    JoinedLinesReread(out);
    assert MaskCsvData(raw, rowsToProcess) == Join(out, '\n');
    MaskLinesAt(lines, rowsToProcess);
  }

  /** Lines without line breaks, joined with LF, split back into the same lines. */
  lemma {:induction false} JoinedLinesReread(out: seq<string>)
    requires out != []
    requires forall k :: 0 <= k < |out| ==> LacksBreaks(out[k])
    ensures SplitLines(Join(out, '\n')) == out
  {
    JoinLacks(out, '\n', '\r');
    SplitLinesOnLf(Join(out, '\n'));
    SplitJoin(out, '\n');
  }

  predicate LacksBreaks(line: string) {
    '\n' !in line && '\r' !in line
  }

  lemma {:induction false} LinesLackBreaks(raw: string)
    ensures forall k :: 0 <= k < |NonBlankLines(raw)| ==>
      LacksBreaks(NonBlankLines(raw)[k]) && IsNonBlank(NonBlankLines(raw)[k])
  {
    SplitLinesLackBreaks(raw);
    Seqs.FilterPreserves(SplitLines(raw), IsNonBlank, LacksBreaks);
    Seqs.FilterSatisfies(SplitLines(raw), IsNonBlank);
  }

  /** The non-blank lines of an output are exactly its output lines. */
  lemma {:induction false} OutputLinesReread(raw: string, rowsToProcess: nat)
    requires NonBlankLines(raw) != []
    ensures NonBlankLines(MaskCsvData(raw, rowsToProcess)) == MaskedLines(raw, rowsToProcess)
  {
    var m := MaskedLines(raw, rowsToProcess);
    MaskedOutputLines(raw, rowsToProcess);
    MaskedLinesShape(raw, rowsToProcess);
    Seqs.FilterAll(m, IsNonBlank);
  }

  /** Masking the output again gives the same output lines. */
  lemma {:induction false} OutputLinesFixed(raw: string, rowsToProcess: nat)
    requires NonBlankLines(raw) != []
    ensures MaskedLines(MaskCsvData(raw, rowsToProcess), rowsToProcess) == MaskedLines(raw, rowsToProcess)
  {
    OutputLinesReread(raw, rowsToProcess);
    MaskLinesIdempotent(NonBlankLines(raw), rowsToProcess);
  }

  /** The shape of `MaskLines`: the first line, then `Min(rowsToProcess, |lines| - 1)`
      masked lines in input order. */
  lemma {:induction false} MaskLinesAt(lines: seq<string>, rowsToProcess: nat)
    requires lines != []
    ensures var m := MaskLines(lines, rowsToProcess);
      && |m| == 1 + Min(rowsToProcess, |lines| - 1)
      && m[0] == lines[0]
      && forall k :: 1 <= k < |m| ==> m[k] == MaskLine(lines[k])
  {
    HeadThenMappedAt(lines, rowsToProcess, MaskLine);
  }

  lemma {:induction false} HeadThenMappedAt(lines: seq<string>, n: nat, f: string -> string)
    requires lines != []
    ensures var m := HeadThenMapped(lines, n, f);
      && |m| == 1 + Min(n, |lines| - 1)
      && m[0] == lines[0]
      && forall k :: 1 <= k < |m| ==> m[k] == f(lines[k])
  {
    var c := Min(n, |lines| - 1);
    var tail := Seqs.Map(lines[1..1 + c], f);
    var m := HeadThenMapped(lines, n, f);
    forall k | 1 <= k < |m| ensures m[k] == f(lines[k]) {
      assert m[k] == tail[k - 1];
      assert lines[1..1 + c][k - 1] == lines[k];
    }
  }

  /** Selecting and masking lines a second time changes nothing. */
  lemma {:induction false} MaskLinesIdempotent(lines: seq<string>, rowsToProcess: nat)
    ensures MaskLines(MaskLines(lines, rowsToProcess), rowsToProcess) == MaskLines(lines, rowsToProcess)
  {
    if lines != [] {
      var m := MaskLines(lines, rowsToProcess);
      MaskLinesAt(lines, rowsToProcess);
      MaskLinesAt(m, rowsToProcess);
      var m2 := MaskLines(m, rowsToProcess);
      forall k | 1 <= k < |m| ensures m2[k] == m[k] {
        MaskLineIdempotent(lines[k]);
      }
      assert m2 == m;
    }
  }

  /** Masking an already masked sample changes nothing. */
  lemma {:induction false} MaskCsvIdempotent(raw: string, rowsToProcess: nat)
    ensures MaskCsvData(MaskCsvData(raw, rowsToProcess), rowsToProcess) == MaskCsvData(raw, rowsToProcess)
  {
    if NonBlankLines(raw) == [] {
      assert SplitLines("") == [""];
      assert Seqs.Filter([""], IsNonBlank) == [];
    } else {
      OutputLinesFixed(raw, rowsToProcess);
    }
  }
}
