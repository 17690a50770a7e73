/** The keystroke normalisation of the numeric text field (`NumberInput`): the
    field keeps digits only, drops leading zeros, caps the length and reports
    either the empty value or a number. */
module NumberInput {
  import opened Text

  /** `maxLength` when the caller gives none. */
  const DefaultMaxLength: nat := 7

  /** What the field reports through `onChange`: `''` or a number. */
  datatype NumberValue = Blank | Num(n: nat)

  predicate IsZero(c: char) {
    c == '0'
  }

  /** `val.slice(0, maxLength)` when `maxLength` is non-zero and exceeded. */
  function Truncate(s: string, maxLength: nat): (r: string)
    ensures maxLength > 0 ==> |r| <= maxLength
    ensures |r| <= |s| && r == s[..|r|]
    ensures (maxLength == 0 || |s| <= maxLength) ==> r == s
  {
    if maxLength > 0 && |s| > maxLength then s[..maxLength] else s
  }

  /** The text left in the field after `handleChange`. */
  function Normalize(input: string, maxLength: nat): (r: string)
    ensures AllDigits(r)
    ensures maxLength > 0 ==> |r| <= maxLength
    ensures r == [] <==> forall k :: 0 <= k < |input| ==> !IsDigit(input[k])
    ensures r == [] || IsCanonicalDecimal(r)
    ensures var d := DigitsOnly(input);
      !(|d| > 1 && d[0] == '0') ==> r == Truncate(d, maxLength)
  {
    var digits := DigitsOnly(input);
    var stripped :=
      if |digits| > 1 && digits[0] == '0' then
        var t := TrimStart(digits, IsZero);
        if t == [] then "0" else t
      else digits;
    Truncate(stripped, maxLength)
  }

  /** The value handed to `onChange`. */
  function Emit(input: string, maxLength: nat): (v: NumberValue)
    ensures v.Blank? <==> Normalize(input, maxLength) == []
    ensures v.Num? && maxLength > 0 ==> v.n < Pow10(maxLength)
    ensures v.Num? ==> DecimalString(v.n) == Normalize(input, maxLength)
  {
    var r := Normalize(input, maxLength);
    if r == [] then Blank
    else
      assert DecimalString(DigitValue(r)) == r by { CanonicalDecimalRoundTrip(r); }
      assert maxLength > 0 ==> Pow10(|r|) <= Pow10(maxLength) by {
        if maxLength > 0 { Pow10Monotone(|r|, maxLength); }
      }
      Num(DigitValue(r))
  }

  /** A digit run starting with zeros loses all of them; a run of zeros only becomes "0". */
  lemma {:induction false} LeadingZerosDropped(input: string, maxLength: nat)
    requires |DigitsOnly(input)| > 1 && DigitsOnly(input)[0] == '0'
    ensures var d := DigitsOnly(input);
      (forall k :: 0 <= k < |d| ==> d[k] == '0') ==> Normalize(input, maxLength) == "0"
    ensures var d := DigitsOnly(input);
      forall j :: 0 <= j < |d| && d[j] != '0' && (forall k :: 0 <= k < j ==> d[k] == '0') ==>
        Normalize(input, maxLength) == Truncate(d[j..], maxLength)
  {
    var d := DigitsOnly(input);
    var t := TrimStart(d, IsZero);
    TrimStartDrops(d, IsZero);
    forall j | 0 <= j < |d| && d[j] != '0' && (forall k :: 0 <= k < j ==> d[k] == '0')
      ensures t == d[j..]
    {
      assert |d| - |t| == j;
    }
  }

  /** Normalisation is idempotent: typing the reported number back in reports it again. */
  lemma {:induction false} EmitIdempotent(input: string, maxLength: nat)
    ensures Emit(input, maxLength).Blank? ==> Emit("", maxLength) == Blank
    ensures Emit(input, maxLength).Num? ==>
      Emit(DecimalString(Emit(input, maxLength).n), maxLength) == Emit(input, maxLength)
  {
    var r := Normalize(input, maxLength);
    if r != [] {
      CanonicalDecimalRoundTrip(r);
      assert DecimalString(DigitValue(r)) == r;
      assert DigitsOnly(r) == r;
      assert Normalize(r, maxLength) == r;
    }
  }
}
