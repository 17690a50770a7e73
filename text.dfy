/** Character classes and string operations shared by the front end (JavaScript)
    and the back end (Python) models. Strings are sequences of Unicode scalar values. */
module Text {

  /** An ASCII decimal digit: JavaScript's `\d` and Python's `[0-9]`. */
  predicate IsDigit(c: char) {
    '0' <= c <= '9'
  }

  predicate AllDigits(s: string) {
    forall k :: 0 <= k < |s| ==> IsDigit(s[k])
  }

  /** White space and line terminators removed by JavaScript's `String.prototype.trim`. */
  predicate IsJsSpace(c: char) {
    || c == '\t' || c == '\n' || c == '\U{B}' || c == '\U{C}' || c == '\r' || c == ' '
    || c == '\U{A0}' || c == '\U{1680}' || '\U{2000}' <= c <= '\U{200A}'
    || c == '\U{2028}' || c == '\U{2029}' || c == '\U{202F}' || c == '\U{205F}'
    || c == '\U{3000}' || c == '\U{FEFF}'
  }

  /** Characters removed by Python's `str.strip()` (those for which `str.isspace` holds). */
  predicate IsPySpace(c: char) {
    || '\t' <= c <= '\r' || '\U{1C}' <= c <= '\U{1F}' || c == ' ' || c == '\U{85}'
    || c == '\U{A0}' || c == '\U{1680}' || '\U{2000}' <= c <= '\U{200A}'
    || c == '\U{2028}' || c == '\U{2029}' || c == '\U{202F}' || c == '\U{205F}'
    || c == '\U{3000}'
  }

  /** Drops the leading characters that satisfy `drop`. */
  function TrimStart(s: string, drop: char -> bool): (r: string)
    ensures |r| <= |s| && r == s[|s| - |r|..]
    ensures r == [] || !drop(r[0])
  {
    if s != [] && drop(s[0]) then
      var r := TrimStart(s[1..], drop);
      assert s[1..][|s| - 1 - |r|..] == s[|s| - |r|..];
      r
    else s
  }

  /** Every character `TrimStart` drops satisfies `drop`. */
  lemma {:induction false} TrimStartDrops(s: string, drop: char -> bool)
    ensures forall k :: 0 <= k < |s| - |TrimStart(s, drop)| ==> drop(s[k])
  {
    if s != [] && drop(s[0]) {
      TrimStartDrops(s[1..], drop);
      assert forall k :: 1 <= k < |s| ==> s[k] == s[1..][k - 1];
    }
  }

  /** Drops the trailing characters that satisfy `drop`. */
  function TrimEnd(s: string, drop: char -> bool): (r: string)
    ensures |r| <= |s| && r == s[..|r|]
    ensures r == [] || !drop(r[|r| - 1])
  {
    if s != [] && drop(s[|s| - 1]) then
      var r := TrimEnd(s[..|s| - 1], drop);
      assert s[..|s| - 1][..|r|] == s[..|r|];
      r
    else s
  }

  /** Every character `TrimEnd` drops satisfies `drop`. */
  lemma {:induction false} TrimEndDrops(s: string, drop: char -> bool)
    ensures forall k :: |TrimEnd(s, drop)| <= k < |s| ==> drop(s[k])
  {
    if s != [] && drop(s[|s| - 1]) {
      TrimEndDrops(s[..|s| - 1], drop);
    }
  }

  /** Drops characters satisfying `drop` from both ends. */
  function Strip(s: string, drop: char -> bool): (r: string)
    ensures r != [] ==> !drop(r[0]) && !drop(r[|r| - 1])
    ensures s != [] && !drop(s[0]) && !drop(s[|s| - 1]) ==> r == s
  {
    TrimEnd(TrimStart(s, drop), drop)
  }

  /** Stripping leaves nothing exactly when every character satisfies `drop`. */
  lemma {:induction false} StripEmpty(s: string, drop: char -> bool)
    ensures Strip(s, drop) == [] <==> forall k :: 0 <= k < |s| ==> drop(s[k])
  {
    var t := TrimStart(s, drop);
    TrimStartDrops(s, drop);
    TrimEndDrops(t, drop);
    if Strip(s, drop) == [] {
      forall k | 0 <= k < |s| ensures drop(s[k]) {
        if k >= |s| - |t| {
          assert s[k] == t[k - (|s| - |t|)];
        }
      }
    }
  }

  /** Stripping only removes characters. */
  lemma {:induction false} StripLacks(s: string, drop: char -> bool, c: char)
    requires c !in s
    ensures c !in Strip(s, drop)
  {
    var t := TrimStart(s, drop);
    var r := TrimEnd(t, drop);
    assert forall k :: 0 <= k < |r| ==> r[k] == s[|s| - |t| + k];
  }

  /** Stripping keeps a contiguous run of the original characters. */
  lemma {:induction false} StripKeeps(s: string, drop: char -> bool)
    ensures forall k :: 0 <= k < |Strip(s, drop)| ==> Strip(s, drop)[k] in s
  {
    var t := TrimStart(s, drop);
    var r := TrimEnd(t, drop);
    assert r == Strip(s, drop);
    forall k | 0 <= k < |r| ensures r[k] in s {
      assert r[k] == t[k] == s[|s| - |t| + k];
    }
  }

  /** Empty, or with no JavaScript white space at either end: what `trim()` leaves as it is. */
  predicate IsJsTrimmed(s: string) {
    s == [] || (!IsJsSpace(s[0]) && !IsJsSpace(s[|s| - 1]))
  }

  /** `s.trim()` in JavaScript. */
  function JsTrim(s: string): (r: string)
    ensures IsJsTrimmed(r)
    ensures IsJsTrimmed(s) ==> r == s
  {
    Strip(s, IsJsSpace)
  }

  /** `s.strip()` in Python. */
  function PyStrip(s: string): string {
    Strip(s, IsPySpace)
  }

  /** The digits of `s` in order, everything else removed: `s.replace(/\D/g, '')`
      in JavaScript and `re.sub(r"[^0-9]", "", s)` in Python. */
  function DigitsOnly(s: string): (r: string)
    ensures AllDigits(r)
    ensures |r| <= |s|
    ensures AllDigits(s) ==> r == s
    ensures r == [] <==> forall k :: 0 <= k < |s| ==> !IsDigit(s[k])
  {
    if s == [] then []
    else DigitsOnly(s[..|s| - 1]) + (if IsDigit(s[|s| - 1]) then [s[|s| - 1]] else [])
  }

  /** A lone character survives exactly when it is a digit. */
  lemma DigitsOnlyChar(c: char)
    ensures DigitsOnly([c]) == if IsDigit(c) then [c] else []
  {
    assert [c][..0] == [];
  }

  /** Removing non-digits distributes over concatenation; with `DigitsOnlyChar` this
      pins the result to the input's own digits, in their order. */
  lemma {:induction false} DigitsOnlyAppend(a: string, b: string)
    ensures DigitsOnly(a + b) == DigitsOnly(a) + DigitsOnly(b)
    decreases |b|
  {
    if b == [] {
      assert a + b == a;
    } else {
      var b' := b[..|b| - 1];
      assert (a + b)[..|a + b| - 1] == a + b';
      assert (a + b)[|a + b| - 1] == b[|b| - 1];
      DigitsOnlyAppend(a, b');
    }
  }

  /** A non-digit anywhere in the text leaves no trace in its digits. */
  lemma {:induction false} DigitsOnlyDropsNonDigit(a: string, c: char, b: string)
    requires !IsDigit(c)
    ensures DigitsOnly(a + [c] + b) == DigitsOnly(a + b)
  {
    var x := a + [c];
    DigitsOnlyAppend(x, b);
    DigitsOnlyAppend(a, [c]);
    DigitsOnlyAppend(a, b);
    DigitsOnlyChar(c);
  }

  /** One run of digits amid digit-free text keeps exactly that run. */
  lemma {:induction false} DigitsOnlyOfRun(pre: string, d: string, post: string)
    requires AllDigits(d)
    requires forall k :: 0 <= k < |pre| ==> !IsDigit(pre[k])
    requires forall k :: 0 <= k < |post| ==> !IsDigit(post[k])
    ensures DigitsOnly(pre + d + post) == d
  {
    var x := pre + d;
    DigitsOnlyAppend(x, post);
    DigitsOnlyAppend(pre, d);
  }

  /** Every digit of `s` replaced by `d`: `s.replace(/\d/g, d)`. */
  function ReplaceDigits(s: string, d: char): (r: string)
    ensures |r| == |s|
    ensures forall k :: 0 <= k < |s| ==> r[k] == if IsDigit(s[k]) then d else s[k]
  {
    seq(|s|, k requires 0 <= k < |s| => if IsDigit(s[k]) then d else s[k])
  }

  /** Replacing digits by a digit a second time changes nothing. */
  lemma {:induction false} ReplaceDigitsIdempotent(s: string, d: char)
    requires IsDigit(d)
    ensures ReplaceDigits(ReplaceDigits(s, d), d) == ReplaceDigits(s, d)
  {
    var r := ReplaceDigits(s, d);
    assert forall k :: 0 <= k < |r| ==> ReplaceDigits(r, d)[k] == r[k];
  }

  function DigitToNat(c: char): (n: nat)
    requires IsDigit(c)
    ensures n < 10
  {
    c as int - '0' as int
  }

  function NatToDigit(n: nat): (c: char)
    requires n < 10
    ensures IsDigit(c) && DigitToNat(c) == n
  {
    ('0' as int + n) as char
  }

  function Pow10(n: nat): (p: nat)
    ensures p >= 1
  {
    if n == 0 then 1 else 10 * Pow10(n - 1)
  }

  lemma {:induction false} Pow10Monotone(m: nat, n: nat)
    requires m <= n
    ensures Pow10(m) <= Pow10(n)
  {
    if m < n {
      Pow10Monotone(m, n - 1);
    }
  }

  /** The decimal value of a digit string (`int(s)` in Python, `Number(s)` in JavaScript);
      the empty string reads as 0. */
  function DigitValue(s: string): (n: nat)
    requires AllDigits(s)
    ensures n < Pow10(|s|)
  {
    if s == [] then 0 else 10 * DigitValue(s[..|s| - 1]) + DigitToNat(s[|s| - 1])
  }

  /** Canonical decimal text: digits only, and no leading zero unless the text is "0". */
  predicate IsCanonicalDecimal(s: string) {
    s != [] && AllDigits(s) && (|s| == 1 || s[0] != '0')
  }

  /** The decimal representation of `n` (`String(n)` in JavaScript). */
  function DecimalString(n: nat): (s: string)
    ensures IsCanonicalDecimal(s)
  {
    if n < 10 then [NatToDigit(n)] else DecimalString(n / 10) + [NatToDigit(n % 10)]
  }

  lemma {:induction false} DecimalStringValue(n: nat)
    ensures DigitValue(DecimalString(n)) == n
  {
    if n >= 10 {
      var s := DecimalString(n);
      assert s[..|s| - 1] == DecimalString(n / 10);
      DecimalStringValue(n / 10);
    }
  }

  lemma {:induction false} LeadingDigitBound(s: string)
    requires IsCanonicalDecimal(s) && |s| > 1
    ensures DigitValue(s) >= 10
  {
    var p := s[..|s| - 1];
    assert p[0] == s[0];
    if |p| > 1 {
      LeadingDigitBound(p);
    } else {
      assert p == [s[0]];
      assert DigitValue(p) == 10 * DigitValue([]) + DigitToNat(s[0]);
    }
  }

  /** Reading canonical decimal text and printing the value back gives the same text. */
  lemma {:induction false} CanonicalDecimalRoundTrip(s: string)
    requires IsCanonicalDecimal(s)
    ensures DecimalString(DigitValue(s)) == s
  {
    if |s| == 1 {
      assert s[..0] == [];
    } else {
      var p := s[..|s| - 1];
      assert p[0] == s[0];
      LeadingDigitBound(s);
      var n := DigitValue(s);
      assert n / 10 == DigitValue(p) && n % 10 == DigitToNat(s[|s| - 1]);
      CanonicalDecimalRoundTrip(p);
      assert s == p + [s[|s| - 1]];
    }
  }

  /** `s.split(sep)` in JavaScript for a one-character separator: always at least one part. */
  function Split(s: string, sep: char): (parts: seq<string>)
    ensures |parts| >= 1
  {
    if s == [] then [[]]
    else
      var rest := Split(s[1..], sep);
      if s[0] == sep then [[]] + rest else [[s[0]] + rest[0]] + rest[1..]
  }

  /** `parts.join(sep)` in JavaScript. */
  function Join(parts: seq<string>, sep: char): string
    requires |parts| >= 1
  {
    if |parts| == 1 then parts[0] else parts[0] + [sep] + Join(parts[1..], sep)
  }

  lemma {:induction false} SplitPartsLackSeparator(s: string, sep: char)
    ensures forall k :: 0 <= k < |Split(s, sep)| ==> sep !in Split(s, sep)[k]
  {
    if s != [] {
      SplitPartsLackSeparator(s[1..], sep);
    }
  }

  lemma {:induction false} SplitPrefixWithoutSeparator(x: string, t: string, sep: char)
    requires sep !in x
    ensures Split(x + t, sep) == [x + Split(t, sep)[0]] + Split(t, sep)[1..]
  {
    if x != [] {
      assert (x + t)[1..] == x[1..] + t;
      SplitPrefixWithoutSeparator(x[1..], t, sep);
      assert [x[0]] + (x[1..] + Split(t, sep)[0]) == x + Split(t, sep)[0];
    } else {
      var p := Split(t, sep);
      assert x + t == t && x + p[0] == p[0];
      assert p == [p[0]] + p[1..];
    }
  }

  /** Splitting a joined list gives the list back when no part holds the separator. */
  lemma {:induction false} SplitJoin(parts: seq<string>, sep: char)
    requires |parts| >= 1
    requires forall k :: 0 <= k < |parts| ==> sep !in parts[k]
    ensures Split(Join(parts, sep), sep) == parts
  {
    if |parts| == 1 {
      SplitPrefixWithoutSeparator(parts[0], [], sep);
      assert parts[0] + [] == parts[0];
    } else {
      var tail := Join(parts[1..], sep);
      SplitJoin(parts[1..], sep);
      assert parts[0] + [sep] + tail == parts[0] + ([sep] + tail);
      SplitPrefixWithoutSeparator(parts[0], [sep] + tail, sep);
      assert ([sep] + tail)[1..] == tail;
      assert parts[0] + [] == parts[0];
      assert parts == [parts[0]] + parts[1..];
    }
  }

  /** A character that is not the separator and occurs in no part does not occur in the join. */
  lemma {:induction false} JoinLacks(parts: seq<string>, sep: char, c: char)
    requires |parts| >= 1
    requires c != sep
    requires forall k :: 0 <= k < |parts| ==> c !in parts[k]
    ensures c !in Join(parts, sep)
  {
    if |parts| > 1 {
      JoinLacks(parts[1..], sep, c);
    }
  }

  /** The join begins with the first part. */
  lemma {:induction false} JoinStartsWithFirst(parts: seq<string>, sep: char)
    requires |parts| >= 1
    ensures parts[0] <= Join(parts, sep)
  {
  }
}
