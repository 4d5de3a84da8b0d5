/**
 * String helpers the source gets from Python and the database: decimal renderings of
 * integers (f-strings), Python's `int()` and `Decimal()` on text, ASCII case folding
 * (`str.upper`, `icontains`) and substring tests.
 */
module Text {
  import opened Common

  predicate IsDigit(c: char) { '0' <= c <= '9' }

  predicate AllDigits(s: string) { forall i :: 0 <= i < |s| ==> IsDigit(s[i]) }

  function DigitChar(d: nat): (c: char)
    requires d < 10
    ensures IsDigit(c) && c as int - '0' as int == d
  {
    ('0' as int + d) as char
  }

  /** Decimal rendering of a natural number, as `str(n)` / an f-string gives it. */
  function NatToString(n: nat): (s: string)
    ensures |s| >= 1 && AllDigits(s)
    ensures (|s| == 1) == (n < 10)
    decreases n
  {
    if n < 10 then [DigitChar(n)] else NatToString(n / 10) + [DigitChar(n % 10)]
  }

  /** Decimal rendering of an integer, with a leading '-' when negative. */
  function IntToString(i: int): string {
    if i < 0 then "-" + NatToString(-i) else NatToString(i)
  }

  /**
   * A text ending in a run of digits right after a non-digit splits there in one way
   * only: the digits are the longest digit suffix.
   */
  lemma SplitDigitSuffix(x1: string, d1: string, x2: string, d2: string)
    requires x1 + d1 == x2 + d2
    requires AllDigits(d1) && AllDigits(d2)
    requires |x1| > 0 && !IsDigit(x1[|x1| - 1])
    requires |x2| > 0 && !IsDigit(x2[|x2| - 1])
    ensures x1 == x2 && d1 == d2
  {
    var s := x1 + d1;
    assert x1 == s[..|x1|] && x2 == (x2 + d2)[..|x2|];
    assert d1 == s[|x1|..] && d2 == (x2 + d2)[|x2|..];
  }

  /** The value of a string of decimal digits. */
  function DigitsValue(s: string): nat
    requires AllDigits(s)
  {
    if s == [] then 0 else DigitsValue(s[..|s| - 1]) * 10 + (s[|s| - 1] as int - '0' as int)
  }

  lemma {:induction false} DigitsValueOfNatToString(n: nat)
    ensures DigitsValue(NatToString(n)) == n
    decreases n
  {
    if n >= 10 {
      var s := NatToString(n / 10) + [DigitChar(n % 10)];
      assert s[..|s| - 1] == NatToString(n / 10);
      DigitsValueOfNatToString(n / 10);
    }
  }

  /**
   * Python's `int()` on a token without surrounding white space: an optional sign
   * followed by ASCII digits.
   */
  function ParseInt(s: string): (r: Option<int>)
    ensures r.Some? ==> |s| > 0
  {
    if |s| > 1 && (s[0] == '-' || s[0] == '+') && AllDigits(s[1..]) then
      Some(if s[0] == '-' then -(DigitsValue(s[1..]) as int) else DigitsValue(s[1..]))
    else if |s| > 0 && AllDigits(s) then Some(DigitsValue(s))
    else None
  }

  /** Rendering an integer and reading it back gives the integer again. */
  lemma ParseIntOfIntToString(i: int)
    ensures ParseInt(IntToString(i)) == Some(i)
  {
    var n: nat := if i < 0 then -i else i;
    var d := NatToString(n);
    DigitsValueOfNatToString(n);
    if i < 0 {
      var s := "-" + d;
      assert s[1..] == d;
      assert s[0] == '-';
      assert |s| > 1;
      assert ParseInt(s) == Some(-(DigitsValue(d) as int));
    } else {
      assert d[0] != '-' && d[0] != '+';
      assert ParseInt(d) == Some(DigitsValue(d));
    }
  }

  /** The position of the first `c` in `s`, or `|s|` when there is none. */
  function IndexOf(s: string, c: char): (k: nat)
    ensures k <= |s|
    ensures k < |s| ==> s[k] == c
    ensures forall j :: 0 <= j < k ==> s[j] != c
  {
    if s == [] then 0 else if s[0] == c then 0 else 1 + IndexOf(s[1..], c)
  }

  function Pow10(k: nat): (p: nat)
    ensures p >= 1
  {
    if k == 0 then 1 else 10 * Pow10(k - 1)
  }

  /** Unsigned decimal literal `ddd`, `ddd.ddd`, `.ddd` or `ddd.`: at least one digit. */
  function ParseUnsignedDecimal(s: string): Option<real> {
    var k := IndexOf(s, '.');
    var whole := s[..k];
    var frac := if k < |s| then s[k + 1..] else "";
    if AllDigits(whole) && AllDigits(frac) && |whole| + |frac| > 0 then
      Some(DigitsValue(whole) as real + DigitsValue(frac) as real / Pow10(|frac|) as real)
    else None
  }

  /**
   * Python's `Decimal()` on a plain decimal literal with an optional sign, which is how
   * Django converts a submitted text into a DecimalField value.
   */
  function ParseDecimal(s: string): Option<real> {
    if |s| > 0 && (s[0] == '-' || s[0] == '+') then
      match ParseUnsignedDecimal(s[1..])
      case Some(v) => Some(if s[0] == '-' then -v else v)
      case None => None
    else ParseUnsignedDecimal(s)
  }

  /** An integer rendered as text reads back as the same number through `Decimal()`. */
  lemma ParseDecimalOfIntToString(i: int)
    ensures ParseDecimal(IntToString(i)) == Some(i as real)
  {
    var n: nat := if i < 0 then -i else i;
    var d := NatToString(n);
    assert IndexOf(d, '.') == |d|;
    assert d[..|d|] == d;
    DigitsValueOfNatToString(n);
    if i < 0 {
      var s := IntToString(i);
      assert s[1..] == d;
    } else {
      assert d[0] != '-' && d[0] != '+';
    }
  }

  function Upper(c: char): char {
    if 'a' <= c <= 'z' then (c as int - 32) as char else c
  }

  function Lower(c: char): char {
    if 'A' <= c <= 'Z' then (c as int + 32) as char else c
  }

  /** `str.upper()`, restricted to ASCII letters. */
  function UpperStr(s: string): (r: string)
    ensures |r| == |s| && forall i :: 0 <= i < |s| ==> r[i] == Upper(s[i])
  {
    seq(|s|, i requires 0 <= i < |s| => Upper(s[i]))
  }

  /** `str.lower()`, restricted to ASCII letters. */
  function LowerStr(s: string): (r: string)
    ensures |r| == |s| && forall i :: 0 <= i < |s| ==> r[i] == Lower(s[i])
  {
    seq(|s|, i requires 0 <= i < |s| => Lower(s[i]))
  }

  predicate StartsWith(s: string, prefix: string) {
    |prefix| <= |s| && s[..|prefix|] == prefix
  }

  predicate EndsWith(s: string, suffix: string) {
    |suffix| <= |s| && s[|s| - |suffix|..] == suffix
  }

  /** Python's `sub in s`. */
  predicate Contains(s: string, sub: string) {
    exists i :: 0 <= i <= |s| - |sub| && OccursAt(s, sub, i)
  }

  predicate OccursAt(s: string, sub: string, i: int)
    requires 0 <= i <= |s| - |sub|
  {
    s[i..i + |sub|] == sub
  }

  /** The database's `icontains` lookup, with ASCII case folding. */
  predicate ContainsIgnoreCase(s: string, sub: string) {
    Contains(LowerStr(s), LowerStr(sub))
  }

  /** The empty string is in every string, whatever its case. */
  lemma ContainsIgnoreCaseEmpty(s: string)
    ensures ContainsIgnoreCase(s, "")
  {
    assert OccursAt(LowerStr(s), LowerStr(""), 0);
  }

  /** Every string contains itself, ignoring case. */
  lemma ContainsIgnoreCaseSelf(s: string)
    ensures ContainsIgnoreCase(s, s)
  {
    assert OccursAt(LowerStr(s), LowerStr(s), 0);
  }

  /** The prefix of `s` that ends before its first space. */
  function TakeUntilSpace(s: string): (r: string)
    ensures StartsWith(s, r) && ' ' !in r
  {
    s[..IndexOf(s, ' ')]
  }
}
