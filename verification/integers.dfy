/** Decimal text of 64-bit signed integers, as Rust's `i64::from_str` reads it:
    an optional `+` or `-` sign followed by one or more ASCII digits, whose
    value must lie in the `i64` range. */
module Integers {
  import opened Outcomes

  const I64_MIN: int := -0x8000_0000_0000_0000
  const I64_MAX: int := 0x7FFF_FFFF_FFFF_FFFF

  predicate InI64(x: int) {
    I64_MIN <= x <= I64_MAX
  }

  /** The values a Rust `i64` can hold. */
  type i64 = x: int | InI64(x)

  predicate IsDigit(c: char) {
    '0' <= c <= '9'
  }

  predicate IsSign(c: char) {
    c == '+' || c == '-'
  }

  predicate AllDigits(s: string) {
    forall k | 0 <= k < |s| :: IsDigit(s[k])
  }

  function DigitValue(c: char): (d: nat)
    requires IsDigit(c)
    ensures d < 10
  {
    (c as int - '0' as int) as nat
  }

  function DigitChar(d: nat): (c: char)
    requires d < 10
    ensures IsDigit(c) && DigitValue(c) == d
  {
    ('0' as int + d) as char
  }

  /** The value of a string of digits, most significant digit first. */
  function DigitsValue(s: string): nat
    requires AllDigits(s)
  {
    if |s| == 0 then 0 else DigitsValue(s[..|s| - 1]) * 10 + DigitValue(s[|s| - 1])
  }

  /** The integer a sign-and-digits string denotes, before the range check. */
  function ParseDecimal(s: string): (r: Option<int>)
    ensures r.Some? <==> WellFormedDecimal(s)
    ensures r.Some? && s[0] == '-' ==> r.value <= 0
    ensures r.Some? && s[0] != '-' ==> r.value >= 0
  {
    if |s| > 0 && IsSign(s[0]) then
      if |s| > 1 && AllDigits(s[1..]) then
        Some(if s[0] == '-' then -(DigitsValue(s[1..]) as int) else DigitsValue(s[1..]))
      else None
    else if |s| > 0 && AllDigits(s) then Some(DigitsValue(s))
    else None
  }

  /** The shape `i64::from_str` accepts: an optional sign, then at least one digit. */
  predicate WellFormedDecimal(s: string) {
    && |s| > 0
    && (IsDigit(s[0]) || (IsSign(s[0]) && |s| > 1))
    && AllDigits(s[1..])
  }

  /** `str::parse::<i64>`: the text's value when it is well formed and fits. */
  function ParseI64(s: string): (r: Option<i64>)
    ensures r.Some? ==> WellFormedDecimal(s)
    ensures r.Some? <==> WellFormedDecimal(s) && InI64(ParseDecimal(s).value)
    ensures r.Some? ==> r.value == ParseDecimal(s).value
  {
    match ParseDecimal(s)
    case Some(x) => if InI64(x) then Some(x) else None
    case None => None
  }

  /** Shortest decimal digits of a natural number. */
  function NatDigits(n: nat): (s: string)
    ensures |s| > 0 && AllDigits(s)
  {
    if n < 10 then [DigitChar(n)] else NatDigits(n / 10) + [DigitChar(n % 10)]
  }

  /** Decimal text of an integer, with a `-` sign when it is negative. */
  function Show(x: int): (s: string)
    ensures WellFormedDecimal(s)
  {
    if x < 0 then "-" + NatDigits(-x) else NatDigits(x)
  }

  lemma {:induction false} NatDigitsValue(n: nat)
    ensures DigitsValue(NatDigits(n)) == n
  {
    var s := NatDigits(n);
    if n >= 10 {
      NatDigitsValue(n / 10);
      assert s[..|s| - 1] == NatDigits(n / 10);
    }
  }

  /** The text of a negative number is a `-` and the digits of its magnitude. */
  lemma ShowNegative(x: int)
    requires x < 0
    ensures ParseDecimal(Show(x)) == Some(x)
  {
    var s := Show(x);
    var m := -x;
    NatDigitsValue(m);
    assert s[0] == '-' && s[1..] == NatDigits(m);
    assert DigitsValue(s[1..]) == m;
  }

  /** The text of a non-negative number is its digits alone. */
  lemma ShowNonNegative(x: int)
    requires x >= 0
    ensures ParseDecimal(Show(x)) == Some(x)
  {
    var s := Show(x);
    NatDigitsValue(x);
    assert s == NatDigits(x) && IsDigit(s[0]);
  }

  /** Every `i64` survives a trip through its decimal text. */
  lemma ParseShow(x: i64)
    ensures ParseI64(Show(x)) == Some(x)
  {
    if x < 0 {
      ShowNegative(x);
    } else {
      ShowNonNegative(x);
    }
  }

  /* ---------- the other way round: text, value, canonical text ---------- */

  /** Digits with no superfluous leading zero. */
  predicate CanonicalDigits(d: string) {
    |d| > 0 && AllDigits(d) && (|d| == 1 || d[0] != '0')
  }

  /** The digits with their leading zeros dropped, keeping at least one. */
  function StripZeros(d: string): (r: string)
    requires |d| > 0 && AllDigits(d)
    ensures CanonicalDigits(r)
    ensures DigitsValue(r) == DigitsValue(d)
  {
    if |d| > 1 && d[0] == '0' then
      LeadingZero(d[1..]);
      assert d == "0" + d[1..];
      StripZeros(d[1..])
    else d
  }

  /** The text `Show` prints for the number a well-formed decimal denotes:
      a `+` sign and leading zeros are dropped, and `-0` becomes `0`. */
  function Canonical(s: string): string
    requires WellFormedDecimal(s)
  {
    if s[0] == '-' then
      var m := StripZeros(s[1..]);
      if m == "0" then "0" else "-" + m
    else if s[0] == '+' then StripZeros(s[1..])
    else StripZeros(s)
  }

  /** A leading zero adds nothing to the value. */
  lemma {:induction false} LeadingZero(e: string)
    requires AllDigits(e)
    ensures AllDigits("0" + e) && DigitsValue("0" + e) == DigitsValue(e)
  {
    var z := "0" + e;
    assert AllDigits(z) by {
      forall k | 0 <= k < |z| ensures IsDigit(z[k]) {
        if k > 0 { assert z[k] == e[k - 1]; }
      }
    }
    if |e| > 0 {
      LeadingZero(e[..|e| - 1]);
      assert z[..|z| - 1] == "0" + e[..|e| - 1];
    }
  }

  /** Digits that start with a non-zero digit denote a positive number. */
  lemma {:induction false} NonZeroLead(d: string)
    requires |d| > 0 && AllDigits(d) && d[0] != '0'
    ensures DigitsValue(d) >= 1
  {
    if |d| > 1 {
      NonZeroLead(d[..|d| - 1]);
    }
  }

  /** Canonical digits are exactly what `NatDigits` prints for their value. */
  lemma {:induction false} NatDigitsOfCanonical(d: string)
    requires CanonicalDigits(d)
    ensures NatDigits(DigitsValue(d)) == d
  {
    var n := |d|;
    if n == 1 {
      assert DigitChar(DigitValue(d[0])) == d[0];
    } else {
      var init := d[..n - 1];
      NonZeroLead(init);
      NatDigitsOfCanonical(init);
      var v := DigitsValue(d);
      assert v / 10 == DigitsValue(init) && v % 10 == DigitValue(d[n - 1]);
      assert DigitChar(DigitValue(d[n - 1])) == d[n - 1];
      assert d == init + [d[n - 1]];
    }
  }

  /** Every text `i64::from_str` reads is, once a `+` sign and leading zeros
      are dropped and `-0` is written `0`, the text `Show` prints for the
      value it reads. With `ParseShow` this pins the value of every
      accepted text. */
  lemma ShowParse(s: string)
    requires ParseDecimal(s).Some?
    ensures Show(ParseDecimal(s).value) == Canonical(s)
  {
    var x := ParseDecimal(s).value;
    if s[0] == '-' {
      var m := StripZeros(s[1..]);
      NatDigitsOfCanonical(m);
      if m == "0" {
        assert DigitsValue(m) == 0;
      } else {
        NonZeroLead(m);
      }
    } else if s[0] == '+' {
      NatDigitsOfCanonical(StripZeros(s[1..]));
    } else {
      NatDigitsOfCanonical(StripZeros(s));
    }
  }

  /** Texts `i64::from_str` accepts beyond the canonical ones, and some it
      refuses. */
  lemma ParseExamples()
    ensures ParseI64("007") == Some(7)
    ensures ParseI64("+7") == Some(7)
    ensures ParseI64("-0") == Some(0)
    ensures ParseI64("") == None
    ensures ParseI64("-") == None
    ensures ParseI64("1-") == None
  {
    assert "007"[..2] == "00" && "00"[..1] == "0" && "0"[..0] == "";
    assert AllDigits("007");
    assert DigitsValue("00") == 0;
    assert DigitsValue("007") == 7;
    assert "+7"[1..] == "7";
    assert "-0"[1..] == "0";
    assert !AllDigits("1-") by { assert !IsDigit("1-"[1]); }
  }
}
