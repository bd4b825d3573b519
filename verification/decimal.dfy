/** Decimal rendering of integers, as Python's `str(int)` produces it.

    The price table is keyed by age strings, so which entry an age selects is
    decided entirely by this rendering: an optional `-`, then the decimal
    digits of the magnitude with no leading zero (zero itself is "0", never
    "-0").  A key such as "040" is therefore never selected by any age.
 */
module Decimal {

  datatype Option<T> = None | Some(value: T)

  predicate IsDigit(c: char) {
    '0' <= c <= '9'
  }

  predicate AllDigits(s: string) {
    forall i :: 0 <= i < |s| ==> IsDigit(s[i])
  }

  function DigitChar(d: int): (c: char)
    requires 0 <= d < 10
    ensures IsDigit(c) && DigitValue(c) == d
  {
    (d + '0' as int) as char
  }

  function DigitValue(c: char): int
    requires IsDigit(c)
  {
    c as int - '0' as int
  }

  /** The decimal digits of `n`, most significant first. */
  function NatToString(n: nat): (s: string)
    ensures |s| >= 1 && AllDigits(s)
    ensures s[0] == '0' <==> n == 0
    ensures n == 0 ==> s == "0"
  {
    if n < 10 then [DigitChar(n)] else NatToString(n / 10) + [DigitChar(n % 10)]
  }

  /** Python's `str(i)` for an integer `i`: a canonical decimal string that
      reads back as `i`. */
  function IntToString(i: int): (s: string)
    ensures |s| >= 1
    ensures s[0] == '-' <==> i < 0
    ensures IsCanonical(s) && ParseDecimal(s) == Some(i)
  {
    if i < 0 then
      var digits := NatToString(-i);
      NatToStringValue(-i);
      assert ("-" + digits)[1..] == digits;
      "-" + digits
    else
      NatToStringValue(i);
      NatToString(i)
  }

  /** The number a string of decimal digits denotes (leading zeros allowed). */
  function DigitsValue(s: string): nat
    requires AllDigits(s)
  {
    if |s| == 0 then 0 else 10 * DigitsValue(s[..|s| - 1]) + DigitValue(s[|s| - 1])
  }

  /** Reads an optional `-` followed by at least one decimal digit; leading
      zeros are accepted, so "040" and "40" both denote 40. */
  function ParseDecimal(s: string): (r: Option<int>)
  {
    if |s| >= 1 && s[0] == '-' then
      if |s| >= 2 && AllDigits(s[1..]) then Some(-(DigitsValue(s[1..]) as int)) else None
    else if |s| >= 1 && AllDigits(s) then Some(DigitsValue(s) as int)
    else None
  }

  /** Canonical digit strings: "0", or digits that do not start with '0'. */
  predicate CanonicalDigits(s: string) {
    |s| >= 1 && AllDigits(s) && (s[0] == '0' ==> |s| == 1)
  }

  /** The strings `str(int)` can produce: a canonical digit string, or `-`
      followed by a canonical digit string other than "0". */
  predicate IsCanonical(s: string) {
    if |s| >= 1 && s[0] == '-' then CanonicalDigits(s[1..]) && s[1..] != "0"
    else CanonicalDigits(s)
  }

  lemma {:induction false} NatToStringValue(n: nat)
    ensures DigitsValue(NatToString(n)) == n
    decreases n
  {
    var s := NatToString(n);
    if n >= 10 {
      NatToStringValue(n / 10);
      assert s[..|s| - 1] == NatToString(n / 10);
    }
  }

  lemma {:induction false} DigitsValuePositive(s: string)
    requires |s| >= 1 && AllDigits(s) && s[0] != '0'
    ensures DigitsValue(s) >= 1
    decreases |s|
  {
    if |s| > 1 {
      var t := s[..|s| - 1];
      assert t[0] == s[0];
      DigitsValuePositive(t);
    }
  }

  lemma {:induction false} CanonicalDigitsRoundTrip(s: string)
    requires CanonicalDigits(s)
    ensures NatToString(DigitsValue(s)) == s
    decreases |s|
  {
    if |s| > 1 {
      var t := s[..|s| - 1];
      assert t[0] == s[0];
      assert AllDigits(t);
      DigitsValuePositive(t);
      CanonicalDigitsRoundTrip(t);
      var n := DigitsValue(s);
      assert n / 10 == DigitsValue(t) && n % 10 == DigitValue(s[|s| - 1]);
      assert s == t + [s[|s| - 1]];
    }
  }

  /** Rendering an integer and reading it back gives the integer. */
  lemma IntToStringRoundTrip(i: int)
    ensures ParseDecimal(IntToString(i)) == Some(i)
  {
  }

  /** Distinct ages render to distinct keys. */
  lemma IntToStringInjective(a: int, b: int)
    requires IntToString(a) == IntToString(b)
    ensures a == b
  {
  }

  /** A key is selected by age `n` exactly when it is in canonical form and
      reads back as `n`. */
  lemma KeyMatchesExactly(s: string, n: int)
    ensures IntToString(n) == s <==> IsCanonical(s) && ParseDecimal(s) == Some(n)
  {
    if IntToString(n) == s {
      IntToStringRoundTrip(n);
      if n < 0 {
        assert s[1..] == NatToString(-n);
      }
    }
    if IsCanonical(s) && ParseDecimal(s) == Some(n) {
      if s[0] == '-' {
        CanonicalDigitsRoundTrip(s[1..]);
        assert s == "-" + s[1..];
      } else {
        CanonicalDigitsRoundTrip(s);
      }
    }
  }

  /** A key with a leading zero, such as "040", is matched by no age. */
  lemma LeadingZeroNeverMatches(s: string, n: int)
    requires |s| >= 2 && s[0] == '0'
    ensures IntToString(n) != s
  {
  }
}
