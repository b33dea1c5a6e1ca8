/** Python's `str` on an integer: the decimal numeral, with a leading '-' for a
    negative number and no leading zeros. The catalog identifier of a package is
    this numeral of the package id. */
module Decimal {

  predicate IsDigit(c: char) {
    '0' <= c <= '9'
  }

  function DigitChar(d: nat): (c: char)
    requires d < 10
    ensures IsDigit(c)
  {
    ('0' as int + d) as char
  }

  function DigitValue(c: char): (d: nat)
    requires IsDigit(c)
    ensures d < 10 && DigitChar(d) == c
  {
    c as int - '0' as int
  }

  predicate AllDigits(s: string) {
    forall i :: 0 <= i < |s| ==> IsDigit(s[i])
  }

  /** The decimal numeral of a natural number, most significant digit first. */
  function NatString(n: nat): (s: string)
    ensures |s| >= 1 && AllDigits(s)
    ensures s[0] == '0' ==> n == 0 && |s| == 1
    decreases n
  {
    if n < 10 then [DigitChar(n)] else NatString(n / 10) + [DigitChar(n % 10)]
  }

  /** `str(n)` for a Python int. */
  function IntString(n: int): (s: string)
    ensures |s| >= 1 && (s[0] == '-' <==> n < 0)
    ensures Canonical(s)
  {
    if n < 0 then
      var digits := NatString(-n);
      assert ("-" + digits)[1..] == digits;
      "-" + digits
    else NatString(n)
  }

  /** The value of a string of decimal digits (the inverse of NatString). */
  function ParseNat(s: string): nat
    requires AllDigits(s)
  {
    if s == [] then 0 else 10 * ParseNat(s[..|s| - 1]) + DigitValue(s[|s| - 1])
  }

  /** A numeral `IntString` can produce: digits, optionally after one '-'. */
  predicate IsNumeral(s: string) {
    |s| >= 1 && (if s[0] == '-' then |s| >= 2 && AllDigits(s[1..]) else AllDigits(s))
  }

  /** A numeral in the form `str` gives it: no leading zero, and no "-0". */
  predicate Canonical(s: string) {
    IsNumeral(s) &&
    var digits := if s[0] == '-' then s[1..] else s;
    digits[0] == '0' ==> s == "0"
  }

  /** The value of a numeral (the inverse of IntString). */
  function ParseInt(s: string): int
    requires IsNumeral(s)
  {
    if s[0] == '-' then -(ParseNat(s[1..]) as int) else ParseNat(s)
  }

  lemma {:induction false} NatStringRoundTrip(n: nat)
    ensures ParseNat(NatString(n)) == n
    decreases n
  {
    if n >= 10 {
      var s := NatString(n);
      assert s[..|s| - 1] == NatString(n / 10);
      NatStringRoundTrip(n / 10);
    }
  }

  /** Every identifier is a well-formed numeral that parses back to the id. */
  lemma IntStringRoundTrip(n: int)
    ensures IsNumeral(IntString(n)) && ParseInt(IntString(n)) == n
  {
    if n < 0 {
      var digits := NatString(-n);
      assert IntString(n) == "-" + digits;
      assert IntString(n)[1..] == digits;
      NatStringRoundTrip(-n);
    } else {
      NatStringRoundTrip(n);
    }
  }

  /** Distinct ids give distinct identifiers. */
  lemma IntStringInjective(a: int, b: int)
    ensures IntString(a) == IntString(b) <==> a == b
  {
    IntStringRoundTrip(a);
    IntStringRoundTrip(b);
  }

  /** A digit string that does not start with '0' has a positive value. */
  lemma {:induction false} LeadingDigitPositive(s: string)
    requires |s| >= 1 && AllDigits(s) && s[0] != '0'
    ensures ParseNat(s) >= 1
    decreases |s|
  {
    if |s| == 1 {
      assert DigitChar(DigitValue(s[0])) == s[0];
    } else {
      var prefix := s[..|s| - 1];
      assert prefix[0] == s[0];
      LeadingDigitPositive(prefix);
    }
  }

  /** A digit string without leading zeros is the numeral of its value. */
  lemma {:induction false} ParseNatRoundTrip(s: string)
    requires |s| >= 1 && AllDigits(s) && (s[0] == '0' ==> |s| == 1)
    ensures NatString(ParseNat(s)) == s
    decreases |s|
  {
    if |s| == 1 {
      assert s == [s[|s| - 1]];
      assert s[..0] == [];
    } else {
      var prefix, last := s[..|s| - 1], s[|s| - 1];
      assert prefix[0] == s[0];
      LeadingDigitPositive(prefix);
      ParseNatRoundTrip(prefix);
      var n := ParseNat(s);
      assert n / 10 == ParseNat(prefix) && n % 10 == DigitValue(last);
      assert s == prefix + [last];
    }
  }

  /** A canonical numeral is `str` of its value: `str` is the only way to
      write an integer in this form. */
  lemma CanonicalNumeralUnique(s: string)
    requires Canonical(s)
    ensures s == IntString(ParseInt(s))
  {
    if s[0] == '-' {
      var digits := s[1..];
      LeadingDigitPositive(digits);
      ParseNatRoundTrip(digits);
      assert s == "-" + digits;
    } else {
      ParseNatRoundTrip(s);
    }
  }
}
