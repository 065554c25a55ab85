/** Python's "%d" rendering of integers, with the parser that reads it back. */
module Numerals {

  predicate IsDigit(c: char) {
    '0' <= c <= '9'
  }

  predicate AllDigits(s: string) {
    forall i :: 0 <= i < |s| ==> IsDigit(s[i])
  }

  function DigitValue(c: char): (d: nat)
    requires IsDigit(c)
    ensures d < 10
  {
    c as int - '0' as int
  }

  function DigitChar(d: nat): (c: char)
    requires d < 10
    ensures IsDigit(c) && DigitValue(c) == d
  {
    (d + '0' as int) as char
  }

  /** A numeral as "%d" writes a natural number: digits only, and no leading zero. */
  predicate Canonical(s: string) {
    |s| > 0 && AllDigits(s) && (s[0] == '0' ==> |s| == 1)
  }

  /** "%d" % n for n >= 0. */
  function Decimal(n: nat): (s: string)
    ensures Canonical(s)
    ensures s[0] == '0' ==> n == 0
    decreases n
  {
    if n < 10 then [DigitChar(n)] else Decimal(n / 10) + [DigitChar(n % 10)]
  }

  /** The value of a numeral, most significant digit first. */
  function ParseDecimal(s: string): nat
    requires AllDigits(s)
    decreases |s|
  {
    if s == [] then 0 else 10 * ParseDecimal(s[..|s| - 1]) + DigitValue(s[|s| - 1])
  }

  lemma {:induction false} ParseDecimalInverts(n: nat)
    ensures ParseDecimal(Decimal(n)) == n
    decreases n
  {
    if n >= 10 {
      ParseDecimalInverts(n / 10);
      var s := Decimal(n);
      assert s[..|s| - 1] == Decimal(n / 10);
    }
  }

  lemma {:induction false} LeadingDigitPositive(s: string)
    requires AllDigits(s) && |s| > 0 && s[0] != '0'
    ensures ParseDecimal(s) > 0
    decreases |s|
  {
    if |s| > 1 {
      LeadingDigitPositive(s[..|s| - 1]);
    }
  }

  /** Every canonical numeral is what "%d" writes for its value, so the
      rendering is onto the canonical numerals and never ambiguous. */
  lemma {:induction false} DecimalInvertsParse(s: string)
    requires Canonical(s)
    ensures Decimal(ParseDecimal(s)) == s
    decreases |s|
  {
    var last := s[|s| - 1];
    assert DigitChar(DigitValue(last)) == last;
    if |s| > 1 {
      var p := s[..|s| - 1];
      assert p[0] == s[0];
      LeadingDigitPositive(p);
      DecimalInvertsParse(p);
      var n := ParseDecimal(s);
      assert n / 10 == ParseDecimal(p) && n % 10 == DigitValue(last);
      assert s == p + [last];
    }
  }

  /** "%d" % i for any integer: a minus sign before the magnitude when negative. */
  function SignedDecimal(i: int): string {
    if i < 0 then "-" + Decimal(-i) else Decimal(i)
  }

  predicate SignedNumeral(s: string) {
    (|s| > 1 && s[0] == '-' && AllDigits(s[1..])) || AllDigits(s)
  }

  function ParseSigned(s: string): int
    requires SignedNumeral(s)
  {
    if |s| > 1 && s[0] == '-' && AllDigits(s[1..]) then -(ParseDecimal(s[1..]) as int) else ParseDecimal(s)
  }

  lemma SignedRoundTrip(i: int)
    ensures SignedNumeral(SignedDecimal(i))
    ensures ParseSigned(SignedDecimal(i)) == i
  {
    var s := SignedDecimal(i);
    if i < 0 {
      assert s[1..] == Decimal(-i);
      ParseDecimalInverts(-i);
    } else {
      ParseDecimalInverts(i);
    }
  }
}
