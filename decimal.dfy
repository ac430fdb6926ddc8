/**
 * Decimal rendering of integers as Python's `str(int)` writes them, and of a
 * cent amount as `f"{amount:.2f}"` writes it when the amount is a whole
 * number of cents. Each rendering comes with the parser that inverts it.
 */
module Decimal {

  predicate IsDigit(c: char) { '0' <= c <= '9' }

  predicate AllDigits(s: string) {
    forall i :: 0 <= i < |s| ==> IsDigit(s[i])
  }

  function DigitChar(d: nat): (c: char)
    requires d < 10
    ensures IsDigit(c) && c as int - '0' as int == d
  {
    ('0' as int + d) as char
  }

  function DigitValue(c: char): (d: nat)
    requires IsDigit(c)
    ensures d < 10 && DigitChar(d) == c
  {
    c as int - '0' as int
  }

  /** `str(n)` for a non-negative `n`: at least one digit, no leading zero. */
  function NatToString(n: nat): (r: string)
    ensures |r| >= 1 && AllDigits(r)
    ensures |r| > 1 ==> r[0] != '0'
  {
    if n < 10 then [DigitChar(n)] else NatToString(n / 10) + [DigitChar(n % 10)]
  }

  /** `str(i)`: a minus sign before the digits of a negative number. */
  function IntToString(i: int): (r: string)
    ensures |r| >= 1
    ensures i < 0 <==> r[0] == '-'
    ensures i >= 0 ==> AllDigits(r)
    ensures i < 0 ==> AllDigits(r[1..])
  {
    if i < 0 then "-" + NatToString(-i) else NatToString(i)
  }

  /** The value of a string of decimal digits (the empty string reads as 0). */
  function ParseNat(s: string): nat
    requires AllDigits(s)
  {
    if s == [] then 0 else ParseNat(s[..|s| - 1]) * 10 + DigitValue(s[|s| - 1])
  }

  /** Reads back what IntToString writes. */
  function ParseInt(s: string): int
    requires |s| >= 1
    requires s[0] == '-' ==> AllDigits(s[1..])
    requires s[0] != '-' ==> AllDigits(s)
  {
    if s[0] == '-' then 0 - ParseNat(s[1..]) else ParseNat(s)
  }

  lemma {:induction false} NatRoundTrip(n: nat)
    ensures ParseNat(NatToString(n)) == n
  {
    if n >= 10 {
      var s := NatToString(n);
      assert s[..|s| - 1] == NatToString(n / 10);
      NatRoundTrip(n / 10);
    }
  }

  lemma IntRoundTrip(i: int)
    ensures ParseInt(IntToString(i)) == i
  {
    if i < 0 {
      assert IntToString(i)[1..] == NatToString(-i);
      NatRoundTrip(-i);
    } else {
      NatRoundTrip(i);
    }
  }

  /** Different integers are written differently. */
  lemma IntToStringInjective(i: int, j: int)
    requires IntToString(i) == IntToString(j)
    ensures i == j
  {
    IntRoundTrip(i);
    IntRoundTrip(j);
  }

  /**
   * `f"{amount:.2f}"` for an amount of `cents / 100` dollars: an optional
   * minus sign, the whole dollars, a point and exactly two cent digits.
   */
  function CentsToString(cents: int): (r: string)
    ensures |r| >= 4 && r[|r| - 3] == '.'
    ensures cents < 0 <==> r[0] == '-'
  {
    var a := if cents < 0 then -cents else cents;
    (if cents < 0 then "-" else "") + CentsBody(a)
  }

  /** The well-formed results of CentsToString, the inputs ParseCents accepts. */
  predicate IsCentsText(s: string) {
    var body := if |s| > 0 && s[0] == '-' then s[1..] else s;
    |body| >= 4 && body[|body| - 3] == '.' && AllDigits(body[..|body| - 3]) && AllDigits(body[|body| - 2..])
  }

  /** Reads an amount written as CentsToString writes it back as whole cents. */
  function ParseCents(s: string): int
    requires IsCentsText(s)
  {
    var negative := s[0] == '-';
    var body := if negative then s[1..] else s;
    var a := ParseNat(body[..|body| - 3]) * 100 + ParseNat(body[|body| - 2..]);
    if negative then 0 - a else a
  }

  /** The two cent digits read back as the remainder modulo 100. */
  lemma TwoDigitsRoundTrip(a: nat)
    ensures ParseNat([DigitChar(a % 100 / 10), DigitChar(a % 10)]) == a % 100
  {
    var frac := [DigitChar(a % 100 / 10), DigitChar(a % 10)];
    assert frac[..1] == [frac[0]];
    assert [frac[0]][..0] == [];
    assert ParseNat([frac[0]]) == a % 100 / 10;
    assert ParseNat(frac) == ParseNat([frac[0]]) * 10 + a % 10;
    assert a % 100 == a % 100 / 10 * 10 + a % 10;
  }

  /** The unsigned part of CentsToString: whole dollars, a point, two cent digits. */
  function CentsBody(a: nat): string {
    NatToString(a / 100) + "." + [DigitChar(a % 100 / 10), DigitChar(a % 10)]
  }

  lemma CentsBodyRoundTrip(a: nat)
    ensures var body := CentsBody(a);
      && |body| >= 4 && body[|body| - 3] == '.' && body[0] != '-'
      && AllDigits(body[..|body| - 3]) && AllDigits(body[|body| - 2..])
      && ParseNat(body[..|body| - 3]) * 100 + ParseNat(body[|body| - 2..]) == a
  {
    var whole := NatToString(a / 100);
    var frac := [DigitChar(a % 100 / 10), DigitChar(a % 10)];
    var body := CentsBody(a);
    assert body[..|body| - 3] == whole;
    assert body[|body| - 2..] == frac;
    TwoDigitsRoundTrip(a);
    NatRoundTrip(a / 100);
    assert a == a / 100 * 100 + a % 100;
  }

  /** A sign in front of a well-formed body is read back as negation. */
  lemma SignedCents(body: string, negative: bool)
    requires |body| >= 4 && body[|body| - 3] == '.' && body[0] != '-'
    requires AllDigits(body[..|body| - 3]) && AllDigits(body[|body| - 2..])
    ensures var s := if negative then "-" + body else body;
      var v := ParseNat(body[..|body| - 3]) * 100 + ParseNat(body[|body| - 2..]);
      IsCentsText(s) && ParseCents(s) == if negative then 0 - v else v
  {
    if negative {
      assert ("-" + body)[1..] == body;
    }
  }

  lemma CentsRoundTrip(cents: int)
    ensures IsCentsText(CentsToString(cents))
    ensures ParseCents(CentsToString(cents)) == cents
  {
    var a := if cents < 0 then -cents else cents;
    var body := CentsBody(a);
    assert "" + body == body;
    assert CentsToString(cents) == if cents < 0 then "-" + body else body;
    CentsBodyRoundTrip(a);
    SignedCents(body, cents < 0);
  }
}
