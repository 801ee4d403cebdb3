/**
 * Decimal text for integers: the conversion JavaScript applies when a number is used
 * as an object key or inside a template literal, and the digit parsing of `parseInt`.
 */
module Decimal {

  predicate IsDigit(c: char) {
    '0' <= c <= '9'
  }

  predicate AllDigits(s: string) {
    forall i :: 0 <= i < |s| ==> IsDigit(s[i])
  }

  function DigitChar(d: nat): (c: char)
    requires d < 10
    ensures IsDigit(c)
  {
    ('0' as int + d) as char
  }

  function DigitValue(c: char): (d: nat)
    requires IsDigit(c)
    ensures d < 10
    ensures DigitChar(d) == c
  {
    c as int - '0' as int
  }

  /** Canonical decimal spelling of a natural number: digits only, no leading zero. */
  function NatToStr(n: nat): (s: string)
    ensures |s| >= 1 && AllDigits(s)
    ensures |s| > 1 ==> s[0] != '0'
    ensures n < 10 <==> |s| == 1
    decreases n
  {
    if n < 10 then [DigitChar(n)] else NatToStr(n / 10) + [DigitChar(n % 10)]
  }

  /** JavaScript `String(i)` for an integer. */
  function IntToStr(i: int): (s: string)
    ensures |s| >= 1
    ensures i < 0 <==> s[0] == '-'
  {
    if i < 0 then "-" + NatToStr(-i) else NatToStr(i)
  }

  /** The value of a run of decimal digits, read left to right (`parseInt(s, 10)` on digits). */
  function ParseDigits(s: string): nat
    requires AllDigits(s)
  {
    if s == [] then 0 else ParseDigits(s[..|s| - 1]) * 10 + DigitValue(s[|s| - 1])
  }

  /** Printing and parsing are inverse: the digits of `n` read back as `n`. */
  lemma {:induction false} ParseNatToStr(n: nat)
    ensures ParseDigits(NatToStr(n)) == n
    decreases n
  {
    if n >= 10 {
      var s := NatToStr(n);
      assert s[..|s| - 1] == NatToStr(n / 10);
      ParseNatToStr(n / 10);
    }
  }

  /** Distinct numbers print differently. */
  lemma NatToStrInjective(a: nat, b: nat)
    ensures NatToStr(a) == NatToStr(b) ==> a == b
  {
    ParseNatToStr(a);
    ParseNatToStr(b);
  }

  /** Distinct integers print differently, negative numbers included. */
  lemma IntToStrInjective(a: int, b: int)
    ensures IntToStr(a) == IntToStr(b) ==> a == b
  {
    if IntToStr(a) == IntToStr(b) {
      if a < 0 && b < 0 {
        assert NatToStr(-a) == IntToStr(a)[1..];
        assert NatToStr(-b) == IntToStr(b)[1..];
        NatToStrInjective(-a, -b);
      } else if a >= 0 && b >= 0 {
        NatToStrInjective(a, b);
      }
    }
  }
}
