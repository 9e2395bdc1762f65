/** Decimal rendering of integers in plain positional notation, as Python's str(n) produces it
    and as JavaScript's String(n) does for integers below 10^21 in magnitude, and the value of
    a string of decimal digits. */
module Decimal {

  predicate IsDigit(c: char) {
    '0' <= c <= '9'
  }

  predicate AllDigits(s: string) {
    forall i :: 0 <= i < |s| ==> IsDigit(s[i])
  }

  function DigitOf(c: char): (d: nat)
    requires IsDigit(c)
    ensures d < 10
  {
    (c as int) - ('0' as int)
  }

  function DigitChar(d: nat): (c: char)
    requires d < 10
    ensures IsDigit(c) && DigitOf(c) == d
  {
    (('0' as int) + d) as char
  }

  /** The shortest decimal spelling of n (no sign, no leading zeros). */
  function ShowNat(n: nat): (s: string)
    ensures |s| > 0 && AllDigits(s)
  {
    if n < 10 then [DigitChar(n)] else ShowNat(n / 10) + [DigitChar(n % 10)]
  }

  /** The decimal spelling of n, with a leading '-' when n is negative. */
  function ShowInt(n: int): (s: string)
    ensures |s| > 0
  {
    if n < 0 then "-" + ShowNat(-n) else ShowNat(n)
  }

  /** The number a string of decimal digits denotes, most significant digit first. */
  function Value(s: string): nat
    requires AllDigits(s)
  {
    if s == [] then 0 else Value(s[..|s| - 1]) * 10 + DigitOf(s[|s| - 1])
  }

  /** Reading back what ShowNat wrote gives the number again. */
  lemma {:induction false} ValueOfShowNat(n: nat)
    ensures Value(ShowNat(n)) == n
  {
    if n >= 10 {
      var s := ShowNat(n);
      assert s[..|s| - 1] == ShowNat(n / 10);
      ValueOfShowNat(n / 10);
    }
  }

  /** Different numbers have different spellings. */
  lemma ShowNatInjective(a: nat, b: nat)
    ensures ShowNat(a) == ShowNat(b) ==> a == b
  {
    ValueOfShowNat(a);
    ValueOfShowNat(b);
  }
}
