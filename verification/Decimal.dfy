/** Printing natural numbers in base ten, and reading them back. */
module Decimal {
  predicate IsDigit(c: char) { '0' <= c <= '9' }

  predicate AllDigits(s: string) { forall i :: 0 <= i < |s| ==> IsDigit(s[i]) }

  function Digit(d: nat): (c: char)
    requires d < 10
    ensures IsDigit(c) && DigitValue(c) == d
  {
    "0123456789"[d]
  }

  function DigitValue(c: char): (d: nat)
    requires IsDigit(c)
    ensures d < 10
  {
    (c - '0') as nat
  }

  /** The decimal numeral of `n`, without leading zeros. */
  function Print(n: nat): (s: string)
    ensures |s| > 0 && AllDigits(s)
  {
    if n < 10 then [Digit(n)] else Print(n / 10) + [Digit(n % 10)]
  }

  /** The value of a string of digits, read most significant first. */
  function Value(s: string): nat
    requires AllDigits(s)
  {
    if s == [] then 0 else 10 * Value(s[..|s| - 1]) + DigitValue(s[|s| - 1])
  }

  lemma {:induction false} PrintThenRead(n: nat)
    ensures Value(Print(n)) == n
  {
    if n < 10 {
      assert Print(n)[..0] == [];
    } else {
      PrintThenRead(n / 10);
      assert Print(n)[..|Print(n)| - 1] == Print(n / 10);
    }
  }
}
