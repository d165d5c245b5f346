/** Decimal numbers as text: `to_string` on an unsigned integer and `parse` back. */
module Decimal {

  predicate IsDigit(c: char) {
    '0' <= c <= '9'
  }

  predicate StartsWithDigit(s: string) {
    s != "" && IsDigit(s[0])
  }

  ghost predicate AllDigits(s: string) {
    forall i :: 0 <= i < |s| ==> IsDigit(s[i])
  }

  function DigitValue(c: char): (n: nat)
    requires IsDigit(c)
    ensures n <= 9
  {
    c as int - '0' as int
  }

  function DigitChar(n: nat): (c: char)
    requires n <= 9
    ensures IsDigit(c) && DigitValue(c) == n
  {
    ('0' as int + n) as char
  }

  /** `n.to_string()` */
  function ToText(n: nat): (s: string)
    ensures s != [] && AllDigits(s)
    ensures n > 0 ==> s[0] != '0'
  {
    if n < 10 then [DigitChar(n)] else ToText(n / 10) + [DigitChar(n % 10)]
  }

  /** The number that a run of digits denotes, before any check of its width. */
  function Value(s: string): nat
    requires AllDigits(s)
  {
    if s == [] then 0 else 10 * Value(s[..|s| - 1]) + DigitValue(s[|s| - 1])
  }

  lemma {:induction false} ValueOfToText(n: nat)
    ensures Value(ToText(n)) == n
  {
    if n >= 10 {
      ValueOfToText(n / 10);
      assert ToText(n)[..|ToText(n)| - 1] == ToText(n / 10);
    } else {
      assert ToText(n)[..0] == [];
    }
  }

  /** A digit other than 0 anywhere makes the number positive, and a leading one makes a
      number of two or more digits at least 10. */
  lemma {:induction false} ValuePositive(s: string, i: nat)
    requires AllDigits(s) && i < |s| && s[i] != '0'
    ensures Value(s) >= 1
    ensures i == 0 && |s| >= 2 ==> Value(s) >= 10
  {
    if i < |s| - 1 {
      ValuePositive(s[..|s| - 1], i);
    }
  }
}
