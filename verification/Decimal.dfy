/** Decimal text of integers, and reading it back. */
module Decimal {
  import opened Common

  predicate IsDigit(c: char) { '0' <= c <= '9' }

  function DigitChar(d: nat): (c: char)
    requires d < 10
    ensures IsDigit(c) && DigitValue(c) == d
  {
    ('0' as int + d) as char
  }

  function DigitValue(c: char): (d: nat)
    requires IsDigit(c)
    ensures d < 10
  {
    c as int - '0' as int
  }

  function NatText(n: nat): (s: string)
    ensures |s| > 0 && forall i :: 0 <= i < |s| ==> IsDigit(s[i])
  {
    if n < 10 then [DigitChar(n)] else NatText(n / 10) + [DigitChar(n % 10)]
  }

  function IntText(i: int): string {
    if i < 0 then "-" + NatText(-i) else NatText(i)
  }

  predicate AllDigits(s: string) {
    forall i :: 0 <= i < |s| ==> IsDigit(s[i])
  }

  function NatValue(s: string): nat
    requires AllDigits(s)
  {
    if |s| == 0 then 0 else 10 * NatValue(s[..|s| - 1]) + DigitValue(s[|s| - 1])
  }

  /** `parse::<i64>()`: an optional sign, then at least one digit, within range. */
  function ParseI64(s: string): Option<i64> {
    var digits := if |s| > 0 && (s[0] == '-' || s[0] == '+') then s[1..] else s;
    if |digits| == 0 || !AllDigits(digits) then None
    else
      var magnitude: int := NatValue(digits);
      var value := if s[0] == '-' then -magnitude else magnitude;
      if I64_MIN <= value <= I64_MAX then Some(value) else None
  }

  lemma {:induction false} NatTextReadsBack(n: nat)
    ensures NatValue(NatText(n)) == n
  {
    if n >= 10 {
      NatTextReadsBack(n / 10);
      assert NatText(n)[..|NatText(n)| - 1] == NatText(n / 10);
    }
  }

  lemma {:induction false} NegativeReadsBack(n: nat)
    requires 0 < n <= -I64_MIN
    ensures ParseI64("-" + NatText(n)).Some? && ParseI64("-" + NatText(n)).value + n == 0
  {
    NatTextReadsBack(n);
    var text := "-" + NatText(n);
    assert text[1..] == NatText(n) && text[0] == '-';
  }

  lemma {:induction false} NonNegativeReadsBack(n: nat)
    requires n <= I64_MAX
    ensures ParseI64(NatText(n)) == Some(n)
  {
    NatTextReadsBack(n);
    var text := NatText(n);
    assert IsDigit(text[0]);
  }

  /** Writing a 64-bit integer and reading it gives it back. */
  lemma {:induction false} I64TextReadsBack(i: i64)
    ensures ParseI64(IntText(i)) == Some(i)
  {
    var n: int := i;
    if n < 0 { NegativeReadsBack(-n); } else { NonNegativeReadsBack(n); }
  }
}
