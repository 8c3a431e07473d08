/** Numbers in decimal notation. */
module Decimals {

  predicate IsDigit(c: char) {
    '0' <= c <= '9'
  }

  predicate AllDigits(s: string) {
    s != "" && forall i :: 0 <= i < |s| ==> IsDigit(s[i])
  }

  function DigitValue(c: char): nat
    requires IsDigit(c)
  {
    c as int - '0' as int
  }

  function DecimalValue(s: string): nat
    requires forall i :: 0 <= i < |s| ==> IsDigit(s[i])
  {
    if s == "" then 0 else DecimalValue(s[..|s| - 1]) * 10 + DigitValue(s[|s| - 1])
  }

  function Decimal(n: nat): (s: string)
    ensures AllDigits(s) && DecimalValue(s) == n
  {
    var last := [(n % 10 + '0' as int) as char];
    if n < 10 then
      OneDigit(n, last);
      last
    else
      var front := Decimal(n / 10);
      DigitAppended(front, last[0]);
      front + last
  }

  lemma {:induction false} OneDigit(n: nat, s: string)
    requires n < 10 && s == [(n + '0' as int) as char]
    ensures AllDigits(s) && DecimalValue(s) == n
  {
    assert s[..|s| - 1] == "";
  }

  lemma {:induction false} DigitAppended(front: string, c: char)
    requires AllDigits(front) && IsDigit(c)
    ensures AllDigits(front + [c]) && DecimalValue(front + [c]) == DecimalValue(front) * 10 + DigitValue(c)
  {
    var s := front + [c];
    assert s[..|s| - 1] == front;
  }

  lemma {:induction false} DigitsHold(s: string, c: char)
    requires AllDigits(s) && !IsDigit(c)
    ensures c !in s
  {
  }
}
