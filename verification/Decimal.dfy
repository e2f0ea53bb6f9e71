// Decimal numbers as text: QString::number, and the `<<` of a stream.
module Decimal {

  const DIGITS := "0123456789"

  predicate IsDigit(c: char) { '0' <= c <= '9' }

  function NatText(n: nat): (s: string)
    ensures s != "" && forall i :: 0 <= i < |s| ==> IsDigit(s[i])
  {
    (if n < 10 then "" else NatText(n / 10)) + [DIGITS[n % 10]]
  }

  function IntText(n: int): (s: string)
    ensures s != "" && forall i :: 0 <= i < |s| ==> s[i] == '-' || IsDigit(s[i])
  {
    if n < 0 then "-" + NatText(-n) else NatText(n)
  }

  function DigitValue(c: char): nat
    requires IsDigit(c)
  {
    c as nat - '0' as nat
  }

  function NatValue(s: string): nat
    requires forall i :: 0 <= i < |s| ==> IsDigit(s[i])
  {
    if s == "" then 0 else 10 * NatValue(s[..|s| - 1]) + DigitValue(s[|s| - 1])
  }

  lemma {:induction false} NatRoundTrip(n: nat)
    ensures NatValue(NatText(n)) == n
  {
    var head := if n < 10 then "" else NatText(n / 10);
    assert NatText(n) == head + [DIGITS[n % 10]];
    assert NatText(n)[..|NatText(n)| - 1] == head;
    assert DigitValue(DIGITS[n % 10]) == n % 10 by { DigitRoundTrip(n % 10); }
    if n >= 10 {
      NatRoundTrip(n / 10);
    }
  }

  lemma DigitRoundTrip(d: nat)
    requires d < 10
    ensures DigitValue(DIGITS[d]) == d
  {
  }

  lemma IntTextInjective(m: int, n: int)
    requires IntText(m) == IntText(n)
    ensures m == n
  {
    NatRoundTrip(if m < 0 then -m else m);
    NatRoundTrip(if n < 0 then -n else n);
    if m < 0 && n < 0 {
      assert IntText(m)[1..] == NatText(-m) && IntText(n)[1..] == NatText(-n);
    }
    assert IntText(m)[0] == '-' <==> m < 0;
    assert IntText(n)[0] == '-' <==> n < 0;
  }
}
