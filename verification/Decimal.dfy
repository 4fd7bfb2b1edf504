/** Decimal digits and the text of integers. */
module Decimal {

  predicate IsDigit(c: char) {
    '0' <= c <= '9'
  }

  predicate AllDigits(s: string) {
    forall k :: 0 <= k < |s| ==> IsDigit(s[k])
  }

  function DigitsValue(s: string): nat
    requires AllDigits(s)
  {
    if s == "" then 0
    else DigitsValue(s[..|s| - 1]) * 10 + (s[|s| - 1] - '0') as nat
  }

  function TenTo(n: nat): (p: nat)
    ensures p > 0
  {
    if n == 0 then 1 else 10 * TenTo(n - 1)
  }

  function DigitOf(d: nat): (c: char)
    requires d < 10
    ensures IsDigit(c) && (c - '0') as nat == d
  {
    ('0' as int + d) as char
  }

  function NatText(n: nat): (s: string)
    ensures s != "" && AllDigits(s)
    ensures s[0] == '0' ==> n == 0 && s == "0"
    ensures DigitsValue(s) == n
  {
    if n < 10 then
      assert [DigitOf(n)][..0] == "";
      [DigitOf(n)]
    else
      var head := NatText(n / 10);
      var s := head + [DigitOf(n % 10)];
      assert s[..|s| - 1] == head;
      s
  }

  function IntText(n: int): (s: string)
    ensures s != ""
    ensures s[0] == '-' || IsDigit(s[0])
  {
    if n < 0 then "-" + NatText(-n) else NatText(n)
  }

  lemma IntTextChars(n: int)
    ensures forall c :: c in IntText(n) ==> c == '-' || IsDigit(c)
    ensures IsDigit(IntText(n)[|IntText(n)| - 1])
  {
    var digits := if n < 0 then NatText(-n) else NatText(n);
    assert IntText(n)[|IntText(n)| - 1] == digits[|digits| - 1];
  }
}
