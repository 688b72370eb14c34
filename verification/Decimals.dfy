/** Decimal digits of a natural number, as `%d` and `%lu` print them. */
module Decimals {

  function Digit(d: nat): char
    requires d < 10
  {
    '0' + d as char
  }

  function Decimal(n: nat): (s: string)
    ensures s != ""
    ensures forall k :: 0 <= k < |s| ==> '0' <= s[k] <= '9'
    ensures n > 0 ==> s[0] != '0'
    ensures |s| == 1 <==> n < 10
  {
    if n < 10 then [Digit(n)] else Decimal(n / 10) + [Digit(n % 10)]
  }

  /** The number that a run of digits denotes after the digits read so far. */
  function Value(acc: nat, s: string): nat
    requires forall k :: 0 <= k < |s| ==> '0' <= s[k] <= '9'
    decreases |s|
  {
    if s == "" then acc else Value(acc * 10 + (s[0] as int - '0' as int), s[1..])
  }

  lemma {:induction false} ValueAppends(acc: nat, s: string, c: char)
    requires forall k :: 0 <= k < |s| ==> '0' <= s[k] <= '9'
    requires '0' <= c <= '9'
    ensures Value(acc, s + [c]) == Value(acc, s) * 10 + (c as int - '0' as int)
    decreases |s|
  {
    if s == "" {
      assert s + [c] == [c];
    } else {
      ValueAppends(acc * 10 + (s[0] as int - '0' as int), s[1..], c);
      assert (s + [c])[1..] == s[1..] + [c];
    }
  }

  /** Reading the digits of a number gives the number back. */
  lemma {:induction false} ValueOfDecimal(n: nat)
    ensures Value(0, Decimal(n)) == n
  {
    if n >= 10 {
      ValueOfDecimal(n / 10);
      ValueAppends(0, Decimal(n / 10), Digit(n % 10));
    }
  }
}
