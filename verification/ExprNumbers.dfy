/** What number literals denote, over exact reals. Source: inc/expr.h. */
module ExprNumbers {
  import opened Options
  import opened Decimals
  import opened ExprLexer
  import ExprRoundTrip

  predicate AllDigits(s: string) {
    forall k :: 0 <= k < |s| ==> '0' <= s[k] <= '9'
  }

  function Pow10(k: nat): (p: real)
    ensures p >= 1.0
  {
    if k == 0 then 1.0 else 10.0 * Pow10(k - 1)
  }

  // ----- dividing by ten for each place -----

  lemma DivideTwice(v: real, p: real)
    requires p >= 1.0
    ensures v / 10.0 / p == v / (10.0 * p)
  {
    var q := v / 10.0 / p;
    assert q * p == v / 10.0;
    assert q * (10.0 * p) == 10.0 * (q * p);
  }

  lemma {:induction false} ScaleDivides(v: real, k: nat)
    ensures Scale(v, k + 1) == v / Pow10(k)
    decreases k
  {
    if k > 0 {
      ScaleDivides(v / 10.0, k - 1);
      DivideTwice(v, Pow10(k - 1));
    }
  }

  // ----- reading the digits -----

  lemma {:induction false} FractionRead(s: string, num: nat, frac: nat, digits: nat)
    requires frac > 0 && AllDigits(s)
    ensures Digits(s, num, frac, digits) ==
      Option<(nat, nat, nat)>.Some((Value(num, s), frac + |s|, digits + |s|))
    decreases |s|
  {
    if s != "" {
      FractionRead(s[1..], num * 10 + (s[0] as int - '0' as int), frac + 1, digits + 1);
    }
  }

  lemma {:induction false} DotRead(a: string, b: string, num: nat, digits: nat)
    requires AllDigits(a) && AllDigits(b)
    ensures Digits(a + ("." + b), num, 0, digits) ==
      Option<(nat, nat, nat)>.Some((Value(num, a + b), 1 + |b|, digits + |a| + |b|))
    decreases |a|
  {
    var s := a + ("." + b);
    if a == "" {
      assert s[1..] == b && a + b == b;
      FractionRead(b, num, 1, digits);
    } else {
      var num' := num * 10 + (a[0] as int - '0' as int);
      assert s[1..] == a[1..] + ("." + b) && s[0] == a[0];
      assert (a + b)[1..] == a[1..] + b;
      assert Digits(s, num, 0, digits) == Digits(s[1..], num', 0, digits + 1);
      assert Value(num, a + b) == Value(num', a[1..] + b);
      hide Digits, Value;
      DotRead(a[1..], b, num', digits + 1);
    }
  }

  /** A decimal fraction denotes its digits over the power of ten that its places ask for. No digit at all is no
      number. */
  lemma FractionLiteral(a: string, b: string)
    requires AllDigits(a) && AllDigits(b)
    ensures ParseNumber(a + ("." + b)) ==
      if a + b == "" then None else Some(Value(0, a + b) as real / Pow10(|b|))
  {
    hide Digits, Value, Scale;
    DotRead(a, b, 0, 0);
    ScaleDivides(Value(0, a + b) as real, |b|);
  }

  /** A run of digits denotes the number they write. */
  lemma WholeLiteral(a: string)
    requires AllDigits(a)
    ensures ParseNumber(a) == if a == "" then None else Some(Value(0, a) as real)
  {
    hide Digits, Value;
    ExprRoundTrip.DigitsRead(a, 0, 0);
  }
}
