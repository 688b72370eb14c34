/** The arithmetic of the operators, over exact reals. Source: inc/expr.h. */
module ExprArithmetic {
  import opened ExprTree
  import opened ExprEval

  /** `to_int`: towards zero. */
  function ToInt(x: real): int {
    if x >= 0.0 then x.Floor else -((-x).Floor)
  }

  function Truth(b: bool): real {
    if b then 1.0 else 0.0
  }

  function UnaryValue(op: Op, a: real): real {
    if op == Neg then -a
    else if op == Not then Truth(a == 0.0)
    else (-1 - ToInt(a)) as real
  }

  function PowerOf(a: real, n: nat): real {
    if n == 0 then 1.0 else a * PowerOf(a, n - 1)
  }

  function TwoTo(n: nat): (p: nat)
    ensures p > 0
  {
    if n == 0 then 1 else 2 * TwoTo(n - 1)
  }

  predicate Both(x: bool, y: bool) {
    x && y
  }

  predicate Either(x: bool, y: bool) {
    x || y
  }

  predicate OnlyOne(x: bool, y: bool) {
    x != y
  }

  /** The bitwise operators on natural numbers, bit by bit; `f` says what two bits give. */
  function Bitwise(f: (bool, bool) -> bool, a: nat, b: nat): nat
    decreases a + b
  {
    if a == 0 && b == 0 then 0
    else (if f(a % 2 == 1, b % 2 == 1) then 1 else 0) + 2 * Bitwise(f, a / 2, b / 2)
  }

  /** The binary operators where their value is a real number: a divisor is not zero, an exponent is a natural number,
      and shifts and bits are those of natural numbers. `rest` is what they give otherwise. */
  function BinaryValue(op: Op, a: real, b: real, rest: (Op, real, real) -> real): real {
    if op == Mul then a * b
    else if op == Plus then a + b
    else if op == Minus then a - b
    else if op == Lt then Truth(a < b)
    else if op == Le then Truth(a <= b)
    else if op == Gt then Truth(a > b)
    else if op == Ge then Truth(a >= b)
    else if op == Eq then Truth(a == b)
    else if op == Ne then Truth(a != b)
    else Partial(op, a, b, rest)
  }

  function Partial(op: Op, a: real, b: real, rest: (Op, real, real) -> real): real {
    var i, j := ToInt(a), ToInt(b);
    if op == Div && b != 0.0 then a / b
    else if op == Rem && b != 0.0 then a - b * (ToInt(a / b) as real)
    else if op == Pow && b >= 0.0 && b == b.Floor as real then PowerOf(a, b.Floor)
    else if i < 0 || j < 0 then rest(op, a, b)
    else if op == Shl then (i * TwoTo(j)) as real
    else if op == Shr then (i / TwoTo(j)) as real
    else if op == BitAnd then Bitwise(Both, i, j) as real
    else if op == BitOr then Bitwise(Either, i, j) as real
    else if op == BitXor then Bitwise(OnlyOne, i, j) as real
    else rest(op, a, b)
  }

  /** What the arithmetic above leaves open: the other values of the operators, and the user functions. */
  datatype Rest = Rest(binary: (Op, real, real) -> real, call: (string, seq<Expr>, Store) -> (real, Store))

  function Arithmetic(rest: Rest): Machine {
    Machine(UnaryValue, (op, a, b) => BinaryValue(op, a, b, rest.binary), rest.call)
  }

  // ----- remainders -----

  /** `r` is smaller than `b` in size, has the sign of `a`, and differs from it by a multiple of `b`. */
  predicate IsRemainder(r: real, a: real, b: real, times: int) {
    && a == times as real * b + r && (b > 0.0 ==> -b < r < b) && (b < 0.0 ==> b < r < -b)
    && (a >= 0.0 ==> r >= 0.0) && (a <= 0.0 ==> r <= 0.0)
  }

  lemma FractionOf(t: real)
    ensures var f := t - ToInt(t) as real; -1.0 < f < 1.0 && (t >= 0.0 ==> f >= 0.0) && (t <= 0.0 ==> f <= 0.0)
  {
  }

  lemma Product(f: real, b: real)
    requires -1.0 < f < 1.0
    ensures b > 0.0 ==> -b < b * f < b
    ensures b < 0.0 ==> b < b * f < -b
    ensures (f >= 0.0 && b > 0.0) || (f <= 0.0 && b < 0.0) ==> b * f >= 0.0
    ensures (f >= 0.0 && b < 0.0) || (f <= 0.0 && b > 0.0) ==> b * f <= 0.0
  {
  }

  lemma QuotientSign(a: real, b: real)
    requires b != 0.0
    ensures a / b * b == a
    ensures (a >= 0.0 && b > 0.0) || (a <= 0.0 && b < 0.0) ==> a / b >= 0.0
    ensures (a >= 0.0 && b < 0.0) || (a <= 0.0 && b > 0.0) ==> a / b <= 0.0
  {
  }

  lemma RemainderParts(a: real, b: real, t: real, k: real)
    requires t * b == a
    ensures a - b * k == b * (t - k) && a == k * b + (a - b * k)
  {
  }

  lemma RemainderIs(a: real, b: real)
    requires b != 0.0
    ensures IsRemainder(a - b * (ToInt(a / b) as real), a, b, ToInt(a / b))
  {
    var t, k := a / b, ToInt(a / b) as real;
    FractionOf(t);
    QuotientSign(a, b);
    RemainderParts(a, b, t, k);
    hide ToInt;
    RemainderFrom(a, b, t, t - k, a - b * k);
  }

  lemma RemainderFrom(a: real, b: real, t: real, f: real, r: real)
    requires b != 0.0 && r == b * f
    requires -1.0 < f < 1.0 && (t >= 0.0 ==> f >= 0.0) && (t <= 0.0 ==> f <= 0.0)
    requires (a >= 0.0 && b > 0.0) || (a <= 0.0 && b < 0.0) ==> t >= 0.0
    requires (a >= 0.0 && b < 0.0) || (a <= 0.0 && b > 0.0) ==> t <= 0.0
    ensures (b > 0.0 ==> -b < r < b) && (b < 0.0 ==> b < r < -b)
    ensures (a >= 0.0 ==> r >= 0.0) && (a <= 0.0 ==> r <= 0.0)
  {
    Product(f, b);
    assert b < 0.0 ==> b < b * f < -b;
  }

  // ----- bits -----

  /** Bit `k` of a natural number. */
  predicate Bit(n: nat, k: nat) {
    n / TwoTo(k) % 2 == 1
  }

  lemma BitBelow(n: nat, k: nat)
    requires k > 0
    ensures Bit(n, k) <==> Bit(n / 2, k - 1)
  {
    DivideByProduct(n, TwoTo(k - 1));
  }

  lemma DivideByProduct(n: nat, p: nat)
    requires p > 0
    ensures n / (2 * p) == n / 2 / p
  {
    var q := n / 2 / p;
    var r := n / 2 % p;
    assert n / 2 == q * p + r;
    assert n == q * (2 * p) + (2 * r + n % 2);
    QuotientIs(n, 2 * p, q, 2 * r + n % 2);
  }

  lemma {:induction false} MultipleAbove(a: nat, b: nat, d: nat)
    ensures a > b ==> a * d >= b * d + d
    decreases a
  {
    if a > b {
      assert a * d == (a - 1) * d + d;
      MultipleAbove(a - 1, b, d);
    }
  }

  lemma QuotientIs(n: nat, d: nat, q: nat, r: nat)
    requires r < d && n == q * d + r
    ensures n / d == q
  {
    assert n == n / d * d + n % d;
    MultipleAbove(q, n / d, d);
    MultipleAbove(n / d, q, d);
  }

  lemma BitwiseHalves(f: (bool, bool) -> bool, a: nat, b: nat)
    requires !f(false, false)
    ensures Bitwise(f, a, b) / 2 == Bitwise(f, a / 2, b / 2)
    ensures Bitwise(f, a, b) % 2 == 1 <==> f(a % 2 == 1, b % 2 == 1)
  {
  }

  /** Each bit of the result is what the two bits in its place give. */
  lemma {:induction false} BitwiseBits(f: (bool, bool) -> bool, a: nat, b: nat, k: nat)
    requires !f(false, false)
    ensures Bit(Bitwise(f, a, b), k) <==> f(Bit(a, k), Bit(b, k))
    decreases k
  {
    BitwiseHalves(f, a, b);
    hide Bitwise;
    if k > 0 {
      BitBelow(Bitwise(f, a, b), k);
      BitBelow(a, k);
      BitBelow(b, k);
      hide Bit;
      BitwiseBits(f, a / 2, b / 2, k - 1);
    }
  }

  /** The bits of `n` are those set in both of `i` and `j`, in one of them, in only one of them. */
  ghost predicate CommonBits(n: nat, i: nat, j: nat) {
    forall k: nat :: Bit(n, k) <==> Bit(i, k) && Bit(j, k)
  }

  ghost predicate AllBits(n: nat, i: nat, j: nat) {
    forall k: nat :: Bit(n, k) <==> Bit(i, k) || Bit(j, k)
  }

  ghost predicate DifferentBits(n: nat, i: nat, j: nat) {
    forall k: nat :: Bit(n, k) <==> (Bit(i, k) <==> !Bit(j, k))
  }

  lemma BitwiseIs(i: nat, j: nat)
    ensures CommonBits(Bitwise(Both, i, j), i, j)
    ensures AllBits(Bitwise(Either, i, j), i, j)
    ensures DifferentBits(Bitwise(OnlyOne, i, j), i, j)
  {
    hide Bit, Bitwise;
    forall k: nat
      ensures Bit(Bitwise(Both, i, j), k) <==> Bit(i, k) && Bit(j, k)
      ensures Bit(Bitwise(Either, i, j), k) <==> Bit(i, k) || Bit(j, k)
      ensures Bit(Bitwise(OnlyOne, i, j), k) <==> (Bit(i, k) <==> !Bit(j, k))
    {
      BitwiseBits(Both, i, j, k);
      BitwiseBits(Either, i, j, k);
      BitwiseBits(OnlyOne, i, j, k);
    }
  }
}
