/** What the text of an expression computes: the values and the stores that texts lead to, said in terms of numbers
    alone. Source: inc/expr.h. */
module ExprMeaning {
  import opened Options
  import opened Decimals
  import opened ExprTree
  import opened ExprParser
  import opened ExprRoundTrip
  import opened ExprTexts
  import opened ExprEval
  import opened ExprArithmetic
  import ExprMacros

  // ----- from a text to a value -----

  /** The value of a text and the store it leaves, if it compiles to one tree. */
  function Outcome(text: string, store: Store, rest: Rest): Option<(real, Store)> {
    match Compile(text, [], {})
    case Ok((es, _)) => if |es| == 1 then Some(Eval(es[0], Arithmetic(rest), store)) else None
    case _ => None
  }

  function Read(store: Store, x: string): real {
    if x in store then store[x] else 0.0
  }

  lemma TextOutcome(e: Expr, text: string, store: Store, rest: Rest)
    requires IsText(e, text, {})
    ensures Outcome(text, store, rest) == Some(Eval(e, Arithmetic(rest), store))
  {
    hide IsText, Compile, Eval;
    TextCompiles(e, text, [], {});
  }

  lemma InfixEvaluates(op: Op, l: Expr, r: Expr, store: Store, rest: Rest)
    requires op !in {And, Or, Assign, Comma}
    ensures
      var (a, store1) := Eval(l, Arithmetic(rest), store);
      var (b, store2) := Eval(r, Arithmetic(rest), store1);
      Eval(Binary(op, l, r), Arithmetic(rest), store) == (BinaryValue(op, a, b, rest.binary), store2)
  {
    hide Eval, BinaryValue;
    BinaryEvaluates(op, l, r, Arithmetic(rest), store);
  }

  lemma AssignEvaluates(x: string, r: Expr, store: Store, rest: Rest)
    ensures
      var (v, after) := Eval(r, Arithmetic(rest), store);
      Eval(Binary(Assign, Var(x), r), Arithmetic(rest), store) == (v, after[x := v])
  {
    hide Eval;
    BinaryEvaluates(Assign, Var(x), r, Arithmetic(rest), store);
  }

  lemma LogicEvaluates(l: Expr, r: Expr, store: Store, rest: Rest)
    ensures
      var (a, store1) := Eval(l, Arithmetic(rest), store);
      && Eval(Binary(And, l, r), Arithmetic(rest), store) ==
         (if a == 0.0 then (0.0, store1) else Eval(r, Arithmetic(rest), store1))
      && Eval(Binary(Or, l, r), Arithmetic(rest), store) ==
         (if a == 0.0 then Eval(r, Arithmetic(rest), store1) else (a, store1))
  {
    hide Eval;
    BinaryEvaluates(And, l, r, Arithmetic(rest), store);
    BinaryEvaluates(Or, l, r, Arithmetic(rest), store);
  }

  lemma VarEvaluates(x: string, store: Store, rest: Rest)
    ensures Eval(Var(x), Arithmetic(rest), store) == (Read(store, x), store)
  {
  }

  lemma EvalWords(op: Op, x: string, y: string, store: Store, rest: Rest)
    requires IsBinary(op) && op !in {And, Or, Assign, Comma} && IsWord(x) && IsWord(y)
    ensures Outcome(x + OpText(op) + y, store, rest) ==
      Some((BinaryValue(op, Read(store, x), Read(store, y), rest.binary), store))
  {
    hide Outcome, OpText, IsText, IsWord, BinaryValue, Eval, Read;
    WordsText(op, x, y);
    TextOutcome(Binary(op, Var(x), Var(y)), x + OpText(op) + y, store, rest);
    VarEvaluates(x, store, rest);
    VarEvaluates(y, store, rest);
    InfixEvaluates(op, Var(x), Var(y), store, rest);
  }

  lemma WordsText(op: Op, x: string, y: string)
    requires IsBinary(op) && IsWord(x) && IsWord(y)
    ensures IsText(Binary(op, Var(x), Var(y)), x + OpText(op) + y, {})
  {
    hide IsText, IsWord, OpText;
    VarText(x, {});
    VarText(y, {});
    InfixText(op, Var(x), x, Var(y), y, {});
  }

  // ----- the binary operators -----

  /** The value of two variables with an operator between them. */
  lemma ArithmeticOutcome(x: string, y: string, store: Store, rest: Rest)
    requires IsWord(x) && IsWord(y)
    ensures
      var a, b := Read(store, x), Read(store, y);
      && Outcome(x + "+" + y, store, rest) == Some((a + b, store))
      && Outcome(x + "-" + y, store, rest) == Some((a - b, store))
      && Outcome(x + "*" + y, store, rest) == Some((a * b, store))
      && (b != 0.0 ==> Outcome(x + "/" + y, store, rest) == Some((a / b, store)))
  {
    hide Outcome, IsWord, Read;
    EvalWords(Plus, x, y, store, rest);
    EvalWords(Minus, x, y, store, rest);
    EvalWords(Mul, x, y, store, rest);
    EvalWords(Div, x, y, store, rest);
  }

  /** Comparisons yield 1 when they hold and 0 otherwise. */
  lemma OrderOutcome(x: string, y: string, store: Store, rest: Rest)
    requires IsWord(x) && IsWord(y)
    ensures
      var a, b := Read(store, x), Read(store, y);
      && Outcome(x + "<" + y, store, rest) == Some((if a < b then 1.0 else 0.0, store))
      && Outcome(x + "<=" + y, store, rest) == Some((if a <= b then 1.0 else 0.0, store))
      && Outcome(x + ">" + y, store, rest) == Some((if a > b then 1.0 else 0.0, store))
      && Outcome(x + ">=" + y, store, rest) == Some((if a >= b then 1.0 else 0.0, store))
  {
    hide Outcome, IsWord, Read;
    EvalWords(Lt, x, y, store, rest);
    EvalWords(Le, x, y, store, rest);
    EvalWords(Gt, x, y, store, rest);
    EvalWords(Ge, x, y, store, rest);
  }

  /** So do the tests for equality. */
  lemma EqualityOutcome(x: string, y: string, store: Store, rest: Rest)
    requires IsWord(x) && IsWord(y)
    ensures
      var a, b := Read(store, x), Read(store, y);
      && Outcome(x + "==" + y, store, rest) == Some((if a == b then 1.0 else 0.0, store))
      && Outcome(x + "!=" + y, store, rest) == Some((if a == b then 0.0 else 1.0, store))
  {
    hide Outcome, IsWord, Read;
    EvalWords(Eq, x, y, store, rest);
    EvalWords(Ne, x, y, store, rest);
  }

  /** The remainder of two variables */
  lemma RemainderOutcome(x: string, y: string, store: Store, rest: Rest)
    requires IsWord(x) && IsWord(y) && Read(store, y) != 0.0
    ensures exists r, times ::
      && IsRemainder(r, Read(store, x), Read(store, y), times)
      && Outcome(x + "%" + y, store, rest) == Some((r, store))
  {
    hide Outcome, IsWord, IsRemainder, Read, ToInt;
    var a, b := Read(store, x), Read(store, y);
    EvalWords(Rem, x, y, store, rest);
    RemainderIs(a, b);
    assert OpText(Rem) == "%";
    var r := a - b * (ToInt(a / b) as real);
    assert BinaryValue(Rem, a, b, rest.binary) == r;
    assert IsRemainder(r, a, b, ToInt(a / b));
  }

  /** A natural exponent multiplies that many times. */
  lemma PowerOutcome(x: string, y: string, n: nat, store: Store, rest: Rest)
    requires IsWord(x) && IsWord(y) && Read(store, y) == n as real
    ensures Outcome(x + "**" + y, store, rest) == Some((PowerOf(Read(store, x), n), store))
  {
    hide Outcome, IsWord;
    EvalWords(Pow, x, y, store, rest);
  }

  /** Shifting a natural number multiplies it by a power of two, or divides it and drops the rest. */
  lemma ShiftOutcome(x: string, y: string, i: nat, j: nat, store: Store, rest: Rest)
    requires IsWord(x) && IsWord(y) && Read(store, x) == i as real && Read(store, y) == j as real
    ensures Outcome(x + "<<" + y, store, rest) == Some(((i * TwoTo(j)) as real, store))
    ensures Outcome(x + ">>" + y, store, rest) == Some(((i / TwoTo(j)) as real, store))
  {
    hide Outcome, IsWord;
    EvalWords(Shl, x, y, store, rest);
    EvalWords(Shr, x, y, store, rest);
  }

  /** The bitwise operators on natural numbers work bit by bit. */
  lemma BitsOutcome(x: string, y: string, i: nat, j: nat, store: Store, rest: Rest)
    requires IsWord(x) && IsWord(y) && Read(store, x) == i as real && Read(store, y) == j as real
    ensures exists n :: CommonBits(n, i, j) && Outcome(x + "&" + y, store, rest) == Some((n as real, store))
    ensures exists n :: AllBits(n, i, j) && Outcome(x + "|" + y, store, rest) == Some((n as real, store))
    ensures exists n :: DifferentBits(n, i, j) && Outcome(x + "^" + y, store, rest) == Some((n as real, store))
  {
    hide Outcome, IsWord, Bitwise, CommonBits, AllBits, DifferentBits, Read;
    EvalWords(BitAnd, x, y, store, rest);
    EvalWords(BitOr, x, y, store, rest);
    EvalWords(BitXor, x, y, store, rest);
    BitwiseIs(i, j);
  }

  // ----- the unary operators -----

  lemma EvalSigned(u: Prefix, x: string, store: Store, rest: Rest)
    requires u in UNARY && IsWord(x)
    ensures Outcome(u.text + x, store, rest) == Some((UnaryValue(u.op, Read(store, x)), store))
  {
    hide Outcome, IsText, IsWord;
    SignText(u, x, {});
    TextOutcome(Unary(u.op, Var(x)), u.text + x, store, rest);
  }

  /** Unary operators change the sign, tell zero from other values, and complement the integer part. */
  lemma UnaryOutcome(x: string, store: Store, rest: Rest)
    requires IsWord(x)
    ensures
      var a := Read(store, x);
      && Outcome("-" + x, store, rest) == Some((-a, store))
      && Outcome("!" + x, store, rest) == Some((if a == 0.0 then 1.0 else 0.0, store))
      && (a >= 0.0 ==> Outcome("^" + x, store, rest) == Some(((-1 - a.Floor) as real, store)))
      && (a < 0.0 ==> Outcome("^" + x, store, rest) == Some(((-1 + (-a).Floor) as real, store)))
  {
    hide Outcome, IsWord;
    EvalSigned(UNARY[0], x, store, rest);
    EvalSigned(UNARY[1], x, store, rest);
    EvalSigned(UNARY[2], x, store, rest);
  }

  // ----- assignment, sequence and logic -----

  /** An assignment stores the value of its right side and yields it; assignments group to the right. */
  lemma AssignmentOutcome(x: string, y: string, z: string, store: Store, rest: Rest)
    requires IsWord(x) && IsWord(y) && IsWord(z)
    ensures
      var a := Read(store, z);
      && Outcome(x + "=" + z, store, rest) == Some((a, store[x := a]))
      && Outcome(x + "=" + (y + "=" + z), store, rest) == Some((a, store[y := a][x := a]))
  {
    assert OpText(Assign) == "=";
    hide Outcome, IsText, IsWord, Eval, Read, OpText;
    WordsText(Assign, x, z);
    WordsText(Assign, y, z);
    var e := Binary(Assign, Var(y), Var(z));
    VarText(x, {});
    InfixText(Assign, Var(x), x, e, y + "=" + z, {});
    TextOutcome(Binary(Assign, Var(x), Var(z)), x + "=" + z, store, rest);
    TextOutcome(Binary(Assign, Var(x), e), x + "=" + (y + "=" + z), store, rest);
    VarEvaluates(z, store, rest);
    AssignEvaluates(x, Var(z), store, rest);
    AssignEvaluates(y, Var(z), store, rest);
    AssignEvaluates(x, e, store, rest);
  }

  /** A comma evaluates both sides in order and yields the second. */
  lemma CommaOutcome(x: string, y: string, z: string, store: Store, rest: Rest)
    requires IsWord(x) && IsWord(y) && IsWord(z)
    ensures
      var store' := store[x := Read(store, y)];
      Outcome(x + "=" + y + "," + z, store, rest) == Some((Read(store', z), store'))
  {
    assert OpText(Assign) == "=";
    hide Outcome, IsText, IsWord, Eval, Read, OpText;
    var e := Binary(Assign, Var(x), Var(y));
    WordsText(Assign, x, y);
    VarText(z, {});
    SequenceText(e, x + "=" + y, Var(z), z);
    TextOutcome(Binary(Comma, e, Var(z)), x + "=" + y + "," + z, store, rest);
    VarEvaluates(y, store, rest);
    AssignEvaluates(x, Var(y), store, rest);
    CommaEvaluates(e, Var(z), Arithmetic(rest), store);
    VarEvaluates(z, store[x := Read(store, y)], rest);
  }

  /** `&&` yields 0 or its right operand, `||` its left operand unless that is 0. */
  lemma LogicOutcome(x: string, y: string, store: Store, rest: Rest)
    requires IsWord(x) && IsWord(y)
    ensures
      var a, b := Read(store, x), Read(store, y);
      && Outcome(x + "&&" + y, store, rest) == Some((if a == 0.0 then 0.0 else b, store))
      && Outcome(x + "||" + y, store, rest) == Some((if a == 0.0 then b else a, store))
  {
    assert OpText(And) == "&&" && OpText(Or) == "||";
    hide Outcome, IsText, IsWord, Eval, Read, OpText;
    WordsText(And, x, y);
    WordsText(Or, x, y);
    TextOutcome(Binary(And, Var(x), Var(y)), x + "&&" + y, store, rest);
    TextOutcome(Binary(Or, Var(x), Var(y)), x + "||" + y, store, rest);
    VarEvaluates(x, store, rest);
    VarEvaluates(y, store, rest);
    LogicEvaluates(Var(x), Var(y), store, rest);
  }

  lemma GuardedText(op: Op, x: string, y: string, z: string)
    requires (op == And || op == Or) && IsWord(x) && IsWord(y) && IsWord(z)
    ensures IsText(Binary(op, Var(x), Binary(Assign, Var(y), Var(z))), x + OpText(op) + ("(" + (y + "=" + z) + ")"), {})
  {
    assert OpText(Assign) == "=" && ParensRight(op, Binary(Assign, Var(y), Var(z)));
    hide IsText, IsWord, OpText, BindsFirst;
    VarText(x, {});
    WordsText(Assign, y, z);
    InfixParensText(op, Var(x), x, Binary(Assign, Var(y), Var(z)), y + "=" + z, {});
  }

  /** When the left operand decides, the right one is not evaluated: its assignment does not happen. */
  lemma GuardOutcome(x: string, y: string, z: string, store: Store, rest: Rest)
    requires IsWord(x) && IsWord(y) && IsWord(z)
    ensures
      var a, c := Read(store, x), Read(store, z);
      && Outcome(x + "&&" + ("(" + (y + "=" + z) + ")"), store, rest) ==
         Some(if a == 0.0 then (0.0, store) else (c, store[y := c]))
      && Outcome(x + "||" + ("(" + (y + "=" + z) + ")"), store, rest) ==
         Some(if a == 0.0 then (c, store[y := c]) else (a, store))
  {
    assert OpText(And) == "&&" && OpText(Or) == "||";
    hide Outcome, IsText, IsWord, Eval, Read, OpText;
    var e := Binary(Assign, Var(y), Var(z));
    GuardedText(And, x, y, z);
    GuardedText(Or, x, y, z);
    TextOutcome(Binary(And, Var(x), e), x + "&&" + ("(" + (y + "=" + z) + ")"), store, rest);
    TextOutcome(Binary(Or, Var(x), e), x + "||" + ("(" + (y + "=" + z) + ")"), store, rest);
    VarEvaluates(x, store, rest);
    VarEvaluates(z, store, rest);
    AssignEvaluates(y, Var(z), store, rest);
    LogicEvaluates(Var(x), e, store, rest);
  }

  // ----- longer texts -----

  /** A name yields what is stored under it, 0 when there is nothing, and digits the number they write. */
  lemma OperandOutcome(x: string, n: nat, store: Store, rest: Rest)
    requires IsWord(x)
    ensures Outcome(x, store, rest) == Some((if x in store then store[x] else 0.0, store))
    ensures Outcome(Decimal(n), store, rest) == Some((n as real, store))
  {
    VarText(x, {});
    NumberText(n, {});
    TextOutcome(Var(x), x, store, rest);
    TextOutcome(Const(n as real), Decimal(n), store, rest);
  }

  /** `x = <n>` */
  lemma SetText(x: string, n: nat)
    requires IsWord(x)
    ensures IsText(Binary(Assign, Var(x), Const(n as real)), x + "=" + Decimal(n), {})
  {
    assert OpText(Assign) == "=";
    hide IsText, IsWord, OpText;
    VarText(x, {});
    NumberText(n, {});
    InfixText(Assign, Var(x), x, Const(n as real), Decimal(n), {});
  }

  /** `x + y > <k>` */
  lemma TestText(x: string, y: string, k: nat)
    requires IsWord(x) && IsWord(y)
    ensures IsText(Binary(Gt, Binary(Plus, Var(x), Var(y)), Const(k as real)), x + "+" + y + ">" + Decimal(k), {})
  {
    assert OpText(Plus) == "+" && OpText(Gt) == ">";
    hide IsText, IsWord, OpText;
    WordsText(Plus, x, y);
    NumberText(k, {});
    InfixText(Gt, Binary(Plus, Var(x), Var(y)), x + "+" + y, Const(k as real), Decimal(k), {});
  }

  function RuleTree(x: string, y: string, n: nat, m: nat, k: nat): Expr {
    Binary(Comma, Binary(Assign, Var(x), Const(n as real)),
      Binary(Comma, Binary(Assign, Var(y), Const(m as real)),
        Binary(Gt, Binary(Plus, Var(x), Var(y)), Const(k as real))))
  }

  function RuleText(x: string, y: string, n: nat, m: nat, k: nat): string {
    (x + "=" + Decimal(n)) + "," + ((y + "=" + Decimal(m)) + "," + (x + "+" + y + ">" + Decimal(k)))
  }

  lemma SequenceText(l: Expr, left: string, r: Expr, right: string)
    requires IsText(l, left, {}) && IsText(r, right, {}) && Root(l) != Comma
    ensures IsText(Binary(Comma, l, r), left + "," + right, {})
  {
    assert OpText(Comma) == ",";
    hide IsText, OpText;
    InfixText(Comma, l, left, r, right, {});
  }

  lemma RuleIsText(x: string, y: string, n: nat, m: nat, k: nat)
    requires IsWord(x) && IsWord(y)
    ensures IsText(RuleTree(x, y, n, m, k), RuleText(x, y, n, m, k), {})
  {
    hide IsText, IsWord;
    SetText(x, n);
    SetText(y, m);
    TestText(x, y, k);
    var test := Binary(Gt, Binary(Plus, Var(x), Var(y)), Const(k as real));
    var sety := Binary(Assign, Var(y), Const(m as real));
    SequenceText(sety, y + "=" + Decimal(m), test, x + "+" + y + ">" + Decimal(k));
    SequenceText(Binary(Assign, Var(x), Const(n as real)), x + "=" + Decimal(n), Binary(Comma, sety, test),
                 (y + "=" + Decimal(m)) + "," + (x + "+" + y + ">" + Decimal(k)));
  }

  lemma TestEvaluates(x: string, y: string, k: nat, store: Store, rest: Rest)
    ensures Eval(Binary(Gt, Binary(Plus, Var(x), Var(y)), Const(k as real)), Arithmetic(rest), store) ==
      (if Read(store, x) + Read(store, y) > k as real then 1.0 else 0.0, store)
  {
    VarEvaluates(x, store, rest);
    VarEvaluates(y, store, rest);
    InfixEvaluates(Plus, Var(x), Var(y), store, rest);
    InfixEvaluates(Gt, Binary(Plus, Var(x), Var(y)), Const(k as real), store, rest);
    assert Eval(Const(k as real), Arithmetic(rest), store) == (k as real, store);
  }

  lemma SetEvaluates(x: string, n: nat, store: Store, rest: Rest)
    ensures Eval(Binary(Assign, Var(x), Const(n as real)), Arithmetic(rest), store) ==
      (n as real, store[x := n as real])
  {
    AssignEvaluates(x, Const(n as real), store, rest);
  }

  /** A rule over two counts: `x=<n>,y=<m>,x+y>k` is 1 when n + m > k and 0 otherwise, and stores the counts. */
  lemma RuleOutcome(x: string, y: string, n: nat, m: nat, k: nat, store: Store, rest: Rest)
    requires IsWord(x) && IsWord(y) && x != y
    ensures
      var text := x + "=" + Decimal(n) + "," + y + "=" + Decimal(m) + "," + x + "+" + y + ">" + Decimal(k);
      Outcome(text, store, rest) ==
        Some((if n + m > k then 1.0 else 0.0, store[x := n as real][y := m as real]))
  {
    RuleIsText(x, y, n, m, k);
    RuleTextIs(x, y, n, m, k);
    hide IsText, IsWord, Eval, Outcome, RuleText;
    TextOutcome(RuleTree(x, y, n, m, k), RuleText(x, y, n, m, k), store, rest);
    var store1 := store[x := n as real];
    var store2 := store1[y := m as real];
    var test := Binary(Gt, Binary(Plus, Var(x), Var(y)), Const(k as real));
    SetEvaluates(x, n, store, rest);
    SetEvaluates(y, m, store1, rest);
    TestEvaluates(x, y, k, store2, rest);
    var sety := Binary(Assign, Var(y), Const(m as real));
    CommaEvaluates(sety, test, Arithmetic(rest), store1);
    CommaEvaluates(Binary(Assign, Var(x), Const(n as real)), Binary(Comma, sety, test), Arithmetic(rest), store);
  }

  lemma RuleTextIs(x: string, y: string, n: nat, m: nat, k: nat)
    ensures RuleText(x, y, n, m, k) ==
      x + "=" + Decimal(n) + "," + y + "=" + Decimal(m) + "," + x + "+" + y + ">" + Decimal(k)
  {
    hide Decimal;
    var a := x + "=" + Decimal(n) + ",";
    var b := y + "=" + Decimal(m);
    var c := x + "+" + y + ">" + Decimal(k);
    assert a + (b + "," + c) == a + y + "=" + Decimal(m) + "," + x + "+" + y + ">" + Decimal(k);
  }

  /** Subtractions group to the left, and a product comes before a difference; parentheses change that. */
  lemma ChainOutcome(x: string, y: string, z: string, store: Store, rest: Rest)
    requires IsWord(x) && IsWord(y) && IsWord(z)
    ensures
      var a, b, c := Read(store, x), Read(store, y), Read(store, z);
      && Outcome(x + "-" + y + "-" + z, store, rest) == Some((a - b - c, store))
      && Outcome(x + "-" + ("(" + (y + "-" + z) + ")"), store, rest) == Some((a - (b - c), store))
      && Outcome(x + "-" + (y + "*" + z), store, rest) == Some((a - b * c, store))
  {
    hide Outcome, IsText, IsWord, Eval, Read;
    ChainTexts(x, y, z);
    ChainEvaluates(x, y, z, store, rest);
    TextOutcome(Binary(Minus, Binary(Minus, Var(x), Var(y)), Var(z)), x + "-" + y + "-" + z, store, rest);
    TextOutcome(Binary(Minus, Var(x), Binary(Minus, Var(y), Var(z))),
                x + "-" + ("(" + (y + "-" + z) + ")"), store, rest);
    TextOutcome(Binary(Minus, Var(x), Binary(Mul, Var(y), Var(z))), x + "-" + (y + "*" + z), store, rest);
  }

  lemma PlainEvaluates(l: Expr, a: real, r: Expr, b: real, store: Store, rest: Rest)
    requires Eval(l, Arithmetic(rest), store) == (a, store) && Eval(r, Arithmetic(rest), store) == (b, store)
    ensures Eval(Binary(Minus, l, r), Arithmetic(rest), store) == (a - b, store)
    ensures Eval(Binary(Mul, l, r), Arithmetic(rest), store) == (a * b, store)
  {
    hide Eval;
    InfixEvaluates(Minus, l, r, store, rest);
    InfixEvaluates(Mul, l, r, store, rest);
  }

  lemma ChainEvaluates(x: string, y: string, z: string, store: Store, rest: Rest)
    ensures
      var a, b, c := Read(store, x), Read(store, y), Read(store, z);
      var m := Arithmetic(rest);
      && Eval(Binary(Minus, Binary(Minus, Var(x), Var(y)), Var(z)), m, store) == (a - b - c, store)
      && Eval(Binary(Minus, Var(x), Binary(Minus, Var(y), Var(z))), m, store) == (a - (b - c), store)
      && Eval(Binary(Minus, Var(x), Binary(Mul, Var(y), Var(z))), m, store).0 == a - b * c
      && Eval(Binary(Minus, Var(x), Binary(Mul, Var(y), Var(z))), m, store).1 == store
  {
    hide Eval, Read, Arithmetic;
    var a, b, c := Read(store, x), Read(store, y), Read(store, z);
    VarEvaluates(x, store, rest);
    VarEvaluates(y, store, rest);
    VarEvaluates(z, store, rest);
    PlainEvaluates(Var(x), a, Var(y), b, store, rest);
    PlainEvaluates(Var(y), b, Var(z), c, store, rest);
    PlainEvaluates(Binary(Minus, Var(x), Var(y)), a - b, Var(z), c, store, rest);
    PlainEvaluates(Var(x), a, Binary(Minus, Var(y), Var(z)), b - c, store, rest);
    var product := b * c;
    PlainEvaluates(Var(x), a, Binary(Mul, Var(y), Var(z)), product, store, rest);
    assert Eval(Binary(Minus, Var(x), Binary(Mul, Var(y), Var(z))), Arithmetic(rest), store) == (a - product, store);
  }

  lemma ChainTexts(x: string, y: string, z: string)
    requires IsWord(x) && IsWord(y) && IsWord(z)
    ensures IsText(Binary(Minus, Binary(Minus, Var(x), Var(y)), Var(z)), x + "-" + y + "-" + z, {})
    ensures IsText(Binary(Minus, Var(x), Binary(Minus, Var(y), Var(z))), x + "-" + ("(" + (y + "-" + z) + ")"), {})
    ensures IsText(Binary(Minus, Var(x), Binary(Mul, Var(y), Var(z))), x + "-" + (y + "*" + z), {})
  {
    assert OpText(Minus) == "-" && OpText(Mul) == "*";
    hide IsText, IsWord, OpText;
    VarText(x, {});
    VarText(z, {});
    WordsText(Minus, x, y);
    WordsText(Minus, y, z);
    WordsText(Mul, y, z);
    InfixText(Minus, Binary(Minus, Var(x), Var(y)), x + "-" + y, Var(z), z, {});
    InfixParensText(Minus, Var(x), x, Binary(Minus, Var(y), Var(z)), y + "-" + z, {});
    InfixText(Minus, Var(x), x, Binary(Mul, Var(y), Var(z)), y + "*" + z, {});
  }

  // ----- macros -----

  /** `$1-$2` */
  const DIFFERENCE := Binary(Minus, Var("$1"), Var("$2"))

  lemma DifferenceText()
    ensures IsText(DIFFERENCE, "$1-$2", {})
  {
    assert IsWord("$1") && IsWord("$2") && OpText(Minus) == "-";
    WordsText(Minus, "$1", "$2");
    assert "$1" + "-" + "$2" == "$1-$2";
  }

  lemma DefinitionText(f: string)
    ensures ExprMacros.ShowDefinition(f, [DIFFERENCE], Natural) == "$(" + f + ",$1-$2)"
  {
    DifferenceText();
    assert ShowMore([], Natural) == "";
    hide ShowArgs, ShowMore, Show;
    WordArgument(f, [DIFFERENCE]);
    FirstArg([DIFFERENCE], Natural);
    assert "," + "$1-$2" + "" == ",$1-$2";
    assert "$" + ("(" + ((f + ",$1-$2") + ")")) == "$(" + f + ",$1-$2)";
  }

  lemma CallOfTwoText(f: string, x: string, y: string)
    ensures ExprMacros.ShowCall(f, [Var(x), Var(y)], Natural) == f + "(" + x + "," + y + ")"
  {
    assert ShowMore([], Natural) == "";
    hide ShowArgs, ShowMore, Show;
    WordArgument(y, []);
    WordArgument(x, [Var(y)]);
    assert [Var(y)] + [] == [Var(y)] && [Var(x)] + [Var(y)] == [Var(x), Var(y)];
    assert f + ("(" + ((x + ("," + y + "")) + ")")) == f + "(" + x + "," + y + ")";
  }

  lemma TwoAssigned(x: string, y: string, store: Store, rest: Rest)
    ensures
      var a := Read(store, x);
      var b := Read(store["$1" := a], y);
      Assigned([Var(x), Var(y)], Arithmetic(rest), store) == store["$1" := a]["$2" := b]
  {
    var args := [Var(x), Var(y)];
    assert Init(args) == [Var(x)] && Init([Var(x)]) == [];
    assert ParamName(1) == "$1" && ParamName(2) == "$2";
    VarEvaluates(x, store, rest);
    VarEvaluates(y, store["$1" := Read(store, x)], rest);
    hide Eval, Read, ParamName;
    assert Assigned([], Arithmetic(rest), store) == store;
    assert Assigned([Var(x)], Arithmetic(rest), store) == store["$1" := Read(store, x)];
  }

  lemma OneInOrder(e: Expr, m: Machine, store: Store)
    ensures InOrder([e], m, store) == Eval(e, m, store)
  {
    assert Init([e]) == [] && Last([e]) == e;
  }

  lemma MacroEvaluates(x: string, y: string, store: Store, rest: Rest)
    ensures
      var a := Read(store, x);
      var b := Read(store["$1" := a], y);
      Eval(ExprMacros.Defined([Var(x), Var(y)], [DIFFERENCE]), Arithmetic(rest), store) ==
        (a - b, store["$1" := a]["$2" := b])
  {
    var body, args, m := [DIFFERENCE], [Var(x), Var(y)], Arithmetic(rest);
    assert Eval(Const(0.0), m, store).1 == store;
    assert ExprMacros.Defined(args, body) == Binary(Comma, Const(0.0), Splice(args, 1, body));
    hide *;
    OneInOrder(DIFFERENCE, m, Assigned(args, m, store));
    CommaEvaluates(Const(0.0), Splice(args, 1, body), m, store);
    MacroCallMeans(args, body, m, store);
    TwoAssigned(x, y, store, rest);
    DifferenceEvaluates(Read(store, x), Read(store["$1" := Read(store, x)], y), store, rest);
  }

  /** A macro with two parameters: the arguments are assigned from left to right, each parameter stands for its own
      argument, and the value of the body is that of the call. */
  lemma MacroOutcome(f: string, x: string, y: string, store: Store, rest: Rest)
    requires IsWord(f) && f != "$" && IsWord(x) && IsWord(y)
    ensures
      var a := Read(store, x);
      var b := Read(store["$1" := a], y);
      Outcome("$(" + f + ",$1-$2)" + ("," + (f + "(" + x + "," + y + ")")), store, rest) ==
        Some((a - b, store["$1" := a]["$2" := b]))
  {
    DefinitionText(f);
    CallOfTwoText(f, x, y);
    DifferenceText();
    VarText(x, {});
    VarText(y, {});
    assert Writable(DIFFERENCE, Natural, {}) && Writable(Var(x), Natural, {}) && Writable(Var(y), Natural, {});
    hide Eval, Read, Arithmetic, Writable, IsText, IsWord, Compile;
    ExprMacros.MacroTextCompiles(f, [DIFFERENCE], [Var(x), Var(y)], Natural, [], {});
    MacroEvaluates(x, y, store, rest);
  }

  lemma DifferenceEvaluates(a: real, b: real, store: Store, rest: Rest)
    ensures
      var after := store["$1" := a]["$2" := b];
      Eval(DIFFERENCE, Arithmetic(rest), after) == (a - b, after)
  {
    var after := store["$1" := a]["$2" := b];
    VarEvaluates("$1", after, rest);
    VarEvaluates("$2", after, rest);
    InfixEvaluates(Minus, Var("$1"), Var("$2"), after, rest);
  }
}
