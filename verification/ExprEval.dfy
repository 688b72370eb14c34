/** Evaluation of finished trees, and what a macro call means. Source: inc/expr.h. */
module ExprEval {
  import opened ExprTree
  import opened ExprParser
  import opened Decimals

  type Store = map<string, real>

  /** What the trees are evaluated over: the arithmetic of the operators, and the user functions, which
      get their arguments unevaluated and may read and write the store. */
  datatype Machine = Machine(
    unary: (Op, real) -> real,
    binary: (Op, real, real) -> real,
    call: (string, seq<Expr>, Store) -> (real, Store))

  /** `expr_eval`, operands from left to right, with the store it leaves. */
  function Eval(e: Expr, m: Machine, store: Store): (real, Store)
    decreases e, 1
  {
    match e
    case Const(v) => (v, store)
    case Var(x) => (if x in store then store[x] else 0.0, store)
    case Unary(op, x) =>
      var (v, store) := Eval(x, m, store);
      (m.unary(op, v), store)
    case Func(f, args) => m.call(f, args, store)
    case Binary(op, l, r) => EvalBinary(op, l, r, m, store)
  }

  function EvalBinary(op: Op, l: Expr, r: Expr, m: Machine, store: Store): (real, Store)
    decreases Binary(op, l, r), 0
  {
    if op == Assign then
      var (v, store) := Eval(r, m, store);
      (v, if l.Var? then store[l.name := v] else store)
    else if op == Comma then
      Eval(r, m, Eval(l, m, store).1)
    else if op == And then
      var (a, store) := Eval(l, m, store);
      if a == 0.0 then (0.0, store) else Eval(r, m, store)
    else if op == Or then
      var (a, store) := Eval(l, m, store);
      if a != 0.0 then (a, store) else Eval(r, m, store)
    else
      var (a, store) := Eval(l, m, store);
      var (b, store) := Eval(r, m, store);
      (m.binary(op, a, b), store)
  }

  /** Evaluating the arguments in order, each into its parameter. */
  function Assigned(args: seq<Expr>, m: Machine, store: Store): Store {
    if args == [] then store
    else
      var before := Assigned(Init(args), m, store);
      var (v, after) := Eval(Last(args), m, before);
      after[ParamName(|args|) := v]
  }

  /** Evaluating expressions in order: the last value, 0 when there are none. */
  function InOrder(body: seq<Expr>, m: Machine, store: Store): (real, Store) {
    if body == [] then (0.0, store) else Eval(Last(body), m, InOrder(Init(body), m, store).1)
  }

  lemma {:induction false} CopyIsEqual(e: Expr)
    ensures Copy(e) == e
    decreases e, 0
  {
    match e
    case Const(_) =>
    case Var(_) =>
    case Unary(_, x) => CopyIsEqual(x);
    case Binary(_, l, r) => CopyIsEqual(l); CopyIsEqual(r);
    case Func(_, args) => CopyAllIsEqual(args);
  }

  lemma {:induction false} CopyAllIsEqual(es: seq<Expr>)
    ensures CopyAll(es) == es
    decreases es, 0
  {
    if es != [] {
      CopyIsEqual(es[0]);
      CopyAllIsEqual(es[1..]);
    }
  }

  /** The rest of a body, from the store its first expressions left. */
  lemma {:induction false} InOrderSplits(first: seq<Expr>, rest: seq<Expr>, m: Machine, store: Store)
    ensures rest != [] ==> InOrder(first + rest, m, store) == InOrder(rest, m, InOrder(first, m, store).1)
    decreases |rest|
  {
    if |rest| == 1 {
      assert Init(first + rest) == first && Init(rest) == [];
    } else if rest != [] {
      InOrderSplits(first, Init(rest), m, store);
      assert Init(first + rest) == first + Init(rest);
    }
  }

  lemma {:induction false} BodyChainInOrder(body: seq<Expr>, m: Machine, store: Store)
    ensures Eval(BodyChain(body), m, store) == InOrder(body, m, store)
    decreases |body|
  {
    if body != [] {
      CopyIsEqual(body[0]);
      if |body| > 1 {
        BodyChainInOrder(body[1..], m, Eval(body[0], m, store).1);
        InOrderSplits([body[0]], body[1..], m, store);
        assert [body[0]] + body[1..] == body;
        assert Init([body[0]]) == [];
      } else {
        assert Init(body) == [];
      }
    }
  }

  lemma BinaryEvaluates(op: Op, l: Expr, r: Expr, m: Machine, store: Store)
    ensures Eval(Binary(op, l, r), m, store) == EvalBinary(op, l, r, m, store)
  {
    hide EvalBinary;
  }

  lemma CommaEvaluates(l: Expr, r: Expr, m: Machine, store: Store)
    ensures Eval(Binary(Comma, l, r), m, store) == Eval(r, m, Eval(l, m, store).1)
  {
    hide Eval;
    BinaryEvaluates(Comma, l, r, m, store);
  }

  /** Assigning one more argument to its parameter */
  lemma AssignEvaluates(done: seq<Expr>, arg: Expr, m: Machine, store: Store)
    ensures var assign := Binary(Assign, Var(ParamName(|done| + 1)), arg);
      Eval(assign, m, Assigned(done, m, store)).1 == Assigned(done + [arg], m, store)
  {
    hide Eval;
    BinaryEvaluates(Assign, Var(ParamName(|done| + 1)), arg, m, Assigned(done, m, store));
    assert Init(done + [arg]) == done;
  }

  lemma {:induction false} SpliceMeans(
      done: seq<Expr>, args: seq<Expr>, body: seq<Expr>, m: Machine, store: Store)
    ensures Eval(Splice(args, |done| + 1, body), m, Assigned(done, m, store)) ==
      InOrder(body, m, Assigned(done + args, m, store))
    decreases |args|
  {
    if args == [] {
      BodyChainInOrder(body, m, Assigned(done, m, store));
      assert done + args == done;
    } else {
      var done' := done + [args[0]];
      var assign := Binary(Assign, Var(ParamName(|done'|)), args[0]);
      hide Eval, EvalBinary, Assigned;
      assert done' + args[1..] == done + args;
      AssignEvaluates(done, args[0], m, store);
      CommaEvaluates(assign, Splice(args[1..], |done'| + 1, body), m, Assigned(done, m, store));
      SpliceMeans(done', args[1..], body, m, store);
    }
  }

  /** A macro call means: assign the arguments to the parameters from left to right, evaluate the body
      in order, and yield its last value. */
  lemma MacroCallMeans(args: seq<Expr>, body: seq<Expr>, m: Machine, store: Store)
    ensures Eval(Splice(args, 1, body), m, store) == InOrder(body, m, Assigned(args, m, store))
  {
    hide Eval, EvalBinary;
    SpliceMeans([], args, body, m, store);
    assert [] + args == args;
    assert Assigned([], m, store) == store;
  }

  /** The parameters are `$1`, `$2`, ... as far as one digit goes. */
  lemma ParamNameIs(k: nat)
    requires k > 0
    ensures ParamName(k) == "$" + Decimal(k) <==> k <= 9
  {
    ParamNameIsShort(k);
  }

  lemma {:induction false} ParamNameIsShort(k: nat)
    requires k > 0
    ensures |ParamName(k)| == 2
  {
    if k >= 10 {
      ParamNameIsShort(k / 10);
    }
  }

  /** Each of `n` arguments keeps a parameter of its own exactly when there are at most nine. */
  lemma ParamsAreDistinct(n: nat)
    ensures (forall i, j :: 1 <= i < j <= n ==> ParamName(i) != ParamName(j)) <==> n <= 9
  {
    if n >= 10 {
      assert ParamName(1) == ParamName(10);
    } else {
      forall i, j | 1 <= i < j <= n
        ensures ParamName(i) != ParamName(j)
      {
        assert ParamName(i)[1] != ParamName(j)[1];
      }
    }
  }
}
