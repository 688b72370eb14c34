/** The parser inverts the printer: compiling the text of a tree builds exactly that tree.
    Source: inc/expr.h. */
module ExprRoundTrip {
  import opened Chars
  import opened Options
  import opened ExprTree
  import opened ExprLexer
  import opened ExprParser
  import opened Decimals
  import opened Sequences

  // ----- which trees can be written -----

  /** A text that the lexer takes as one number with value `v`. */
  predicate IsLiteral(t: string, v: real) {
    t != "" && IsDigit(t[0]) && (forall k :: 0 <= k < |t| ==> In(NumberChars, t[k])) && ParseNumber(t) == Some(v)
  }

  predicate Writable(e: Expr, lit: real -> string, funcs: set<string>) {
    match e
    case Const(v) => IsLiteral(lit(v), v)
    case Var(x) => IsWord(x)
    case Unary(op, x) => IsUnary(op) && Writable(x, lit, funcs)
    case Binary(op, l, r) =>
      IsBinary(op) && (op == Assign ==> l.Var?) && Writable(l, lit, funcs) && Writable(r, lit, funcs)
    case Func(f, args) =>
      IsWord(f) && f != "$" && f in funcs && forall a :: a in args ==> Writable(a, lit, funcs)
  }

  // ----- what a tree leaves on the stacks while its right edge is still open -----

  function SpineOps(e: Expr): seq<Entry> {
    match e
    case Unary(op, x) => [Oper(op)] + if ParensRight(op, x) then [] else SpineOps(x)
    case Binary(op, l, r) => [Oper(op)] + if ParensRight(op, r) then [] else SpineOps(r)
    case _ => []
  }

  function SpineTrees(e: Expr): seq<Expr> {
    match e
    case Unary(op, x) => if ParensRight(op, x) then [x] else SpineTrees(x)
    case Binary(op, l, r) => [l] + if ParensRight(op, r) then [r] else SpineTrees(r)
    case _ => [e]
  }

  /** Right operands bind no looser than their operator, so binding carries over along the right edge. */
  lemma BindsAlong(a: Op, b: Op, c: Op)
    requires IsBinary(a) && BindsFirst(a, b) && !BindsFirst(c, b) && b != Unknown && c != Unknown
    ensures BindsFirst(a, c)
  {
  }

  /** The last operand of an operator, the one its right edge runs through. */
  function LastOperand(e: Expr): Expr
    requires e.Unary? || e.Binary?
  {
    if e.Unary? then e.arg else e.right
  }

  function FirstOperands(e: Expr): seq<Expr>
    requires e.Unary? || e.Binary?
  {
    if e.Unary? then [] else [e.left]
  }

  lemma SpineSplits(e: Expr, os: seq<Entry>, es: seq<Expr>)
    requires e.Unary? || e.Binary?
    ensures var x := LastOperand(e);
      if ParensRight(e.op, x) then
        os + SpineOps(e) == os + [Oper(e.op)] && es + SpineTrees(e) == es + FirstOperands(e) + [x]
      else
        && os + SpineOps(e) == os + [Oper(e.op)] + SpineOps(x)
        && es + SpineTrees(e) == es + FirstOperands(e) + SpineTrees(x)
  {
    var x := LastOperand(e);
    var more := if ParensRight(e.op, x) then [] else SpineOps(x);
    assert SpineOps(e) == [Oper(e.op)] + more;
    Associative(os, [Oper(e.op)], more);
    var trees := if ParensRight(e.op, x) then [x] else SpineTrees(x);
    assert SpineTrees(e) == FirstOperands(e) + trees;
    hide SpineOps, SpineTrees;
    Associative(es, FirstOperands(e), trees);
  }

  lemma LeafSpine(e: Expr, os: seq<Entry>, es: seq<Expr>)
    requires !e.Unary? && !e.Binary?
    ensures os + SpineOps(e) == os && es + SpineTrees(e) == es + [e]
  {
  }

  /** The root operator of a writable tree, with its operands on the stack, makes the tree. */
  predicate Bindable(e: Expr) {
    (e.Unary? && IsUnary(e.op)) || (e.Binary? && IsBinary(e.op) && (e.op == Assign ==> e.left.Var?))
  }

  lemma BindMakes(e: Expr, es: seq<Expr>)
    requires Bindable(e)
    ensures Bind(e.op, es + FirstOperands(e) + [LastOperand(e)]) == Ok(es + [e])
  {
    var all := es + FirstOperands(e) + [LastOperand(e)];
    assert e.Unary? ==> Init(all) == es;
    assert e.Binary? ==> all[..|all| - 2] == es;
  }

  lemma ShiftBindsTop(e: Expr, a: Op, os: seq<Entry>, es: seq<Expr>)
    requires Bindable(e) && BindsFirst(a, e.op)
    ensures Shift(a, os + [Oper(e.op)], es + FirstOperands(e) + [LastOperand(e)]) == Shift(a, os, es + [e])
  {
    BindMakes(e, es);
    assert Init(os + [Oper(e.op)]) == os;
  }

  lemma UnwindBindsTop(e: Expr, os: seq<Entry>, es: seq<Expr>, minlen: nat)
    requires Bindable(e) && minlen <= |os|
    ensures Unwind(os + [Oper(e.op)], es + FirstOperands(e) + [LastOperand(e)], minlen) == Unwind(os, es + [e], minlen)
  {
    BindMakes(e, es);
    assert Init(os + [Oper(e.op)]) == os;
  }

  lemma DrainBindsTop(e: Expr, os: seq<Entry>, es: seq<Expr>)
    requires Bindable(e)
    ensures Drain(os + [Oper(e.op)], es + FirstOperands(e) + [LastOperand(e)]) == Drain(os, es + [e])
  {
    BindMakes(e, es);
    assert Init(os + [Oper(e.op)]) == os;
  }

  /** The spine of a tree below which every operator is bindable. */
  predicate Closable(e: Expr)
  {
    (e.Unary? || e.Binary?) ==>
      Bindable(e) && (!ParensRight(e.op, LastOperand(e)) ==> Closable(LastOperand(e)))
  }

  /** Reading an operator closes the right edge of the tree before it. */
  lemma {:induction false} ShiftClosesSpine(e: Expr, a: Op, os: seq<Entry>, es: seq<Expr>)
    requires Closable(e) && IsBinary(a)
    requires Root(e) == Unknown || BindsFirst(a, Root(e))
    ensures Shift(a, os + SpineOps(e), es + SpineTrees(e)) == Shift(a, os, es + [e])
    decreases e
  {
    if e.Unary? || e.Binary? {
      var x := LastOperand(e);
      SpineSplits(e, os, es);
      ShiftBindsTop(e, a, os, es);
      if !ParensRight(e.op, x) {
        if Root(x) != Unknown {
          BindsAlong(a, e.op, Root(x));
        }
        ShiftClosesSpine(x, a, os + [Oper(e.op)], es + FirstOperands(e));
      }
    } else {
      LeafSpine(e, os, es);
    }
  }

  /** A closing parenthesis closes the right edge of the tree before it. */
  lemma {:induction false} UnwindClosesSpine(e: Expr, os: seq<Entry>, es: seq<Expr>, minlen: nat)
    requires Closable(e) && minlen <= |os|
    ensures Unwind(os + SpineOps(e), es + SpineTrees(e), minlen) == Unwind(os, es + [e], minlen)
    decreases e
  {
    if e.Unary? || e.Binary? {
      SpineSplits(e, os, es);
      UnwindBindsTop(e, os, es, minlen);
      if !ParensRight(e.op, LastOperand(e)) {
        UnwindClosesSpine(LastOperand(e), os + [Oper(e.op)], es + FirstOperands(e), minlen);
      }
    } else {
      LeafSpine(e, os, es);
    }
  }

  /** The end of the input closes the right edge of the tree before it. */
  lemma {:induction false} DrainClosesSpine(e: Expr, os: seq<Entry>, es: seq<Expr>)
    requires Closable(e)
    ensures Drain(os + SpineOps(e), es + SpineTrees(e)) == Drain(os, es + [e])
    decreases e
  {
    if e.Unary? || e.Binary? {
      SpineSplits(e, os, es);
      DrainBindsTop(e, os, es);
      if !ParensRight(e.op, LastOperand(e)) {
        DrainClosesSpine(LastOperand(e), os + [Oper(e.op)], es + FirstOperands(e));
      }
    } else {
      LeafSpine(e, os, es);
    }
  }

  lemma WritableIsClosable(e: Expr, lit: real -> string, funcs: set<string>)
    requires Writable(e, lit, funcs)
    ensures Closable(e)
  {
  }

  // ----- one token at a time -----

  /** A text after which an operand is complete: the end, `)`, or an operator. */
  predicate Stop(s: string) {
    s == "" || s[0] == ')' || s[0] in "*/%+-<>=!&|^,"
  }

  /** A text that starts with an operand. */
  predicate Opens(s: string) {
    s != "" && (s[0] == '(' || IsDigit(s[0]) || IsFirstVarChar(s[0]) || s[0] in "-!^")
  }

  /** The loop is about to read an operand. */
  predicate Ready(st: State) {
    && st.id == "" && !st.noParen
    && !st.flags.top && st.flags.topen && st.flags.tnumber && st.flags.tword
    && (st.calls != [] ==> Last(st.calls).oslen <= |st.os|)
  }

  /** No macro hides a function. */
  predicate Unshadowed(macros: seq<Macro>, funcs: set<string>) {
    forall i :: 0 <= i < |macros| ==> macros[i].name !in funcs
  }

  lemma TokenStep(st: State, tok: string, rest: string, funcs: set<string>)
    requires tok != "" && NextToken(tok + rest, st.flags).0 == |tok|
    ensures Complete(st, tok + rest, funcs) ==
      match Consume(st.(flags := NextToken(tok + rest, st.flags).1), tok, funcs)
      case Ok(st') => Complete(st', rest, funcs)
      case Fail(e) => Fail(e)
      case Underflow => Underflow
  {
    assert (tok + rest)[..|tok|] == tok;
    assert (tok + rest)[|tok|..] == rest;
  }

  lemma NumberStep(st: State, t: string, v: real, rest: string, funcs: set<string>)
    requires Ready(st) && IsLiteral(t, v) && Stop(rest)
    ensures Complete(st, t + rest, funcs) ==
      Complete(st.(flags := AFTER_OPERAND, es := st.es + [Const(v)], noParen := true), rest, funcs)
  {
    SpanIs(NumberChars, t + rest, |t|);
    TokenStep(st, t, rest, funcs);
  }

  lemma WordStep(st: State, x: string, rest: string, funcs: set<string>)
    requires Ready(st) && IsWord(x) && (rest == "" || !IsVarChar(rest[0]))
    ensures Complete(st, x + rest, funcs) == Complete(st.(flags := AFTER_WORD, id := x), rest, funcs)
  {
    SpanIs(WordChars, x + rest, |x|);
    ClassifyWord(x);
    assert NextToken(x + rest, st.flags) == (|x|, AFTER_WORD);
    TokenStep(st, x, rest, funcs);
  }

  lemma LexAfterWord(rest: string)
    requires rest != "" && Stop(rest)
    ensures NextToken(rest, AFTER_WORD).0 == NextToken(rest, AFTER_OPERAND).0
    ensures NextToken(rest, AFTER_WORD).0 > 0 ==> NextToken(rest, AFTER_WORD) == NextToken(rest, AFTER_OPERAND)
    ensures var n := NextToken(rest, AFTER_WORD).0; n > 0 ==> rest[..n][0] == rest[0]
  {
  }

  lemma ConsumeSettles(st: State, tok: string, funcs: set<string>)
    requires tok != "" && tok[0] != '(' && Stop(tok) && st.id != "" && !st.flags.comma && !st.flags.unary
    ensures Consume(st, tok, funcs) == Consume(Settle(st), tok, funcs)
  {
  }

  /** An identifier that no `(` follows is a variable, whatever comes next. */
  lemma SettleStep(st: State, rest: string, funcs: set<string>)
    requires st.flags == AFTER_WORD && st.id != "" && Stop(rest)
    ensures Complete(st, rest, funcs) == Complete(Settle(st).(flags := AFTER_OPERAND), rest, funcs)
  {
    if rest != "" {
      LexAfterWord(rest);
      var (n, flags) := NextToken(rest, AFTER_OPERAND);
      if n > 0 {
        var st' := st.(flags := flags);
        ConsumeSettles(st', rest[..n], funcs);
        assert Settle(st') == Settle(st).(flags := AFTER_OPERAND).(flags := flags);
      }
    }
  }

  lemma MunchOperator(op: Op, rest: string)
    requires IsBinary(op) && Opens(rest)
    ensures Munch(OpText(op) + rest, 0, false) == (|OpText(op)|, true)
  {
    var s := OpText(op) + rest;
    assert s[..1] == [s[0]];
    assert s[..2] == [s[0], s[1]];
    if |OpText(op)| == 1 {
      assert Munch(s, 1, true) == (1, true);
    } else {
      assert Munch(s, 2, true) == (2, true);
    }
  }

  lemma LexOperator(op: Op, rest: string)
    requires IsBinary(op) && Opens(rest)
    ensures NextToken(OpText(op) + rest, AFTER_OPERAND) == (|OpText(op)|, AFTER_BINARY)
  {
    MunchOperator(op, rest);
  }

  lemma ClassifyOperator(op: Op)
    requires IsBinary(op)
    ensures Classify(OpText(op)) == Operator(op)
  {
    NotANumber(OpText(op));
  }

  lemma OperatorStep(st: State, op: Op, rest: string, funcs: set<string>)
    requires st.flags == AFTER_OPERAND && st.id == "" && IsBinary(op) && Opens(rest)
    ensures Complete(st, OpText(op) + rest, funcs) ==
      match Operate(st.(flags := AFTER_BINARY), op)
      case Ok(st') => Complete(st', rest, funcs)
      case Fail(e) => Fail(e)
      case Underflow => Underflow
  {
    LexOperator(op, rest);
    ClassifyOperator(op);
    TokenStep(st, OpText(op), rest, funcs);
  }

  lemma LexUnary(op: Op, rest: string, flags: Flags)
    requires IsUnary(op) && !flags.top
    ensures |OpText(op)| == 1 && NextToken(OpText(op) + rest, flags) == (1, AFTER_UNARY)
  {
    var s := OpText(op) + rest;
    assert [s[0]] == OpText(op);
  }

  lemma ConsumeUnary(st: State, op: Op, funcs: set<string>)
    requires st.id == "" && !st.noParen && IsUnary(op)
    ensures Consume(st.(flags := AFTER_UNARY), OpText(op), funcs) ==
      Ok(st.(flags := AFTER_UNARY, os := st.os + [Oper(op)]))
  {
  }

  lemma UnaryStep(st: State, op: Op, rest: string, funcs: set<string>)
    requires Ready(st) && IsUnary(op)
    ensures Complete(st, OpText(op) + rest, funcs) ==
      Complete(st.(flags := AFTER_UNARY, os := st.os + [Oper(op)]), rest, funcs)
  {
    hide Complete, NextToken, Consume;
    LexUnary(op, rest, st.flags);
    TokenStep(st, OpText(op), rest, funcs);
    ConsumeUnary(st, op, funcs);
  }

  lemma OpenStep(st: State, rest: string, funcs: set<string>)
    requires Ready(st)
    ensures Complete(st, "(" + rest, funcs) == Complete(st.(flags := AFTER_OPEN, os := st.os + [Paren]), rest, funcs)
  {
    TokenStep(st, "(", rest, funcs);
  }

  lemma CallStep(st: State, f: string, rest: string, funcs: set<string>)
    requires Ready(st) && IsWord(f) && (f == "$" || HasMacro(st.macros, f) || f in funcs)
    ensures Complete(st, f + ("(" + rest), funcs) ==
      Complete(st.(flags := AFTER_OPEN, os := st.os + [Brace(f)],
                   calls := st.calls + [Frame(|st.os| + 1, |st.es|, [])]), rest, funcs)
  {
    WordStep(st, f, "(" + rest, funcs);
    TokenStep(st.(flags := AFTER_WORD, id := f), "(", rest, funcs);
  }

  lemma CloseStep(st: State, rest: string, funcs: set<string>)
    requires st.flags.tclose && st.id == ""
    ensures Complete(st, ")" + rest, funcs) ==
      match CloseParen(st.(flags := AFTER_OPERAND))
      case Ok(st') => Complete(st', rest, funcs)
      case Fail(e) => Fail(e)
      case Underflow => Underflow
  {
    TokenStep(st, ")", rest, funcs);
  }

  // ----- whole trees -----

  /** The variables a tree declares, in the order its text names them. */
  function DeclareTree(vars: seq<string>, e: Expr): seq<string>
    decreases e, 0
  {
    match e
    case Const(_) => vars
    case Var(x) => Declare(vars, x)
    case Unary(_, x) => DeclareTree(vars, x)
    case Binary(_, l, r) => DeclareTree(DeclareTree(vars, l), r)
    case Func(_, args) => DeclareTrees(vars, args)
  }

  function DeclareTrees(vars: seq<string>, es: seq<Expr>): seq<string>
    decreases es, 0
  {
    if es == [] then vars else DeclareTrees(DeclareTree(vars, es[0]), es[1..])
  }

  /** The waiting operator does not bind inside the tree to come, and a comma tree does not start a
      call argument. */
  predicate Fits(os: seq<Entry>, e: Expr) {
    os == [] || Root(e) == Unknown ||
    (&& (EntryOp(Last(os)) != Unknown ==> !BindsFirst(Root(e), EntryOp(Last(os))))
     && (Last(os).Brace? ==> Root(e) != Comma))
  }

  /** The state after the text of a tree, its right edge still open unless it was in parentheses. */
  function After(st: State, closed: bool, e: Expr): State {
    st.(flags := AFTER_OPERAND, noParen := true, vars := DeclareTree(st.vars, e),
        os := if closed then st.os else st.os + SpineOps(e),
        es := st.es + if closed then [e] else SpineTrees(e))
  }

  lemma FitsLeft(os: seq<Entry>, e: Expr)
    requires e.Binary? && IsBinary(e.op) && Fits(os, e) && !ParensLeft(e.op, e.left)
    ensures Fits(os, e.left)
  {
  }

  lemma ShowOpens(e: Expr, lit: real -> string, funcs: set<string>, rest: string)
    requires Writable(e, lit, funcs)
    ensures Opens(Show(e, lit) + rest)
    decreases e
  {
    match e
    case Binary(op, l, r) =>
      ShowOpens(l, lit, funcs, "");
    case _ =>
  }

  lemma WrapOpens(closed: bool, e: Expr, lit: real -> string, funcs: set<string>, rest: string)
    requires Writable(e, lit, funcs)
    ensures Opens(Wrap(closed, Show(e, lit)) + rest)
  {
    ShowOpens(e, lit, funcs, rest);
  }

  /** An operator after a tree closes the tree and is pushed. */
  lemma OperateAfter(st: State, closed: bool, l: Expr, op: Op)
    requires Closable(l) && IsBinary(op)
    requires closed || Root(l) == Unknown || BindsFirst(op, Root(l))
    requires st.os == [] || (EntryOp(Last(st.os)) != Unknown ==> !BindsFirst(op, EntryOp(Last(st.os))))
    requires st.os != [] && Last(st.os).Brace? ==> op != Comma
    ensures var st1 := After(st, closed, l).(flags := AFTER_BINARY);
      Operate(st1, op) == Ok(st1.(os := st.os + [Oper(op)], es := st.es + [l], noParen := false))
  {
    if !closed {
      ShiftClosesSpine(l, op, st.os, st.es);
    }
  }

  lemma CloseAfter(st: State, closed: bool, e: Expr)
    requires Closable(e) && st.os != [] && Last(st.os) == Paren
    requires st.calls != [] ==> Last(st.calls).oslen <= |st.os|
    ensures var st1 := After(st, closed, e);
      CloseParen(st1) == Ok(st1.(os := Init(st.os), es := st.es + [e], noParen := true))
  {
    var minlen := if st.calls != [] then Last(st.calls).oslen else 0;
    if !closed {
      UnwindClosesSpine(e, st.os, st.es, minlen);
    }
  }

  // ----- the texts and the states of the steps below -----

  lemma UnaryText(e: Expr, lit: real -> string, rest: string)
    requires e.Unary?
    ensures Show(e, lit) + rest == OpText(e.op) + (Wrap(ParensRight(e.op, e.arg), Show(e.arg, lit)) + rest)
  {
    Associative(OpText(e.op), Wrap(ParensRight(e.op, e.arg), Show(e.arg, lit)), rest);
  }

  lemma BinaryText(e: Expr, lit: real -> string, rest: string)
    requires e.Binary?
    ensures
      var l := Wrap(ParensLeft(e.op, e.left), Show(e.left, lit));
      var r := Wrap(ParensRight(e.op, e.right), Show(e.right, lit));
      Show(e, lit) + rest == l + (OpText(e.op) + (r + rest))
  {
    var l := Wrap(ParensLeft(e.op, e.left), Show(e.left, lit));
    var r := Wrap(ParensRight(e.op, e.right), Show(e.right, lit));
    assert Show(e, lit) == l + OpText(e.op) + r;
    hide Show, Wrap;
    Associative(l + OpText(e.op), r, rest);
    Associative(l, OpText(e.op), r + rest);
  }

  lemma FuncText(e: Expr, lit: real -> string, rest: string)
    requires e.Func?
    ensures Show(e, lit) + rest == e.func + ("(" + (ShowArgs(e.args, lit) + (")" + rest)))
  {
    var text := ShowArgs(e.args, lit);
    assert Show(e, lit) == e.func + "(" + text + ")";
    hide Show, ShowArgs;
    Associative(e.func + "(" + text, ")", rest);
    Associative(e.func + "(", text, ")" + rest);
    Associative(e.func, "(", text + (")" + rest));
  }

  lemma WrapText(e: Expr, lit: real -> string, rest: string)
    ensures Wrap(true, Show(e, lit)) + rest == "(" + (Show(e, lit) + (")" + rest))
  {
    Associative("(" + Show(e, lit), ")", rest);
    Associative("(", Show(e, lit), ")" + rest);
  }

  lemma FirstArg(args: seq<Expr>, lit: real -> string)
    requires args != []
    ensures
      var a := Wrap(Root(args[0]) == Comma, Show(args[0], lit));
      ShowArgs(args, lit) == a + ShowMore(args[1..], lit) && ShowMore(args, lit) == "," + a + ShowMore(args[1..], lit)
  {
    hide Show, Wrap;
  }

  lemma ArgsText(args: seq<Expr>, lit: real -> string, rest: string)
    requires args != []
    ensures
      var a := Wrap(Root(args[0]) == Comma, Show(args[0], lit));
      && ShowArgs(args, lit) + rest == a + (ShowMore(args[1..], lit) + rest)
      && ShowMore(args, lit) + rest == OpText(Comma) + (a + (ShowMore(args[1..], lit) + rest))
  {
    hide Show, Wrap, ShowArgs, ShowMore;
    FirstArg(args, lit);
    var a, more := Wrap(Root(args[0]) == Comma, Show(args[0], lit)), ShowMore(args[1..], lit);
    Associative(a, more, rest);
    Associative("," + a, more, rest);
    Associative(",", a, more + rest);
  }

  lemma AfterUnary(e: Expr, st: State)
    requires e.Unary?
    ensures
      var st1 := st.(flags := AFTER_UNARY, os := st.os + [Oper(e.op)]);
      After(st1, ParensRight(e.op, e.arg), e.arg) == After(st, false, e)
  {
    SpineSplits(e, st.os, st.es);
    assert st.es + [] == st.es;
  }

  lemma AfterBinary(e: Expr, st: State)
    requires e.Binary?
    ensures
      var st1 := After(st, ParensLeft(e.op, e.left), e.left);
      var st2 := st1.(flags := AFTER_BINARY, os := st.os + [Oper(e.op)], es := st.es + [e.left], noParen := false);
      After(st2, ParensRight(e.op, e.right), e.right) == After(st, false, e)
  {
    SpineSplits(e, st.os, st.es);
  }

  lemma AfterLeaf(e: Expr, st: State)
    requires !e.Unary? && !e.Binary?
    ensures After(st, false, e) ==
      st.(flags := AFTER_OPERAND, noParen := true, vars := DeclareTree(st.vars, e), es := st.es + [e])
  {
    LeafSpine(e, st.os, st.es);
  }

  /** Compiling the text of a tree, then the rest, is compiling the rest with the tree on the stacks. */
  lemma {:induction false} ShowStep(e: Expr, lit: real -> string, funcs: set<string>, st: State, rest: string)
    requires Writable(e, lit, funcs) && Ready(st) && Unshadowed(st.macros, funcs) && Fits(st.os, e) && Stop(rest)
    ensures Complete(st, Show(e, lit) + rest, funcs) == Complete(After(st, false, e), rest, funcs)
    decreases e, 2
  {
    hide Complete, After;
    match e
    case Const(v) =>
      NumberStep(st, lit(v), v, rest, funcs);
      AfterLeaf(e, st);
    case Var(x) =>
      WordStep(st, x, rest, funcs);
      SettleStep(st.(flags := AFTER_WORD, id := x), rest, funcs);
      AfterLeaf(e, st);
    case Unary(op, x) =>
      PrefixStep(e, lit, funcs, st, rest);
    case Binary(op, l, r) =>
      BinaryStep(e, lit, funcs, st, rest);
    case Func(f, args) =>
      FuncStep(e, lit, funcs, st, rest);
  }

  lemma {:induction false} WrapStep(
      closed: bool, e: Expr, lit: real -> string, funcs: set<string>, st: State, rest: string)
    requires Writable(e, lit, funcs) && Ready(st) && Unshadowed(st.macros, funcs) && Stop(rest)
    requires closed || Fits(st.os, e)
    ensures Complete(st, Wrap(closed, Show(e, lit)) + rest, funcs) == Complete(After(st, closed, e), rest, funcs)
    decreases e, 3
  {
    hide Complete, Show;
    if closed {
      WrapText(e, lit, rest);
      OpenStep(st, Show(e, lit) + (")" + rest), funcs);
      var st1 := st.(flags := AFTER_OPEN, os := st.os + [Paren]);
      ShowStep(e, lit, funcs, st1, ")" + rest);
      CloseStep(After(st1, false, e), rest, funcs);
      WritableIsClosable(e, lit, funcs);
      CloseAfter(st1, false, e);
      assert Init(st1.os) == st.os;
    } else {
      ShowStep(e, lit, funcs, st, rest);
    }
  }

  lemma {:induction false} PrefixStep(e: Expr, lit: real -> string, funcs: set<string>, st: State, rest: string)
    requires e.Unary? && Writable(e, lit, funcs) && Ready(st) && Unshadowed(st.macros, funcs) && Stop(rest)
    ensures Complete(st, Show(e, lit) + rest, funcs) == Complete(After(st, false, e), rest, funcs)
    decreases e, 1
  {
    hide Complete, After, Show;
    var closed := ParensRight(e.op, e.arg);
    UnaryText(e, lit, rest);
    UnaryStep(st, e.op, Wrap(closed, Show(e.arg, lit)) + rest, funcs);
    WrapStep(closed, e.arg, lit, funcs, st.(flags := AFTER_UNARY, os := st.os + [Oper(e.op)]), rest);
    AfterUnary(e, st);
  }

  lemma {:induction false} BinaryStep(e: Expr, lit: real -> string, funcs: set<string>, st: State, rest: string)
    requires e.Binary? && Writable(e, lit, funcs) && Ready(st) && Unshadowed(st.macros, funcs)
    requires Fits(st.os, e) && Stop(rest)
    ensures Complete(st, Show(e, lit) + rest, funcs) == Complete(After(st, false, e), rest, funcs)
    decreases e, 1
  {
    hide Complete, Show, Operate;
    var op, l, r := e.op, e.left, e.right;
    var closedL, closedR := ParensLeft(op, l), ParensRight(op, r);
    var right := Wrap(closedR, Show(r, lit)) + rest;
    BinaryText(e, lit, rest);
    if !closedL {
      FitsLeft(st.os, e);
    }
    WrapStep(closedL, l, lit, funcs, st, OpText(op) + right);
    WrapOpens(closedR, r, lit, funcs, rest);
    var st1 := After(st, closedL, l);
    OperatorStep(st1, op, right, funcs);
    WritableIsClosable(l, lit, funcs);
    OperateAfter(st, closedL, l, op);
    var st2 := st1.(flags := AFTER_BINARY, os := st.os + [Oper(op)], es := st.es + [l], noParen := false);
    WrapStep(closedR, r, lit, funcs, st2, rest);
    AfterBinary(e, st);
  }

  // ----- calls -----

  /** Inside a call whose finished arguments are `done`. */
  function InCall(st: State, f: string, done: seq<Expr>): State {
    st.(os := st.os + [Brace(f)], calls := st.calls + [Frame(|st.os| + 1, |st.es|, done)])
  }

  /** The state when `)` has ended a call: the call is complete but not yet on the stack. */
  function Called(st: State): State {
    st.(flags := AFTER_OPERAND, noParen := true)
  }

  /** What follows a step. */
  function Continue(r: Step<State>, rest: string, funcs: set<string>): Step<(seq<Expr>, seq<string>)> {
    match r
    case Ok(st) => Complete(st, rest, funcs)
    case Fail(e) => Fail(e)
    case Underflow => Underflow
  }

  lemma CloseCallEmpty(st: State, f: string)
    ensures CloseParen(InCall(st, f, []).(flags := AFTER_OPERAND)) == FinishCall(Called(st), f, [])
  {
    var st1 := InCall(st, f, []);
    assert Init(st1.os) == st.os && Init(st1.calls) == st.calls;
    hide FinishCall;
  }

  lemma CloseCall(st: State, f: string, done: seq<Expr>, closed: bool, a: Expr)
    requires Closable(a)
    ensures CloseParen(After(InCall(st, f, done), closed, a).(vars := st.vars)) ==
      FinishCall(Called(st), f, done + [a])
  {
    var st1 := InCall(st, f, done);
    if !closed {
      UnwindClosesSpine(a, st1.os, st1.es, |st.os| + 1);
    }
    assert Init(st1.os) == st.os && Init(st1.calls) == st.calls && Init(st.es + [a]) == st.es;
    hide FinishCall;
  }

  lemma ArgumentEnds(a: Expr, closed: bool, os: seq<Entry>, es: seq<Expr>)
    requires Closable(a) && (closed <==> Root(a) == Comma) && os != [] && Last(os).Brace?
    ensures Shift(Comma, if closed then os else os + SpineOps(a), es + if closed then [a] else SpineTrees(a)) ==
      Ok(Argument(os, es, a))
  {
    if !closed {
      ShiftClosesSpine(a, Comma, os, es);
    }
    assert Init(es + [a]) == es;
  }

  lemma NextArgument(st: State, f: string, done: seq<Expr>, closed: bool, a: Expr)
    requires Closable(a) && (closed <==> Root(a) == Comma)
    ensures Operate(After(InCall(st, f, done), closed, a).(flags := AFTER_BINARY, vars := st.vars), Comma) ==
      Ok(InCall(st, f, done + [a]).(flags := AFTER_BINARY, noParen := false))
  {
    var st1 := InCall(st, f, done);
    ArgumentEnds(a, closed, st1.os, st1.es);
    hide Shift, SpineOps, SpineTrees;
    assert Init(st1.calls) == st.calls;
  }

  lemma AfterFirstArgument(st: State, f: string, b: Expr)
    requires !st.noParen
    ensures
      var vars := DeclareTree(st.vars, b);
      After(InCall(st, f, []).(flags := AFTER_OPEN), Root(b) == Comma, b) ==
        After(InCall(st.(vars := vars), f, []), Root(b) == Comma, b).(vars := vars)
  {
  }

  /** A function call becomes a function node. */
  lemma {:induction false} FuncStep(e: Expr, lit: real -> string, funcs: set<string>, st: State, rest: string)
    requires e.Func? && Writable(e, lit, funcs) && Ready(st) && Unshadowed(st.macros, funcs)
    ensures Complete(st, Show(e, lit) + rest, funcs) == Complete(After(st, false, e), rest, funcs)
    decreases e, 1
  {
    hide Complete, Show, After;
    FuncText(e, lit, rest);
    CalledStep(e.func, e.args, lit, funcs, st, rest);
    AfterLeaf(e, st);
  }

  /** A call, whatever it calls: its arguments are read, and then the call is completed. */
  lemma {:induction false} CalledStep(
      f: string, args: seq<Expr>, lit: real -> string, funcs: set<string>, st: State, rest: string)
    requires IsWord(f) && (f == "$" || HasMacro(st.macros, f) || f in funcs)
    requires (forall a :: a in args ==> Writable(a, lit, funcs)) && Ready(st) && Unshadowed(st.macros, funcs)
    ensures Complete(st, f + ("(" + (ShowArgs(args, lit) + (")" + rest))), funcs) ==
      Continue(FinishCall(Called(st).(vars := DeclareTrees(st.vars, args)), f, args), rest, funcs)
    decreases args, 1
  {
    hide Complete, Show, CloseParen, After, FinishCall;
    CallStep(st, f, ShowArgs(args, lit) + (")" + rest), funcs);
    if args == [] {
      CloseStep(InCall(st, f, []).(flags := AFTER_OPEN), rest, funcs);
      CloseCallEmpty(st, f);
      assert ")" + rest == "" + (")" + rest);
    } else {
      var a := args[0];
      ArgsText(args, lit, ")" + rest);
      assert Writable(a, lit, funcs);
      WrapStep(Root(a) == Comma, a, lit, funcs, InCall(st, f, []).(flags := AFTER_OPEN),
               ShowMore(args[1..], lit) + (")" + rest));
      AfterFirstArgument(st, f, a);
      MoreArgsStep(st.(vars := DeclareTree(st.vars, a)), f, [], a, args[1..], lit, funcs, rest);
      assert [] + [a] + args[1..] == args;
    }
  }

  lemma LastArgStep(st: State, f: string, done: seq<Expr>, a: Expr, funcs: set<string>, rest: string)
    requires Closable(a) && st.id == ""
    ensures Complete(After(InCall(st, f, done), Root(a) == Comma, a).(vars := st.vars), ")" + rest, funcs) ==
      Continue(FinishCall(Called(st), f, done + [a]), rest, funcs)
  {
    hide Complete, CloseParen, FinishCall;
    CloseStep(After(InCall(st, f, done), Root(a) == Comma, a).(vars := st.vars), rest, funcs);
    CloseCall(st, f, done, Root(a) == Comma, a);
  }

  lemma NextArgStep(st: State, f: string, done: seq<Expr>, a: Expr, funcs: set<string>, rest: string)
    requires Closable(a) && st.id == "" && Opens(rest)
    ensures Complete(After(InCall(st, f, done), Root(a) == Comma, a).(vars := st.vars), OpText(Comma) + rest, funcs) ==
      Complete(InCall(st, f, done + [a]).(flags := AFTER_BINARY, noParen := false), rest, funcs)
  {
    hide Complete, Operate;
    OperatorStep(After(InCall(st, f, done), Root(a) == Comma, a).(vars := st.vars), Comma, rest, funcs);
    NextArgument(st, f, done, Root(a) == Comma, a);
  }

  lemma AfterArgument(st: State, f: string, done: seq<Expr>, b: Expr)
    requires !st.noParen
    ensures
      var vars := DeclareTree(st.vars, b);
      After(InCall(st, f, done).(flags := AFTER_BINARY, noParen := false), Root(b) == Comma, b) ==
        After(InCall(st.(vars := vars), f, done), Root(b) == Comma, b).(vars := vars)
  {
  }

  /** The rest of a call whose argument `a` has just been read. */
  lemma {:induction false} MoreArgsStep(
      st: State, f: string, done: seq<Expr>, a: Expr, more: seq<Expr>, lit: real -> string, funcs: set<string>,
      rest: string)
    requires Ready(st.(flags := AFTER_BINARY)) && Unshadowed(st.macros, funcs) && Writable(a, lit, funcs)
    requires forall b :: b in more ==> Writable(b, lit, funcs)
    ensures
      var st1 := After(InCall(st, f, done), Root(a) == Comma, a).(vars := st.vars);
      Complete(st1, ShowMore(more, lit) + (")" + rest), funcs) ==
        Continue(FinishCall(Called(st).(vars := DeclareTrees(st.vars, more)), f, done + [a] + more), rest, funcs)
    decreases more, 0
  {
    hide Complete, Show, Wrap, After, Writable, DeclareTree, FinishCall;
    WritableIsClosable(a, lit, funcs);
    if more == [] {
      LastArgStep(st, f, done, a, funcs, rest);
      assert ShowMore(more, lit) + (")" + rest) == ")" + rest;
      assert done + [a] + more == done + [a];
    } else {
      var b := more[0];
      var tail := ShowMore(more[1..], lit) + (")" + rest);
      ArgsText(more, lit, ")" + rest);
      WrapOpens(Root(b) == Comma, b, lit, funcs, tail);
      NextArgStep(st, f, done, a, funcs, Wrap(Root(b) == Comma, Show(b, lit)) + tail);
      var st2 := InCall(st, f, done + [a]).(flags := AFTER_BINARY, noParen := false);
      WrapStep(Root(b) == Comma, b, lit, funcs, st2, tail);
      AfterArgument(st, f, done + [a], b);
      MoreArgsStep(st.(vars := DeclareTree(st.vars, b)), f, done + [a], b, more[1..], lit, funcs, rest);
      assert done + [a] + more == done + [a] + [b] + more[1..];
    }
  }

  lemma CompleteAtEnd(st: State, funcs: set<string>)
    ensures Complete(st, "", funcs) == Finish(st)
  {
  }

  /** The parser inverts the printer. */
  lemma ParserInvertsPrinter(e: Expr, lit: real -> string, vars: seq<string>, funcs: set<string>)
    requires Writable(e, lit, funcs)
    ensures Compile(Show(e, lit), vars, funcs) == Ok(([e], DeclareTree(vars, e)))
  {
    hide Complete, Show;
    var st := Start(vars);
    assert Show(e, lit) == Show(e, lit) + "";
    ShowStep(e, lit, funcs, st, "");
    CompleteAtEnd(After(st, false, e), funcs);
    WritableIsClosable(e, lit, funcs);
    DrainClosesSpine(e, [], []);
    hide SpineOps, SpineTrees;
    assert [] + [e] == [e];
    assert Drain([] + SpineOps(e), [] + SpineTrees(e)) == Ok([e]);
  }

  /** Natural numbers can be written: their decimal digits are a literal. */
  lemma NaturalLiteral(n: nat)
    ensures IsLiteral(Decimal(n), n as real)
  {
    DigitsRead(Decimal(n), 0, 0);
    ValueOfDecimal(n);
  }

  lemma {:induction false} DigitsRead(s: string, num: nat, digits: nat)
    requires forall k :: 0 <= k < |s| ==> '0' <= s[k] <= '9'
    ensures Digits(s, num, 0, digits) == Option<(nat, nat, nat)>.Some((Value(num, s), 0, digits + |s|))
    decreases |s|
  {
    if s != "" {
      DigitsRead(s[1..], num * 10 + (s[0] as int - '0' as int), digits + 1);
    }
  }
}
