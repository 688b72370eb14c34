/** What texts compile to, with the operators, their classes and their association written out from the
    language itself. Source: inc/expr.h. */
module ExprTexts {
  import opened Chars
  import opened ExprTree
  import opened ExprLexer
  import opened ExprParser
  import opened ExprRoundTrip
  import opened Decimals
  import opened Sequences

  /** A binary operator of the language: how it is written, its node, its class from tight to loose, and whether it
      associates to the right. */
  datatype Rule = Rule(text: string, op: Op, class_: nat, right: bool)

  const BINARY: seq<Rule> := [
    Rule("**", Pow, 1, true), Rule("*", Mul, 1, false), Rule("/", Div, 1, false), Rule("%", Rem, 1, false),
    Rule("+", Plus, 2, false), Rule("-", Minus, 2, false),
    Rule("<<", Shl, 3, false), Rule(">>", Shr, 3, false),
    Rule("<", Lt, 4, false), Rule("<=", Le, 4, false), Rule(">", Gt, 4, false),
    Rule(">=", Ge, 4, false), Rule("==", Eq, 4, false), Rule("!=", Ne, 4, false),
    Rule("&", BitAnd, 5, false), Rule("|", BitOr, 6, false), Rule("^", BitXor, 7, false),
    Rule("&&", And, 8, false), Rule("||", Or, 9, false),
    Rule("=", Assign, 10, true), Rule(",", Comma, 11, true)]

  /** A unary operator: how it is written, and its node. */
  datatype Prefix = Prefix(text: string, op: Op)

  const UNARY: seq<Prefix> := [Prefix("-", Neg), Prefix("!", Not), Prefix("^", BitNot)]

  /** Of two operators in a row the first takes the operand between them. */
  predicate FirstTakes(p: Rule, q: Rule) {
    p.class_ < q.class_ || (p.class_ == q.class_ && !q.right)
  }

  // ----- the tables of the code say the same -----

  predicate Agrees(p: Rule) {
    && IsBinary(p.op) && OpText(p.op) == p.text
    && Level(p.op) == p.class_ + 1 && (IsLeft(p.op) <==> !p.right)
  }

  lemma ArithmeticAgrees(i: nat)
    requires i < 8
    ensures Agrees(BINARY[i])
  {
  }

  lemma ComparisonAgrees(i: nat)
    requires 8 <= i < 14
    ensures Agrees(BINARY[i])
  {
  }

  lemma LogicAgrees(i: nat)
    requires 14 <= i < |BINARY|
    ensures Agrees(BINARY[i])
  {
  }

  lemma BinaryAgrees(p: Rule)
    requires p in BINARY
    ensures Agrees(p)
  {
    var i :| 0 <= i < |BINARY| && BINARY[i] == p;
    hide Agrees;
    if i < 8 {
      ArithmeticAgrees(i);
    } else if i < 14 {
      ComparisonAgrees(i);
    } else {
      LogicAgrees(i);
    }
  }

  lemma TakesIsBindsFirst(p: Rule, q: Rule)
    requires Agrees(p) && Agrees(q)
    ensures FirstTakes(p, q) <==> BindsFirst(q.op, p.op)
  {
    hide OpText;
  }

  lemma OnlyAssign(p: Rule)
    requires Agrees(p)
    ensures p.text == "=" <==> p.op == Assign
  {
  }

  lemma UnaryAgrees(u: Prefix)
    requires u in UNARY
    ensures IsUnary(u.op) && OpText(u.op) == u.text
  {
  }

  // ----- trees of words -----

  /** Natural numbers are written in decimal digits. */
  function Natural(v: real): string {
    if v >= 0.0 then Decimal(v.Floor) else ""
  }

  /** A tree is written as `text`, and can be. */
  predicate IsText(e: Expr, text: string, funcs: set<string>) {
    Writable(e, Natural, funcs) && Show(e, Natural) == text
  }

  lemma VarText(x: string, funcs: set<string>)
    requires IsWord(x)
    ensures IsText(Var(x), x, funcs)
  {
  }

  lemma NumberText(n: nat, funcs: set<string>)
    ensures IsText(Const(n as real), Decimal(n), funcs)
  {
    NaturalLiteral(n);
  }

  lemma InfixText(op: Op, l: Expr, left: string, r: Expr, right: string, funcs: set<string>)
    requires IsBinary(op) && (op == Assign ==> l.Var?) && !ParensLeft(op, l) && !ParensRight(op, r)
    requires IsText(l, left, funcs) && IsText(r, right, funcs)
    ensures IsText(Binary(op, l, r), left + OpText(op) + right, funcs)
  {
  }

  /** An operand that needs parentheses to the right of an operator. */
  lemma InfixParensText(op: Op, l: Expr, left: string, r: Expr, right: string, funcs: set<string>)
    requires IsBinary(op) && (op == Assign ==> l.Var?) && !ParensLeft(op, l) && ParensRight(op, r)
    requires IsText(l, left, funcs) && IsText(r, right, funcs)
    ensures IsText(Binary(op, l, r), left + OpText(op) + ("(" + right + ")"), funcs)
  {
  }

  lemma PrefixText(op: Op, e: Expr, text: string, funcs: set<string>)
    requires IsUnary(op) && !ParensRight(op, e) && IsText(e, text, funcs)
    ensures IsText(Unary(op, e), OpText(op) + text, funcs)
  {
  }

  /** `x p y` */
  function Two(x: string, p: Rule, y: string): Expr {
    Binary(p.op, Var(x), Var(y))
  }

  lemma TwoText(x: string, p: Rule, y: string, funcs: set<string>)
    requires IsWord(x) && IsWord(y) && Agrees(p)
    ensures IsText(Two(x, p, y), x + p.text + y, funcs)
  {
    hide IsText, IsWord, OpText;
    VarText(x, funcs);
    VarText(y, funcs);
    InfixText(p.op, Var(x), x, Var(y), y, funcs);
  }

  lemma TextCompiles(e: Expr, text: string, vars: seq<string>, funcs: set<string>)
    requires IsText(e, text, funcs)
    ensures Compile(text, vars, funcs) == Ok(([e], DeclareTree(vars, e)))
  {
    hide Compile, Writable, Show, DeclareTree;
    ParserInvertsPrinter(e, Natural, vars, funcs);
  }

  // ----- two operators in a row -----

  /** Two operators in a row: the text `x p y q z` is `(x p y) q z` when the first takes the operand between them, and
      `x p (y q z)` otherwise. An assignment to the first tree is refused. */
  lemma TwoOperators(p: Rule, q: Rule, x: string, y: string, z: string, vars: seq<string>, funcs: set<string>)
    requires p in BINARY && q in BINARY && IsWord(x) && IsWord(y) && IsWord(z)
    ensures Compile(x + p.text + y + q.text + z, vars, funcs) ==
      if FirstTakes(p, q) then
        if q.text == "=" then Fail(BadAssignment)
        else Ok(([Binary(q.op, Binary(p.op, Var(x), Var(y)), Var(z))], Declare(Declare(Declare(vars, x), y), z)))
      else Ok(([Binary(p.op, Var(x), Binary(q.op, Var(y), Var(z)))], Declare(Declare(Declare(vars, x), y), z)))
  {
    BinaryAgrees(p);
    BinaryAgrees(q);
    TakesIsBindsFirst(p, q);
    OnlyAssign(q);
    hide FirstTakes, BindsFirst, Declare, Compile, Agrees, IsWord;
    if !FirstTakes(p, q) {
      SecondTaken(p, q, x, y, z, vars, funcs);
    } else if q.text == "=" {
      TwoText(x, p, y, funcs);
      RefusedAssignment(Two(x, p, y), x + p.text + y, z, vars, funcs);
      Associative(x + p.text + y, "=", z);
    } else {
      FirstTaken(p, q, x, y, z, vars, funcs);
    }
  }

  lemma FirstTaken(p: Rule, q: Rule, x: string, y: string, z: string, vars: seq<string>, funcs: set<string>)
    requires Agrees(p) && Agrees(q) && IsWord(x) && IsWord(y) && IsWord(z)
    requires BindsFirst(q.op, p.op) && q.op != Assign
    ensures Compile(x + p.text + y + q.text + z, vars, funcs) ==
      Ok(([Binary(q.op, Two(x, p, y), Var(z))], Declare(Declare(Declare(vars, x), y), z)))
  {
    hide BindsFirst, IsWord, Declare, OpText, IsText, Compile;
    TwoText(x, p, y, funcs);
    VarText(z, funcs);
    var e := Binary(q.op, Two(x, p, y), Var(z));
    InfixText(q.op, Two(x, p, y), x + p.text + y, Var(z), z, funcs);
    TextCompiles(e, x + p.text + y + q.text + z, vars, funcs);
    assert DeclareTree(vars, e) == Declare(DeclareTree(vars, Two(x, p, y)), z);
  }

  lemma SecondTaken(p: Rule, q: Rule, x: string, y: string, z: string, vars: seq<string>, funcs: set<string>)
    requires Agrees(p) && Agrees(q) && IsWord(x) && IsWord(y) && IsWord(z)
    requires !BindsFirst(q.op, p.op)
    ensures Compile(x + p.text + y + q.text + z, vars, funcs) ==
      Ok(([Binary(p.op, Var(x), Two(y, q, z))], Declare(Declare(Declare(vars, x), y), z)))
  {
    hide BindsFirst, IsWord, Declare, OpText, IsText, Compile;
    VarText(x, funcs);
    TwoText(y, q, z, funcs);
    var e := Binary(p.op, Var(x), Two(y, q, z));
    InfixText(p.op, Var(x), x, Two(y, q, z), y + q.text + z, funcs);
    Associative(x + p.text, y + q.text, z);
    Associative(x + p.text, y, q.text);
    TextCompiles(e, x + p.text + y + q.text + z, vars, funcs);
    assert DeclareTree(vars, e) == DeclareTree(Declare(vars, x), Two(y, q, z));
  }

  /** A tree on the left of `=` that is not a variable is read whole and refused. */
  lemma RefusedAssignment(e: Expr, text: string, z: string, vars: seq<string>, funcs: set<string>)
    requires IsText(e, text, funcs) && IsWord(z)
    requires !e.Var? && (Root(e) == Unknown || BindsFirst(Assign, Root(e)))
    ensures Compile(text + ("=" + z), vars, funcs) == Fail(BadAssignment)
  {
    hide Complete, Operate, Show;
    var st := Start(vars);
    assert Stop("=" + z) && Opens(z) && OpText(Assign) == "=";
    ShowStep(e, Natural, funcs, st, "=" + z);
    var st1 := After(st, false, e);
    OperatorStep(st1, Assign, z, funcs);
    WritableIsClosable(e, Natural, funcs);
    OperateAfter(st, false, e, Assign);
    var st2 := st1.(flags := AFTER_BINARY, os := st.os + [Oper(Assign)], es := st.es + [e], noParen := false);
    VarText(z, funcs);
    NothingLeft(z);
    ShowStep(Var(z), Natural, funcs, st2, "");
    CompleteAtEnd(After(st2, false, Var(z)), funcs);
    AssignRefused(e, Var(z));
  }

  lemma AssignRefused(l: Expr, r: Expr)
    requires !l.Var?
    ensures Drain([] + [Oper(Assign)] + [], [] + [l] + [r]) == Fail(BadAssignment)
  {
    assert [] + [Oper(Assign)] + [] == [Oper(Assign)] && [] + [l] + [r] == [l, r];
  }

  /** Variables are declared in the order in which the text names them, a new one at the head of the list. */
  lemma NewVariablesComeFirst(x: string, y: string, vars: seq<string>, funcs: set<string>)
    requires IsWord(x) && IsWord(y) && x != y && x !in vars && y !in vars
    ensures Compile(x + "+" + y, vars, funcs) == Ok(([Binary(Plus, Var(x), Var(y))], [y, x] + vars))
    ensures Compile(x + "+" + x, vars, funcs) == Ok(([Binary(Plus, Var(x), Var(x))], [x] + vars))
  {
    assert Declare(vars, x) == [x] + vars && Declare([x] + vars, x) == [x] + vars;
    assert Declare([x] + vars, y) == [y, x] + vars;
    assert OpText(Plus) == "+";
    var xy, xx := Binary(Plus, Var(x), Var(y)), Binary(Plus, Var(x), Var(x));
    hide IsWord, Compile, Declare, IsText, OpText;
    VarText(x, funcs);
    VarText(y, funcs);
    InfixText(Plus, Var(x), x, Var(y), y, funcs);
    InfixText(Plus, Var(x), x, Var(x), x, funcs);
    TextCompiles(xy, x + "+" + y, vars, funcs);
    TextCompiles(xx, x + "+" + x, vars, funcs);
    assert DeclareTree(vars, xy) == Declare(Declare(vars, x), y);
    assert DeclareTree(vars, xx) == Declare(Declare(vars, x), x);
  }

  // ----- a unary operator beside another -----

  lemma UnaryBinds(u: Op, q: Op)
    requires IsUnary(u) && q != Unknown
    ensures !BindsFirst(u, q) && (IsBinary(q) ==> BindsFirst(q, u))
  {
  }

  lemma SignText(u: Prefix, x: string, funcs: set<string>)
    requires u in UNARY && IsWord(x)
    ensures IsUnary(u.op) && IsText(Unary(u.op, Var(x)), u.text + x, funcs)
  {
    UnaryAgrees(u);
    hide IsText, IsWord, OpText;
    VarText(x, funcs);
    PrefixText(u.op, Var(x), x, funcs);
  }

  /** A unary operator takes the operand after it before any binary operator does. An assignment to it is refused. */
  lemma UnaryThenBinary(u: Prefix, q: Rule, x: string, y: string, vars: seq<string>, funcs: set<string>)
    requires u in UNARY && q in BINARY && IsWord(x) && IsWord(y)
    ensures Compile(u.text + x + q.text + y, vars, funcs) ==
      if q.text == "=" then Fail(BadAssignment)
      else Ok(([Binary(q.op, Unary(u.op, Var(x)), Var(y))], Declare(Declare(vars, x), y)))
  {
    BinaryAgrees(q);
    OnlyAssign(q);
    SignText(u, x, funcs);
    UnaryBinds(u.op, q.op);
    hide IsText, IsWord, Declare, Compile, BindsFirst, Level;
    var e := Unary(u.op, Var(x));
    if q.text == "=" {
      UnaryBinds(u.op, Assign);
      RefusedAssignment(e, u.text + x, y, vars, funcs);
      Associative(u.text + x, "=", y);
    } else {
      VarText(y, funcs);
      InfixText(q.op, e, u.text + x, Var(y), y, funcs);
      TextCompiles(Binary(q.op, e, Var(y)), u.text + x + q.text + y, vars, funcs);
      assert DeclareTree(vars, e) == Declare(vars, x);
    }
  }

  /** After a binary operator a unary one starts the right operand. */
  lemma BinaryThenUnary(p: Rule, u: Prefix, x: string, y: string, vars: seq<string>, funcs: set<string>)
    requires p in BINARY && u in UNARY && IsWord(x) && IsWord(y)
    ensures Compile(x + p.text + (u.text + y), vars, funcs) ==
      Ok(([Binary(p.op, Var(x), Unary(u.op, Var(y)))], Declare(Declare(vars, x), y)))
  {
    BinaryAgrees(p);
    VarText(x, funcs);
    SignText(u, y, funcs);
    UnaryBinds(u.op, p.op);
    hide IsText, IsWord, Declare, Compile, BindsFirst, Level;
    var e := Unary(u.op, Var(y));
    InfixText(p.op, Var(x), x, e, u.text + y, funcs);
    TextCompiles(Binary(p.op, Var(x), e), x + p.text + (u.text + y), vars, funcs);
    assert DeclareTree(Declare(vars, x), e) == Declare(Declare(vars, x), y);
  }

  /** Unary operators in a row apply from the inside out. */
  lemma UnaryThenUnary(u: Prefix, v: Prefix, x: string, vars: seq<string>, funcs: set<string>)
    requires u in UNARY && v in UNARY && IsWord(x)
    ensures Compile(u.text + (v.text + x), vars, funcs) ==
      Ok(([Unary(u.op, Unary(v.op, Var(x)))], Declare(vars, x)))
  {
    UnaryAgrees(u);
    SignText(v, x, funcs);
    UnaryBinds(v.op, u.op);
    hide IsText, IsWord, Declare, OpText, Compile, BindsFirst, Level;
    var e := Unary(v.op, Var(x));
    PrefixText(u.op, e, v.text + x, funcs);
    TextCompiles(Unary(u.op, e), u.text + (v.text + x), vars, funcs);
    assert DeclareTree(vars, e) == Declare(vars, x);
  }

  // ----- calls -----

  lemma WordArgument(x: string, more: seq<Expr>)
    ensures ShowArgs([Var(x)] + more, Natural) == x + ShowMore(more, Natural)
    ensures ShowMore([Var(x)] + more, Natural) == "," + x + ShowMore(more, Natural)
  {
    var args := [Var(x)] + more;
    assert args[0] == Var(x) && args[1..] == more;
    hide ShowArgs, ShowMore;
    FirstArg(args, Natural);
  }

  lemma CallText(f: string, x: string, y: string, funcs: set<string>)
    requires IsWord(f) && f != "$" && f in funcs && IsWord(x) && IsWord(y)
    ensures IsText(Func(f, [Var(x), Var(y)]), f + "(" + x + "," + y + ")", funcs)
  {
    var args := [Var(x), Var(y)];
    assert Writable(Func(f, args), Natural, funcs);
    assert Show(Func(f, args), Natural) == f + "(" + ShowArgs(args, Natural) + ")";
    assert ShowMore([], Natural) == "";
    hide ShowArgs, ShowMore, Show, Writable, IsWord;
    WordArgument(y, []);
    WordArgument(x, [Var(y)]);
    NothingLeft([Var(y)]);
    NothingLeft("," + y);
    assert [Var(x)] + [Var(y)] == args;
    Associative(f + "(", x, "," + y);
    Associative(f + "(" + x, ",", y);
  }

  lemma EmptyCallText(f: string, funcs: set<string>)
    requires IsWord(f) && f != "$" && f in funcs
    ensures IsText(Func(f, []), f + "()", funcs)
  {
    hide IsWord;
    assert ShowArgs([], Natural) == "";
    NothingLeft(f + "(");
    Associative(f, "(", ")");
  }

  lemma TwoDeclared(f: string, x: string, y: string, vars: seq<string>)
    ensures DeclareTree(vars, Func(f, [Var(x), Var(y)])) == Declare(Declare(vars, x), y)
  {
    hide Declare;
    var args := [Var(x), Var(y)];
    assert args[1..] == [Var(y)] && args[1..][1..] == [];
    assert DeclareTrees(vars, args) == DeclareTrees(DeclareTree(vars, Var(x)), [Var(y)]);
    assert DeclareTrees(Declare(vars, x), [Var(y)]) == DeclareTrees(DeclareTree(Declare(vars, x), Var(y)), []);
  }

  /** A call of a function with two arguments, and with none. */
  lemma CallsCompile(f: string, x: string, y: string, vars: seq<string>, funcs: set<string>)
    requires IsWord(f) && f != "$" && f in funcs && IsWord(x) && IsWord(y)
    ensures Compile(f + "(" + x + "," + y + ")", vars, funcs) ==
      Ok(([Func(f, [Var(x), Var(y)])], Declare(Declare(vars, x), y)))
    ensures Compile(f + "()", vars, funcs) == Ok(([Func(f, [])], vars))
  {
    hide IsWord, IsText, Declare, Compile;
    CallText(f, x, y, funcs);
    TextCompiles(Func(f, [Var(x), Var(y)]), f + "(" + x + "," + y + ")", vars, funcs);
    TwoDeclared(f, x, y, vars);
    EmptyCallText(f, funcs);
    TextCompiles(Func(f, []), f + "()", vars, funcs);
  }

  // ----- names -----

  /** The characters of names, listed: letters, `_`, `@`, `$` and some more start a name, digits and `#` continue it. */
  lemma NameCharacters(c: char)
    ensures IsFirstVarChar(c) <==> 'a' <= c <= 'z' || 'A' <= c <= 'Z' || c in "_@$[]\\`{}~" || c as int >= 127
    ensures IsVarChar(c) <==> IsFirstVarChar(c) || c in "0123456789#"
  {
  }

  // ----- blanks, comments and lines -----

  /** White space other than the end of a line */
  const BLANK := " \t\U{0B}\U{0C}\r"

  /** Blanks between tokens do not matter, whatever has been read before them, except for one blank right after a
      unary operator, which is refused. */
  lemma BlanksStep(st: State, gap: string, rest: string, funcs: set<string>)
    requires gap != "" && forall c :: c in gap ==> c in BLANK
    requires rest != "" ==> rest[0] !in BLANK
    ensures Complete(st, gap + rest, funcs) ==
      if st.flags.unary && |gap| == 1 then Fail(BadUnary) else Complete(st, rest, funcs)
  {
    forall k | 0 <= k < |gap|
      ensures In(Blanks, (gap + rest)[k])
    {
      assert gap[k] in gap;
    }
    SpanIs(Blanks, gap + rest, |gap|);
    TokenStep(st, gap, rest, funcs);
  }

  /** A comment up to the end of its line does not matter. */
  lemma CommentStep(st: State, comment: string, rest: string, funcs: set<string>)
    requires '\n' !in comment && (rest == "" || rest[0] == '\n')
    ensures Complete(st, "#" + comment + rest, funcs) == Complete(st, rest, funcs)
  {
    SpanIs(CommentChars, "#" + comment + rest, 1 + |comment|);
    TokenStep(st, "#" + comment, rest, funcs);
  }

  lemma CommaToken(rest: string)
    ensures NextToken("," + rest, AFTER_OPERAND) == (1, AFTER_BINARY)
    ensures NextToken("," + rest, AFTER_WORD) == (1, AFTER_BINARY)
    ensures Classify(",") == Operator(Comma)
  {
    var s := "," + rest;
    assert s[..1] == ",";
    assert rest != "" ==> s[..2] == [',', rest[0]];
    assert Munch(s, 1, true) == (1, true);
    NotANumber(",");
  }

  /** Between two expressions the end of a line is a comma; elsewhere, and before the end or `)`, it does not matter. */
  lemma NewlineStep(st: State, gap: string, rest: string, funcs: set<string>)
    requires forall c :: c in gap ==> c in WHITE
    requires rest != "" ==> rest[0] !in WHITE
    requires st.flags in {DEFAULT, AFTER_OPEN, AFTER_BINARY, AFTER_OPERAND, AFTER_WORD}
    ensures Complete(st, "\n" + gap + rest, funcs) ==
      if st.flags in {AFTER_OPERAND, AFTER_WORD} && rest != "" && rest[0] != ')' then Complete(st, "," + rest, funcs)
      else Complete(st, rest, funcs)
  {
    NewlineToken(gap, rest, st.flags);
    TokenStep(st, "\n" + gap, rest, funcs);
    if st.flags in {AFTER_OPERAND, AFTER_WORD} && rest != "" && rest[0] != ')' {
      CommaToken(rest);
      TokenStep(st, ",", rest, funcs);
      assert Consume(st.(flags := AFTER_NEWLINE), "\n" + gap, funcs) ==
        Act(st.(flags := AFTER_BINARY), Operator(Comma), funcs);
    }
  }

  lemma NewlineToken(gap: string, rest: string, flags: Flags)
    requires forall c :: c in gap ==> c in WHITE
    requires rest != "" ==> rest[0] !in WHITE
    ensures NextToken("\n" + gap + rest, flags) ==
      (1 + |gap|, if !flags.top then flags
                  else if rest == "" || rest[0] == ')' then flags.(comma := false)
                  else AFTER_NEWLINE)
  {
    var s := "\n" + gap + rest;
    forall k | 0 <= k < 1 + |gap|
      ensures In(Spaces, s[k])
    {
      assert k > 0 ==> gap[k - 1] in gap;
    }
    SpanIs(Spaces, s, 1 + |gap|);
  }

  // ----- what is refused -----

  /** Two operands in a row. */
  lemma TwoWordsRefused(x: string, y: string, rest: string, vars: seq<string>, funcs: set<string>)
    requires IsWord(x) && IsWord(y)
    ensures Compile(x + (" " + (y + rest)), vars, funcs) == Fail(BadToken(-2))
  {
    var st := Start(vars);
    WordStep(st, x, " " + (y + rest), funcs);
    BlanksStep(st.(flags := AFTER_WORD, id := x), " ", y + rest, funcs);
    assert (y + rest)[0] == y[0];
  }

  /** Parentheses that do not match. */
  lemma ParensRefused(x: string, rest: string, vars: seq<string>, funcs: set<string>)
    requires IsWord(x)
    ensures Compile("(" + x, vars, funcs) == Fail(BadParens)
    ensures Compile(x + (")" + rest), vars, funcs) == Fail(BadParens)
  {
    hide Complete;
    var st := Start(vars);
    VarText(x, funcs);
    ShowStep(Var(x), Natural, funcs, st, ")" + rest);
    CloseStep(After(st, false, Var(x)), rest, funcs);
    OpenStep(st, x, funcs);
    var st1 := st.(flags := AFTER_OPEN, os := st.os + [Paren]);
    NothingLeft(x);
    ShowStep(Var(x), Natural, funcs, st1, "");
    CompleteAtEnd(After(st1, false, Var(x)), funcs);
  }

  /** A call of a name that is no function and no macro. */
  lemma UnknownFunctionRefused(f: string, rest: string, vars: seq<string>, funcs: set<string>)
    requires IsWord(f) && f != "$" && f !in funcs
    ensures Compile(f + ("(" + rest), vars, funcs) == Fail(BadFunction)
  {
    var st := Start(vars);
    WordStep(st, f, "(" + rest, funcs);
    TokenStep(st.(flags := AFTER_WORD, id := f), "(", rest, funcs);
  }
}
