/** The shunting-yard loop of `expr_create`: three stacks, a pending identifier, and macro definitions.
    `Run` is the loop as a function of the remaining text; `ExprCreate` is the loop itself.
    Source: inc/expr.h. */
module ExprParser {
  import opened Chars
  import opened Options
  import opened ExprTree
  import opened ExprLexer

  /** What waits on the operator stack. A call pushes its name and a `{` in one go and both leave
      together, so they are one entry here. */
  datatype Entry = Oper(op: Op) | Paren | Brace(name: string)

  /** A call in progress: the heights of the stacks when it was opened, and the arguments so far. */
  datatype Frame = Frame(oslen: nat, eslen: nat, args: seq<Expr>)

  /** `$(name, body...)`: the arguments of the definition, the name first. */
  datatype Macro = Macro(name: string, body: seq<Expr>)

  /** `expr_create` gives up by jumping to `cleanup`; each place has its own error here. */
  datatype Error =
    | BadToken(code: int)    // expr_next_token returned a negative number
    | BadUnary               // a blank right after a unary operator
    | BadFunction            // unknown function name
    | BadCall                // parenthesis right after an operand
    | BadName                // such as 2.3.4
    | BadParens
    | BadAssignment          // left side of = is not a variable
    | MissingOperand         // expr_bind lacks operands
    | NotAnOperator          // expr_bind met an open call
    | MacroWithoutName
    | MacroNameNotVariable

  datatype State = State(
    flags: Flags,
    noParen: bool,           // `paren` is EXPR_PAREN_FORBIDDEN
    id: string,              // the identifier held back, empty when there is none
    es: seq<Expr>,
    os: seq<Entry>,
    calls: seq<Frame>,
    macros: seq<Macro>,
    vars: seq<string>)

  /** `Underflow` is a pop from an empty vector, which the C code does not check for. */
  datatype Step<T> = Ok(value: T) | Fail(error: Error) | Underflow

  function Last<T>(s: seq<T>): T
    requires s != []
  {
    s[|s| - 1]
  }

  function Init<T>(s: seq<T>): seq<T>
    requires s != []
  {
    s[..|s| - 1]
  }

  function EntryOp(e: Entry): Op {
    if e.Oper? then e.op else Unknown
  }

  // ----- binding one operator -----

  /** `expr_bind` */
  function Bind(op: Op, es: seq<Expr>): Step<seq<Expr>> {
    if op == Unknown then Fail(NotAnOperator)
    else if IsUnary(op) then
      if |es| < 1 then Fail(MissingOperand)
      else Ok(Init(es) + [Unary(op, Last(es))])
    else if |es| < 2 then Fail(MissingOperand)
    else
      var b, a := es[|es| - 1], es[|es| - 2];
      if op == Assign && !a.Var? then Fail(BadAssignment)
      else Ok(es[..|es| - 2] + [Binary(op, a, b)])
  }

  // ----- the three loops that bind -----

  /** Before a closing parenthesis: bind down to the opening one. */
  function Unwind(os: seq<Entry>, es: seq<Expr>, minlen: nat): Step<(seq<Entry>, seq<Expr>)> {
    if |os| > minlen && os != [] && Last(os).Oper? then
      match Bind(Last(os).op, es)
      case Ok(es') => Unwind(Init(os), es', minlen)
      case Fail(e) => Fail(e)
      case Underflow => Underflow
    else Ok((os, es))
  }

  /** What an incoming operator does to the stacks. */
  datatype Shifted = Pushed(os: seq<Entry>, es: seq<Expr>) | Argument(os: seq<Entry>, es: seq<Expr>, arg: Expr)

  /** An incoming operator: bind what `expr_prec` says, then push it, unless it is a comma that ends
      a call argument. */
  function Shift(op: Op, os: seq<Entry>, es: seq<Expr>): Step<Shifted>
    decreases |os|
  {
    if op == Comma && os != [] && Last(os).Brace? then
      if es == [] then Underflow else Ok(Argument(os, Init(es), Last(es)))
    else if os != [] && EntryOp(Last(os)) != Unknown && BindsFirst(op, EntryOp(Last(os))) then
      match Bind(EntryOp(Last(os)), es)
      case Ok(es') => Shift(op, Init(os), es')
      case Fail(e) => Fail(e)
      case Underflow => Underflow
    else Ok(Pushed(os + [Oper(op)], es))
  }

  /** At the end of the input: bind everything. */
  function Drain(os: seq<Entry>, es: seq<Expr>): Step<seq<Expr>> {
    if os == [] then Ok(es)
    else if Last(os).Paren? then Fail(BadParens)
    else
      match Bind(EntryOp(Last(os)), es)
      case Ok(es') => Drain(Init(os), es')
      case Fail(e) => Fail(e)
      case Underflow => Underflow
  }

  // ----- variables and macros -----

  /** `expr_var`: a new name goes to the head of the list. */
  function Declare(vars: seq<string>, name: string): seq<string> {
    if name in vars then vars else [name] + vars
  }

  /** The text that `snprintf` leaves of `$` and the number of a parameter: two characters. */
  function ParamName(k: nat): string
    requires k > 0
  {
    if k < 10 then ['$', '0' + k as char] else ParamName(k / 10)
  }

  function Params(vars: seq<string>, from: nat, n: nat): seq<string>
    requires from > 0
    decreases n
  {
    if n == 0 then vars else Params(Declare(vars, ParamName(from)), from + 1, n - 1)
  }

  function Copy(e: Expr): Expr {
    match e
    case Const(v) => Const(v)
    case Var(x) => Var(x)
    case Unary(op, x) => Unary(op, Copy(x))
    case Binary(op, l, r) => Binary(op, Copy(l), Copy(r))
    case Func(f, args) => Func(f, CopyAll(args))
  }

  function CopyAll(es: seq<Expr>): seq<Expr> {
    if es == [] then [] else [Copy(es[0])] + CopyAll(es[1..])
  }

  /** The rest of a macro body after its name: a chain of commas that ends in the last expression. */
  function BodyChain(body: seq<Expr>): Expr {
    if body == [] then Const(0.0)
    else if |body| == 1 then Copy(body[0])
    else Binary(Comma, Copy(body[0]), BodyChain(body[1..]))
  }

  /** The tree a macro call becomes: parameters assigned in order, then the body. */
  function Splice(args: seq<Expr>, from: nat, body: seq<Expr>): Expr
    requires from > 0
    decreases |args|
  {
    if args == [] then BodyChain(body)
    else Binary(Comma, Binary(Assign, Var(ParamName(from)), args[0]), Splice(args[1..], from + 1, body))
  }

  predicate HasMacro(macros: seq<Macro>, name: string) {
    exists i :: 0 <= i < |macros| && macros[i].name == name
  }

  /** The body of the macro defined last under a name. */
  function LastMacro(macros: seq<Macro>, name: string): seq<Expr>
    requires HasMacro(macros, name)
  {
    if Last(macros).name == name then Last(macros).body else LastMacro(Init(macros), name)
  }

  // ----- one token -----

  datatype Token = LParen | RParen | Number(value: real) | Operator(op: Op) | Word(name: string) | Bad

  /** How the body of the loop tells tokens apart. */
  function Classify(tok: string): Token
    requires tok != ""
  {
    if tok == "(" then LParen
    else if tok == ")" then RParen
    else
      match ParseNumber(tok)
      case Some(v) => Number(v)
      case None =>
        if FindOp(tok, Any) != Unknown then Operator(FindOp(tok, Any))
        else if !IsDigit(tok[0]) then Word(tok)
        else Bad
  }

  /** A text that the lexer takes as one identifier. */
  predicate IsWord(x: string) {
    x != "" && IsFirstVarChar(x[0]) && forall k :: 0 <= k < |x| ==> IsVarChar(x[k])
  }

  lemma NotANumber(t: string)
    requires t != "" && t[0] != '.' && !IsDigit(t[0])
    ensures ParseNumber(t) == None
  {
  }

  lemma ClassifyWord(x: string)
    requires IsWord(x)
    ensures Classify(x) == Word(x)
  {
    NotANumber(x);
    assert FindOp(x, Any) == Unknown;
  }

  lemma ClassifyDigits(t: string)
    requires t != "" && IsDigit(t[0])
    ensures Classify(t).Number? || Classify(t).Bad?
  {
    assert FindOp(t, Any) == Unknown;
  }

  /** The identifier held back becomes a variable, or the name of a call when `(` follows. */
  function Settle(st: State): State {
    if st.id == "" then st
    else st.(es := st.es + [Var(st.id)], vars := Declare(st.vars, st.id), noParen := true, id := "")
  }

  function OpenParen(st: State, funcs: set<string>): Step<State> {
    if st.id != "" then
      if st.id == "$" || HasMacro(st.macros, st.id) || st.id in funcs then
        Ok(st.(os := st.os + [Brace(st.id)], calls := st.calls + [Frame(|st.os| + 1, |st.es|, [])],
               id := "", noParen := false))
      else Fail(BadFunction)
    else if st.noParen then Fail(BadCall)
    else Ok(st.(os := st.os + [Paren]))
  }

  /** A call is complete: define a macro, expand one, or build a function node. */
  function FinishCall(st: State, name: string, args: seq<Expr>): Step<State> {
    if name == "$" then
      if args == [] then Fail(MacroWithoutName)
      else if !args[0].Var? then Fail(MacroNameNotVariable)
      else
        var macros := if args[0].name in st.vars then st.macros + [Macro(args[0].name, args)] else st.macros;
        Ok(st.(macros := macros, es := st.es + [Const(0.0)]))
    else if HasMacro(st.macros, name) then
      var body := LastMacro(st.macros, name);
      Ok(st.(es := st.es + [Splice(args, 1, if body == [] then [] else body[1..])],
             vars := Params(st.vars, 1, |args|)))
    else Ok(st.(es := st.es + [Func(name, args)]))
  }

  function CloseParen(st: State): Step<State> {
    var minlen := if st.calls != [] then Last(st.calls).oslen else 0;
    match Unwind(st.os, st.es, minlen)
    case Fail(e) => Fail(e)
    case Underflow => Underflow
    case Ok((os, es)) =>
      if os == [] then Fail(BadParens)
      else if Last(os).Brace? then
        if st.calls == [] then Underflow
        else
          var frame := Last(st.calls);
          var more := |es| > frame.eslen;
          FinishCall(
            st.(os := Init(os), es := if more then Init(es) else es, calls := Init(st.calls), noParen := true),
            Last(os).name, if more then frame.args + [Last(es)] else frame.args)
      else Ok(st.(os := Init(os), es := es, noParen := true))
  }

  function Operate(st: State, op: Op): Step<State> {
    match Shift(op, st.os, st.es)
    case Fail(e) => Fail(e)
    case Underflow => Underflow
    case Ok(Pushed(os, es)) => Ok(st.(os := os, es := es, noParen := false))
    case Ok(Argument(os, es, arg)) =>
      if st.calls == [] then Underflow
      else
        var frame := Last(st.calls);
        Ok(st.(os := os, es := es, noParen := false,
               calls := Init(st.calls) + [frame.(args := frame.args + [arg])]))
  }

  function Act(st: State, token: Token, funcs: set<string>): Step<State> {
    if token.LParen? then OpenParen(st, funcs)
    else
      var st := Settle(st);
      match token
      case RParen => CloseParen(st)
      case Number(v) => Ok(st.(es := st.es + [Const(v)], noParen := true))
      case Operator(op) => Operate(st, op)
      case Word(x) => Ok(st.(id := x, noParen := false))
      case _ => Fail(BadName)
  }

  /** What a token text does, with its new flags already in the state. */
  function Consume(st: State, tok: string, funcs: set<string>): Step<State>
    requires tok != ""
  {
    if tok[0] == '#' then Ok(st)
    else if st.flags.unary && |tok| == 1 then
      if tok[0] == '-' then Act(st, Operator(Neg), funcs)
      else if tok[0] == '^' then Act(st, Operator(BitNot), funcs)
      else if tok[0] == '!' then Act(st, Operator(Not), funcs)
      else Fail(BadUnary)
    else if tok[0] == '\n' && st.flags.comma then
      Act(st.(flags := st.flags.(comma := false)), Operator(Comma), funcs)
    else if IsSpace(tok[0]) then Ok(st)
    else Act(st, Classify(tok), funcs)
  }

  /** The main loop over the remaining text. */
  function Run(st: State, s: string, funcs: set<string>): Step<State>
    decreases |s|
  {
    var (n, flags) := NextToken(s, st.flags);
    if n == 0 then Ok(st)
    else if n < 0 then Fail(BadToken(n))
    else
      match Consume(st.(flags := flags), s[..n], funcs)
      case Ok(st') => Run(st', s[n..], funcs)
      case Fail(e) => Fail(e)
      case Underflow => Underflow
  }

  function Start(vars: seq<string>): State {
    State(DEFAULT, false, "", [], [], [], [], vars)
  }

  /** Everything `expr_create` leaves on its operand stack, and the variables. */
  function Finish(st: State): Step<(seq<Expr>, seq<string>)> {
    var st := Settle(st);
    match Drain(st.os, st.es)
    case Ok(es) => Ok((es, st.vars))
    case Fail(e) => Fail(e)
    case Underflow => Underflow
  }

  /** The rest of a compilation: the main loop, then the end of the input. */
  function Complete(st: State, s: string, funcs: set<string>): Step<(seq<Expr>, seq<string>)> {
    match Run(st, s, funcs)
    case Ok(st) => Finish(st)
    case Fail(e) => Fail(e)
    case Underflow => Underflow
  }

  /** One turn of the main loop. */
  lemma CompleteUnfolds(st: State, s: string, funcs: set<string>)
    ensures Complete(st, s, funcs) ==
      var (n, flags) := NextToken(s, st.flags);
      if n == 0 then Finish(st)
      else if n < 0 then Fail(BadToken(n))
      else
        match Consume(st.(flags := flags), s[..n], funcs)
        case Ok(st') => Complete(st', s[n..], funcs)
        case Fail(e) => Fail(e)
        case Underflow => Underflow
  {
  }

  /** The operands and the variables left when the whole text has been read. */
  function Compile(s: string, vars: seq<string>, funcs: set<string>): Step<(seq<Expr>, seq<string>)> {
    Complete(Start(vars), s, funcs)
  }
}
