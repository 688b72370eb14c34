/** `expr_create` in its own form: three growing vectors changed in place by nested loops. Every method
    is tied to the function of ExprParser that says what it does. Source: inc/expr.h. */
module ExprCreate {
  import opened Chars
  import opened ExprTree
  import opened ExprLexer
  import opened ExprParser

  class Compiler {
    var flags: Flags
    var noParen: bool
    var id: string
    var es: seq<Expr>
    var os: seq<Entry>
    var calls: seq<Frame>
    var macros: seq<Macro>
    var vars: seq<string>

    ghost function View(): State
      reads this
    {
      State(flags, noParen, id, es, os, calls, macros, vars)
    }

    constructor (vars: seq<string>)
      ensures View() == Start(vars)
    {
      this.flags, noParen, id := DEFAULT, false, "";
      es, os, calls, macros := [], [], [], [];
      this.vars := vars;
    }

    /** `expr_bind` */
    method BindOp(op: Op) returns (r: Step<()>)
      modifies `es
      ensures r.Ok? ==> Bind(op, old(es)) == Ok(es)
      ensures r.Fail? ==> Bind(op, old(es)) == Fail(r.error)
      ensures !r.Underflow?
    {
      if op == Unknown {
        return Fail(NotAnOperator);
      }
      if IsUnary(op) {
        if |es| < 1 {
          return Fail(MissingOperand);
        }
        var arg := Last(es);
        es := Init(es);
        es := es + [Unary(op, arg)];
      } else {
        if |es| < 2 {
          return Fail(MissingOperand);
        }
        var b := Last(es);
        es := Init(es);
        var a := Last(es);
        es := Init(es);
        assert es == old(es)[..|old(es)| - 2];
        if op == Assign && !a.Var? {
          return Fail(BadAssignment);
        }
        es := es + [Binary(op, a, b)];
      }
      return Ok(());
    }

    /** The loop before a closing parenthesis. */
    method UnwindTo(minlen: nat) returns (r: Step<()>)
      modifies `es, `os
      ensures r.Ok? ==> Unwind(old(os), old(es), minlen) == Ok((os, es))
      ensures r.Fail? ==> Unwind(old(os), old(es), minlen) == Fail(r.error)
      ensures !r.Underflow?
    {
      while |os| > minlen && Last(os).Oper?
        invariant Unwind(os, es, minlen) == Unwind(old(os), old(es), minlen)
        decreases |os|
      {
        var top := Last(os).op;
        os := Init(os);
        r := BindOp(top);
        if !r.Ok? {
          return;
        }
      }
      return Ok(());
    }

    /** The loop of an incoming operator. */
    method ShiftOp(op: Op) returns (r: Step<()>)
      modifies `es, `os, `calls
      ensures r.Ok? ==> Operate(old(View()), op) == Ok(View().(noParen := false))
      ensures r.Fail? ==> Operate(old(View()), op) == Fail(r.error)
      ensures r.Underflow? ==> Operate(old(View()), op) == Underflow
    {
      while true
        invariant calls == old(calls)
        invariant Shift(op, os, es) == Shift(op, old(os), old(es))
        decreases |os|
      {
        if op == Comma && |os| > 0 && Last(os).Brace? {
          if es == [] || calls == [] {
            return Underflow;
          }
          var arg := Last(es);
          es := Init(es);
          var frame := Last(calls);
          calls := Init(calls) + [frame.(args := frame.args + [arg])];
          return Ok(());
        }
        var type2 := if |os| > 0 then EntryOp(Last(os)) else Unknown;
        if !(type2 != Unknown && BindsFirst(op, type2)) {
          os := os + [Oper(op)];
          return Ok(());
        }
        r := BindOp(type2);
        if !r.Ok? {
          return;
        }
        os := Init(os);
      }
    }

    /** The loop at the end of the input. */
    method DrainAll() returns (r: Step<()>)
      modifies `es, `os
      ensures r.Ok? ==> Drain(old(os), old(es)) == Ok(es)
      ensures r.Fail? ==> Drain(old(os), old(es)) == Fail(r.error)
      ensures !r.Underflow?
    {
      while |os| > 0
        invariant Drain(os, es) == Drain(old(os), old(es))
        decreases |os|
      {
        var rest := Last(os);
        os := Init(os);
        if rest.Paren? {
          return Fail(BadParens);
        }
        r := BindOp(EntryOp(rest));
        if !r.Ok? {
          return;
        }
      }
      return Ok(());
    }

    /** `expr_var` */
    method DeclareVar(name: string)
      modifies `vars
      ensures vars == Declare(old(vars), name)
    {
      var i := 0;
      while i < |vars|
        invariant i <= |vars|
        invariant forall k :: 0 <= k < i ==> vars[k] != name
      {
        if vars[i] == name {
          return;
        }
        i := i + 1;
      }
      vars := [name] + vars;
    }

    method SettleId()
      modifies `es, `vars, `noParen, `id
      ensures View() == Settle(old(View()))
    {
      if id != "" {
        DeclareVar(id);
        es := es + [Var(id)];
        noParen := true;
      }
      id := "";
    }

    /** The macro defined last under a name: the search runs over all of them. */
    method FindMacro(name: string) returns (found: int)
      ensures -1 <= found < |macros|
      ensures found == -1 <==> !HasMacro(macros, name)
      ensures found >= 0 ==> macros[found].body == LastMacro(macros, name)
    {
      found := -1;
      var i := 0;
      while i < |macros|
        invariant 0 <= i <= |macros| && -1 <= found < i
        invariant found == -1 <==> !HasMacro(macros[..i], name)
        invariant found >= 0 ==> macros[found].body == LastMacro(macros[..i], name)
      {
        assert Init(macros[..i + 1]) == macros[..i] && Last(macros[..i + 1]) == macros[i];
        if macros[i].name == name {
          found := i;
        }
        i := i + 1;
      }
      assert macros[..i] == macros;
    }

    method DeclareParams(n: nat)
      modifies `vars
      ensures vars == Params(old(vars), 1, n)
    {
      var j := 0;
      while j < n
        invariant 0 <= j <= n
        invariant Params(vars, j + 1, n - j) == Params(old(vars), 1, n)
      {
        DeclareVar(ParamName(j + 1));
        j := j + 1;
      }
    }

    method CompleteCall(name: string, args: seq<Expr>) returns (r: Step<()>)
      modifies `es, `vars, `macros
      ensures r.Ok? ==> FinishCall(old(View()), name, args) == Ok(View())
      ensures r.Fail? ==> FinishCall(old(View()), name, args) == Fail(r.error)
      ensures !r.Underflow?
    {
      if name == "$" {
        if |args| < 1 {
          return Fail(MacroWithoutName);
        }
        var u := args[0];
        if !u.Var? {
          return Fail(MacroNameNotVariable);
        }
        if u.name in vars {
          macros := macros + [Macro(u.name, args)];
        }
        es := es + [Const(0.0)];
      } else {
        var found := FindMacro(name);
        if found != -1 {
          var body := macros[found].body;
          es := es + [Splice(args, 1, if body == [] then [] else body[1..])];
          DeclareParams(|args|);
        } else {
          es := es + [Func(name, args)];
        }
      }
      return Ok(());
    }

    method Close() returns (r: Step<()>)
      modifies this
      ensures r.Ok? ==> CloseParen(old(View())) == Ok(View())
      ensures r.Fail? ==> CloseParen(old(View())) == Fail(r.error)
      ensures r.Underflow? ==> CloseParen(old(View())) == Underflow
    {
      var minlen := if |calls| > 0 then Last(calls).oslen else 0;
      r := UnwindTo(minlen);
      if !r.Ok? {
        return;
      }
      if |os| == 0 {
        return Fail(BadParens);
      }
      var top := Last(os);
      os := Init(os);
      noParen := true;
      if top.Brace? {
        if |calls| == 0 {
          return Underflow;
        }
        var arg := Last(calls);
        calls := Init(calls);
        var args := arg.args;
        if |es| > arg.eslen {
          args := args + [Last(es)];
          es := Init(es);
        }
        r := CompleteCall(top.name, args);
      }
    }

    method Open(funcs: set<string>) returns (r: Step<()>)
      modifies this
      ensures r.Ok? ==> OpenParen(old(View()), funcs) == Ok(View())
      ensures r.Fail? ==> OpenParen(old(View()), funcs) == Fail(r.error)
      ensures !r.Underflow?
    {
      if id != "" {
        var found := FindMacro(id);
        if id == "$" || found != -1 || id in funcs {
          os := os + [Brace(id)];
          calls := calls + [Frame(|os|, |es|, [])];
          id := "";
          noParen := false;
        } else {
          return Fail(BadFunction);
        }
      } else if noParen {
        return Fail(BadCall);
      } else {
        os := os + [Paren];
      }
      return Ok(());
    }

    /** The body of the main loop for a token that is neither a blank nor a comment. */
    method ActOn(token: Token, funcs: set<string>) returns (r: Step<()>)
      modifies this
      ensures r.Ok? ==> Act(old(View()), token, funcs) == Ok(View())
      ensures r.Fail? ==> Act(old(View()), token, funcs) == Fail(r.error)
      ensures r.Underflow? ==> Act(old(View()), token, funcs) == Underflow
    {
      if token.LParen? {
        r := Open(funcs);
        return;
      }
      SettleId();
      match token {
        case RParen =>
          r := Close();
        case Number(v) =>
          es := es + [Const(v)];
          noParen := true;
          return Ok(());
        case Operator(op) =>
          r := ShiftOp(op);
          noParen := false;
        case Word(x) =>
          id := x;
          noParen := false;
          return Ok(());
        case _ =>
          return Fail(BadName);
      }
    }

    method ConsumeToken(tok: string, funcs: set<string>) returns (r: Step<()>)
      requires tok != ""
      modifies this
      ensures r.Ok? ==> Consume(old(View()), tok, funcs) == Ok(View())
      ensures r.Fail? ==> Consume(old(View()), tok, funcs) == Fail(r.error)
      ensures r.Underflow? ==> Consume(old(View()), tok, funcs) == Underflow
    {
      if tok[0] == '#' {
        return Ok(());
      }
      if flags.unary && |tok| == 1 {
        match tok[0] {
          case '-' => r := ActOn(Operator(Neg), funcs);
          case '^' => r := ActOn(Operator(BitNot), funcs);
          case '!' => r := ActOn(Operator(Not), funcs);
          case _ => r := Fail(BadUnary);
        }
        return;
      }
      if tok[0] == '\n' && flags.comma {
        flags := flags.(comma := false);
        r := ActOn(Operator(Comma), funcs);
        return;
      }
      if IsSpace(tok[0]) {
        return Ok(());
      }
      var token := ClassifyToken(tok);
      r := ActOn(token, funcs);
    }

    /** How the body of the loop tells tokens apart, test by test. */
    static method ClassifyToken(tok: string) returns (token: Token)
      requires tok != ""
      ensures token == Classify(tok)
    {
      if tok == "(" {
        return LParen;
      } else if tok == ")" {
        return RParen;
      }
      var num := ExprParseNumber(tok);
      if num.Some? {
        return Number(num.value);
      }
      var op := ExprOp(tok, Any);
      if op != Unknown {
        return Operator(op);
      } else if !IsDigit(tok[0]) {
        return Word(tok);
      } else {
        return Bad;
      }
    }
  }

  /** `expr_create`: the trees left on the operand stack and the variables. The result proper is the
      last tree, or the constant 0 when there is none. */
  method ExprCreate(s: string, vars: seq<string>, funcs: set<string>)
    returns (r: Step<(seq<Expr>, seq<string>)>)
    ensures r == Compile(s, vars, funcs)
  {
    hide Complete, NextToken, Consume;
    var c := new Compiler(vars);
    var p := 0;
    while true
      invariant 0 <= p <= |s|
      invariant fresh(c)
      invariant Complete(c.View(), s[p..], funcs) == Compile(s, vars, funcs)
      decreases |s| - p
    {
      CompleteUnfolds(c.View(), s[p..], funcs);
      var n, flags := ExprNextToken(s[p..], c.flags);
      if n == 0 {
        break;
      } else if n < 0 {
        return Fail(BadToken(n));
      }
      var tok := s[p..p + n];
      assert s[p..][..n] == tok && s[p..][n..] == s[p + n..];
      p := p + n;
      c.flags := flags;
      var ok := c.ConsumeToken(tok, funcs);
      match ok {
        case Ok(_) =>
        case Fail(e) => return Fail(e);
        case Underflow => return Underflow;
      }
    }
    c.SettleId();
    var ok := c.DrainAll();
    match ok {
      case Ok(_) => return Ok((c.es, c.vars));
      case Fail(e) => return Fail(e);
      case Underflow => return Underflow;
    }
  }
}
