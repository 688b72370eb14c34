/** Macros from the text on: what a definition and a call compile to, and what the two together mean.
    Source: inc/expr.h. */
module ExprMacros {
  import opened ExprTree
  import opened ExprLexer
  import opened ExprParser
  import opened ExprRoundTrip
  import opened Sequences
  import ExprEval

  /** The text of a call, whatever it calls. */
  function ShowCall(f: string, args: seq<Expr>, lit: real -> string): string {
    f + ("(" + (ShowArgs(args, lit) + ")"))
  }

  /** `$(name, body...)` */
  function ShowDefinition(name: string, body: seq<Expr>, lit: real -> string): string {
    ShowCall("$", [Var(name)] + body, lit)
  }

  lemma CallText(f: string, args: seq<Expr>, lit: real -> string, rest: string)
    ensures ShowCall(f, args, lit) + rest == f + ("(" + (ShowArgs(args, lit) + (")" + rest)))
  {
    var text := ShowArgs(args, lit);
    hide ShowArgs;
    Associative(f, "(" + (text + ")"), rest);
    Associative("(", text + ")", rest);
    Associative(text, ")", rest);
  }

  lemma {:induction false} DeclaredStays(vars: seq<string>, e: Expr, x: string)
    requires x in vars
    ensures x in DeclareTree(vars, e)
    decreases e, 0
  {
    match e
    case Const(_) =>
    case Var(_) =>
    case Unary(_, y) => DeclaredStays(vars, y, x);
    case Binary(_, l, r) =>
      DeclaredStays(vars, l, x);
      DeclaredStays(DeclareTree(vars, l), r, x);
    case Func(_, args) => DeclaredStaysAll(vars, args, x);
  }

  lemma {:induction false} DeclaredStaysAll(vars: seq<string>, es: seq<Expr>, x: string)
    requires x in vars
    ensures x in DeclareTrees(vars, es)
    decreases es, 0
  {
    if es != [] {
      DeclaredStays(vars, es[0], x);
      DeclaredStaysAll(DeclareTree(vars, es[0]), es[1..], x);
    }
  }

  /** Compiling a definition adds the macro, declares what the body names, and leaves the constant 0. */
  lemma DefinitionStep(
      name: string, body: seq<Expr>, lit: real -> string, funcs: set<string>, st: State, rest: string)
    requires IsWord(name) && forall b :: b in body ==> Writable(b, lit, funcs)
    requires Ready(st) && Unshadowed(st.macros, funcs)
    ensures Complete(st, ShowDefinition(name, body, lit) + rest, funcs) ==
      Complete(Called(st).(vars := DeclareTrees(Declare(st.vars, name), body),
                           macros := st.macros + [Macro(name, [Var(name)] + body)],
                           es := st.es + [Const(0.0)]), rest, funcs)
  {
    var args := [Var(name)] + body;
    CallText("$", args, lit, rest);
    DeclaredStaysAll(Declare(st.vars, name), body, name);
    assert args[0] == Var(name) && args[1..] == body;
    assert DeclareTrees(st.vars, args) == DeclareTrees(Declare(st.vars, name), body);
    hide Complete, ShowArgs, DeclareTrees;
    CalledStep("$", args, lit, funcs, st, rest);
  }

  /** A definition without a name, or with anything but a name in its place, is refused. */
  lemma NoNameRefused(args: seq<Expr>, lit: real -> string, funcs: set<string>, st: State, rest: string)
    requires args == [] || !args[0].Var?
    requires (forall a :: a in args ==> Writable(a, lit, funcs)) && Ready(st) && Unshadowed(st.macros, funcs)
    ensures Complete(st, ShowCall("$", args, lit) + rest, funcs) ==
      Fail(if args == [] then MacroWithoutName else MacroNameNotVariable)
  {
    CallText("$", args, lit, rest);
    hide Complete, ShowArgs, DeclareTrees;
    CalledStep("$", args, lit, funcs, st, rest);
  }

  /** Of the definitions under one name the last one counts, and those under other names do not. */
  lemma LastDefinitionCounts(macros: seq<Macro>, name: string, other: string, body: seq<Expr>)
    ensures HasMacro(macros + [Macro(name, body)], name) && LastMacro(macros + [Macro(name, body)], name) == body
    ensures other != name ==>
      && (HasMacro(macros + [Macro(name, body)], other) <==> HasMacro(macros, other))
      && (HasMacro(macros, other) ==> LastMacro(macros + [Macro(name, body)], other) == LastMacro(macros, other))
  {
    var all := macros + [Macro(name, body)];
    assert all[|macros|] == Macro(name, body) && Init(all) == macros;
    assert forall i :: 0 <= i < |macros| ==> all[i] == macros[i];
  }

  /** Compiling a call of a macro puts the spliced tree on the stack and declares its parameters. */
  lemma MacroStep(
      name: string, args: seq<Expr>, lit: real -> string, funcs: set<string>, st: State, rest: string)
    requires IsWord(name) && name != "$" && HasMacro(st.macros, name)
    requires (forall a :: a in args ==> Writable(a, lit, funcs)) && Ready(st) && Unshadowed(st.macros, funcs)
    ensures
      var body := LastMacro(st.macros, name);
      Complete(st, ShowCall(name, args, lit) + rest, funcs) ==
        Complete(Called(st).(vars := Params(DeclareTrees(st.vars, args), 1, |args|),
                             es := st.es + [Splice(args, 1, if body == [] then [] else body[1..])]), rest, funcs)
  {
    hide Complete, ShowArgs, DeclareTrees;
    CallText(name, args, lit, rest);
    CalledStep(name, args, lit, funcs, st, rest);
  }

  /** The tree that a definition followed by a call compiles to. */
  function Defined(args: seq<Expr>, body: seq<Expr>): Expr {
    Binary(Comma, Const(0.0), Splice(args, 1, body))
  }

  lemma CommaAfterDefinition(st: State, rest: string, funcs: set<string>)
    requires st.flags == AFTER_OPERAND && st.id == "" && st.os == [] && Opens(rest)
    ensures Complete(st, OpText(Comma) + rest, funcs) ==
      Complete(st.(flags := AFTER_BINARY, os := [Oper(Comma)], noParen := false), rest, funcs)
  {
    hide Complete;
    OperatorStep(st, Comma, rest, funcs);
    assert st.os + [Oper(Comma)] == [Oper(Comma)];
  }

  /** A macro that is defined and then called: the text compiles, and evaluating it assigns the arguments
      to the parameters from left to right, evaluates the body in order and yields its last value. */
  lemma MacroTextMeans(
      name: string, body: seq<Expr>, args: seq<Expr>, lit: real -> string, vars: seq<string>, funcs: set<string>,
      m: ExprEval.Machine, store: ExprEval.Store)
    requires IsWord(name) && name != "$" && name !in funcs
    requires forall e :: e in body || e in args ==> Writable(e, lit, funcs)
    ensures
      var declared := DeclareTrees(DeclareTrees(Declare(vars, name), body), args);
      Compile(ShowDefinition(name, body, lit) + ("," + ShowCall(name, args, lit)), vars, funcs) ==
        Ok(([Defined(args, body)], Params(declared, 1, |args|)))
    ensures ExprEval.Eval(Defined(args, body), m, store) ==
      ExprEval.InOrder(body, m, ExprEval.Assigned(args, m, store))
  {
    MacroTextCompiles(name, body, args, lit, vars, funcs);
    ExprEval.MacroCallMeans(args, body, m, store);
    ExprEval.CommaEvaluates(Const(0.0), Splice(args, 1, body), m, store);
  }

  lemma MacroTextCompiles(
      name: string, body: seq<Expr>, args: seq<Expr>, lit: real -> string, vars: seq<string>, funcs: set<string>)
    requires IsWord(name) && name != "$" && name !in funcs
    requires forall e :: e in body || e in args ==> Writable(e, lit, funcs)
    ensures
      var declared := DeclareTrees(DeclareTrees(Declare(vars, name), body), args);
      Compile(ShowDefinition(name, body, lit) + ("," + ShowCall(name, args, lit)), vars, funcs) ==
        Ok(([Defined(args, body)], Params(declared, 1, |args|)))
  {
    hide Complete, ShowCall, ShowDefinition, DeclareTrees, Declare, Params, Opens;
    CallOpens(name, args, lit);
    DefinitionFirst(name, body, lit, vars, funcs, ShowCall(name, args, lit));
    CallAtEnd(AfterDefinition(name, body, vars), name, body, args, lit, funcs);
  }

  lemma CallOpens(name: string, args: seq<Expr>, lit: real -> string)
    requires IsWord(name)
    ensures Opens(ShowCall(name, args, lit))
  {
    hide ShowArgs;
  }

  /** The state when the text has started with a definition and a comma. */
  function AfterDefinition(name: string, body: seq<Expr>, vars: seq<string>): State {
    State(AFTER_BINARY, false, "", [Const(0.0)], [Oper(Comma)], [], [Macro(name, [Var(name)] + body)],
          DeclareTrees(Declare(vars, name), body))
  }

  lemma DefinitionFirst(
      name: string, body: seq<Expr>, lit: real -> string, vars: seq<string>, funcs: set<string>, rest: string)
    requires IsWord(name) && (forall b :: b in body ==> Writable(b, lit, funcs)) && Opens(rest)
    ensures Compile(ShowDefinition(name, body, lit) + ("," + rest), vars, funcs) ==
      Complete(AfterDefinition(name, body, vars), rest, funcs)
  {
    hide Complete, ShowDefinition, DeclareTrees, Declare, Opens;
    DefinitionStep(name, body, lit, funcs, Start(vars), "," + rest);
    var macro := Macro(name, [Var(name)] + body);
    assert [] + [macro] == [macro] && [] + [Const(0.0)] == [Const(0.0)];
    var st := Called(Start(vars)).(vars := DeclareTrees(Declare(vars, name), body), macros := [macro], es := [Const(0.0)]);
    CommaAfterDefinition(st, rest, funcs);
  }

  lemma CallAtEnd(
      st: State, name: string, body: seq<Expr>, args: seq<Expr>, lit: real -> string, funcs: set<string>)
    requires IsWord(name) && name != "$" && name !in funcs && forall e :: e in args ==> Writable(e, lit, funcs)
    requires Ready(st) && st.macros == [Macro(name, [Var(name)] + body)]
    requires st.os == [Oper(Comma)] && st.es == [Const(0.0)]
    ensures Complete(st, ShowCall(name, args, lit), funcs) ==
      Ok(([Defined(args, body)], Params(DeclareTrees(st.vars, args), 1, |args|)))
  {
    hide Complete, ShowCall, DeclareTrees, Params, Splice;
    assert st.macros[0].name == name;
    assert ([Var(name)] + body)[1..] == body;
    assert ShowCall(name, args, lit) + "" == ShowCall(name, args, lit);
    MacroStep(name, args, lit, funcs, st, "");
    var st' := Called(st).(vars := Params(DeclareTrees(st.vars, args), 1, |args|), es := st.es + [Splice(args, 1, body)]);
    CompleteAtEnd(st', funcs);
    DefinitionDrains(args, body);
  }

  lemma DefinitionDrains(args: seq<Expr>, body: seq<Expr>)
    ensures Drain([Oper(Comma)], [Const(0.0)] + [Splice(args, 1, body)]) == Ok([Defined(args, body)])
  {
    hide Splice;
    var es := [Const(0.0)] + [Splice(args, 1, body)];
    assert es[..0] + [Defined(args, body)] == [Defined(args, body)];
    assert Bind(Comma, es) == Ok([Defined(args, body)]);
    assert Init([Oper(Comma)]) == [];
  }
}
