/** No text does with fewer parentheses: whatever compiles to a tree opens at least as many as the
    printer writes. Source: inc/expr.h. */
module ExprMinimal {
  import opened Chars
  import opened Counts
  import opened ExprTree
  import opened ExprLexer
  import opened ExprParser
  import opened ExprRoundTrip
  import opened ExprDiscipline
  import opened Sequences

  /** The tokens `(` of a text: those in comments are none. */
  function Opening(s: string): nat
    decreases |s|
  {
    if s == "" then 0
    else if s[0] == '#' then Opening(s[Span(CommentChars, s)..])
    else if IsFirstVarChar(s[0]) then Opening(s[Span(WordChars, s)..])
    else One(s[0] == '(') + Opening(s[1..])
  }

  /** A character that is a token of its own or a part of a blank, a number or an operator */
  predicate IsOther(c: char) {
    c != '#' && c != '(' && !IsFirstVarChar(c)
  }

  lemma {:induction false} SkipOthers(s: string, n: nat)
    requires n <= |s| && forall k :: 0 <= k < n ==> IsOther(s[k])
    ensures Opening(s) == Opening(s[n..])
    decreases n
  {
    if n > 0 {
      SkipOthers(s[1..], n - 1);
      assert s[1..][n - 1..] == s[n..];
    }
  }

  /** One turn of the lexer */
  lemma OpeningSplits(s: string, flags: Flags)
    requires NextToken(s, flags).0 > 0
    ensures Opening(s) == One(s[0] == '(') + Opening(s[NextToken(s, flags).0..])
  {
    if s[0] == '#' || IsFirstVarChar(s[0]) {
      SpansRead(s, flags);
    } else if s[0] == '(' || s[0] == ')' {
      assert NextToken(s, flags).0 == 1 by {
        hide Munch, FindOp, Span;
      }
      hide NextToken;
    } else {
      OthersIn(s, flags);
      hide NextToken, Opening;
      SkipOthers(s, NextToken(s, flags).0);
    }
  }

  lemma SpansRead(s: string, flags: Flags)
    requires NextToken(s, flags).0 > 0 && (s[0] == '#' || IsFirstVarChar(s[0]))
    ensures Opening(s) == Opening(s[NextToken(s, flags).0..])
  {
    hide Munch, FindOp, Span;
  }

  lemma OthersIn(s: string, flags: Flags)
    requires NextToken(s, flags).0 > 0 && s[0] != '(' && s[0] != ')' && s[0] != '#' && !IsFirstVarChar(s[0])
    ensures forall k :: 0 <= k < NextToken(s, flags).0 ==> IsOther(s[k])
  {
    if !IsSpace(s[0]) && !IsDigit(s[0]) {
      MunchReadsOpChars(s, 0, false);
    }
    hide Munch, FindOp;
  }

  // ----- how many a tree is written with -----

  function Parens(e: Expr): nat
    decreases e, 0
  {
    match e
    case Unary(op, x) => Parens(x) + One(ParensRight(op, x))
    case Binary(op, l, r) => Parens(l) + One(ParensLeft(op, l)) + Parens(r) + One(ParensRight(op, r))
    case Func(_, args) => 1 + ParensAll(args)
    case _ => 0
  }

  /** The arguments of a call */
  function ParensAll(args: seq<Expr>): nat
    decreases args, 0
  {
    if args == [] then 0 else Parens(args[0]) + One(Root(args[0]) == Comma) + ParensAll(args[1..])
  }

  lemma {:induction false} ParensAppend(args: seq<Expr>, a: Expr)
    ensures ParensAll(args + [a]) == ParensAll(args) + Parens(a) + One(Root(a) == Comma)
    decreases |args|
  {
    if args == [] {
      assert args + [a] == [a];
    } else {
      assert (args + [a])[1..] == args[1..] + [a];
      ParensAppend(args[1..], a);
    }
  }

  // ----- what the stacks owe -----

  /** The parentheses that the trees and the open entries on the stacks stand for, the topmost operand not
      among them. An operand with an operator above it is the left operand of that operator. */
  function Debt(os: seq<Entry>, es: seq<Expr>, calls: seq<Frame>): nat
    decreases |os|
  {
    if os == [] then 0
    else
      match Last(os)
      case Oper(op) =>
        if !IsBinary(op) then Debt(Init(os), es, calls)
        else if es == [] then 0
        else Parens(Last(es)) + One(ParensLeft(op, Last(es))) + Debt(Init(os), Init(es), calls)
      case Paren => 1 + Debt(Init(os), es, calls)
      case Brace(_) =>
        if calls == [] then 0 else 1 + ParensAll(Last(calls).args) + Debt(Init(os), es, Init(calls))
  }

  /** The topmost operand: between two turns it is a leaf, a call, or a tree in parentheses. */
  function Owed(t: Expr): nat {
    Parens(t) + One(Root(t) != Unknown)
  }

  function Owes(os: seq<Entry>, es: seq<Expr>, calls: seq<Frame>): nat {
    if |es| > Binaries(os) then Debt(os, Init(es), calls) + Owed(Last(es)) else Debt(os, es, calls)
  }

  /** The operator may wait on top of the stack. */
  predicate FitsOp(os: seq<Entry>, op: Op) {
    os != [] ==>
      && (EntryOp(Last(os)) != Unknown ==> !BindsFirst(op, EntryOp(Last(os))))
      && (Last(os).Brace? ==> op != Comma)
  }

  /** Every waiting operator fits on what is below it. */
  predicate Ordered(os: seq<Entry>) {
    os != [] ==> (Last(os).Oper? ==> FitsOp(Init(os), Last(os).op)) && Ordered(Init(os))
  }

  /** So many opening parentheses have been read, and no macro has been defined. */
  predicate Paid(st: State, n: nat) {
    && st.macros == [] && Ordered(st.os)
    && n >= Owes(st.os, Settle(st).es, st.calls)
  }

  // ----- binding one operator -----

  lemma FitsIff(os: seq<Entry>, e: Expr)
    ensures Fits(os, e) <==> Root(e) == Unknown || FitsOp(os, Root(e))
  {
    hide BindsFirst, Root;
  }

  /** A right operand that needs parentheses does not fit without. */
  lemma NeedsRight(os: seq<Entry>, r: Expr)
    requires os != [] && Last(os).Oper? && Last(os).op != Unknown
    ensures One(ParensRight(Last(os).op, r)) <= One(!Fits(os, r))
  {
    hide BindsFirst, Root;
  }

  lemma BinaryBound(op: Op, es: seq<Expr>)
    requires IsBinary(op) && |es| >= 2
    ensures
      var bound := Bind(op, es);
      bound.Ok? ==>
        && bound.value != [] && Init(bound.value) == Init(Init(es))
        && Last(bound.value) == Binary(op, Last(Init(es)), Last(es))
  {
    assert Init(es)[|es| - 2] == es[|es| - 2] && Init(Init(es)) == es[..|es| - 2];
    assert Init(es[..|es| - 2] + [Binary(op, es[|es| - 2], es[|es| - 1])]) == es[..|es| - 2];
  }

  lemma UnaryBound(op: Op, es: seq<Expr>)
    requires IsUnary(op) && es != []
    ensures
      var bound := Bind(op, es);
      bound.Ok? && bound.value != [] && Init(bound.value) == Init(es) && Last(bound.value) == Unary(op, Last(es))
  {
    assert Init(Init(es) + [Unary(op, Last(es))]) == Init(es);
  }

  lemma BinaryDebt(os: seq<Entry>, es: seq<Expr>, calls: seq<Frame>)
    requires os != [] && Last(os).Oper? && IsBinary(Last(os).op) && es != []
    ensures Debt(os, es, calls) ==
      Parens(Last(es)) + One(ParensLeft(Last(os).op, Last(es))) + Debt(Init(os), Init(es), calls)
  {
    hide Parens, ParensLeft, IsBinary;
  }

  /** An operator that waits on the stack, bound with an operand that is paid for, makes an operand that
      fits and is paid for. */
  lemma BindPays(os: seq<Entry>, es: seq<Expr>, calls: seq<Frame>, d: nat)
    requires os != [] && Last(os).Oper? && Last(os).op != Unknown && Ordered(os)
    requires |es| >= 1 + One(IsBinary(Last(os).op))
    requires d >= Debt(os, Init(es), calls) + Parens(Last(es)) + One(!Fits(os, Last(es)))
    ensures
      var bound := Bind(Last(os).op, es);
      bound.Ok? ==>
        && bound.value != [] && Root(Last(bound.value)) == Last(os).op
        && Fits(Init(os), Last(bound.value))
        && d >= Debt(Init(os), Init(bound.value), calls) + Parens(Last(bound.value))
  {
    var op := Last(os).op;
    NeedsRight(os, Last(es));
    if IsBinary(op) {
      BinaryBound(op, es);
      BinaryDebt(os, Init(es), calls);
      FitsIff(Init(os), Binary(op, Last(Init(es)), Last(es)));
    } else {
      UnaryBound(op, es);
      FitsIff(Init(os), Unary(op, Last(es)));
    }
    hide Bind, Fits, FitsOp, ParensLeft, ParensRight, BindsFirst;
  }

  lemma {:induction false} UnwindPays(os: seq<Entry>, es: seq<Expr>, calls: seq<Frame>, minlen: nat, d: nat)
    requires |es| == Binaries(os) + 1 && KnownOperators(os) && Ordered(os)
    requires d >= Debt(os, Init(es), calls) + Parens(Last(es)) + One(!Fits(os, Last(es)))
    requires Unwind(os, es, minlen).Ok?
    ensures
      var (os', es') := Unwind(os, es, minlen).value;
      && es' != [] && Ordered(os')
      && d >= Debt(os', Init(es'), calls) + Parens(Last(es')) + One(!Fits(os', Last(es')))
    decreases |os|
  {
    if |os| > minlen && os != [] && Last(os).Oper? {
      BindPays(os, es, calls, d);
      BindCounts(Last(os).op, es);
      hide Debt, Fits, Bind, Parens;
      UnwindPays(Init(os), Bind(Last(os).op, es).value, calls, minlen, d);
    }
  }

  lemma {:induction false} DrainPays(os: seq<Entry>, es: seq<Expr>, calls: seq<Frame>, d: nat)
    requires |es| == Binaries(os) + 1 && KnownOperators(os) && Ordered(os)
    requires d >= Debt(os, Init(es), calls) + Parens(Last(es)) + One(!Fits(os, Last(es)))
    requires Drain(os, es).Ok?
    ensures |Drain(os, es).value| == 1 && d >= Parens(Drain(os, es).value[0])
    decreases |os|
  {
    if os != [] {
      BindPays(os, es, calls, d);
      BindCounts(Last(os).op, es);
      hide Debt, Fits, Parens;
      DrainPays(Init(os), Bind(Last(os).op, es).value, calls, d);
    }
  }

  /** What an incoming operator leaves. */
  predicate ShiftedPaid(r: Step<Shifted>, calls: seq<Frame>, d: nat) {
    match r
    case Ok(Pushed(os, es)) => Ordered(os) && d >= Debt(os, es, calls)
    case Ok(Argument(os, es, a)) =>
      Ordered(os) && d >= Debt(os, es, calls) + Parens(a) + One(Root(a) == Comma)
    case _ => true
  }

  lemma FailurePaid(calls: seq<Frame>, d: nat)
    ensures ShiftedPaid(Fail(BadAssignment), calls, d)
  {
  }

  lemma PushPays(op: Op, os: seq<Entry>, es: seq<Expr>, calls: seq<Frame>, d: nat)
    requires IsBinary(op) && es != [] && Ordered(os) && FitsOp(os, op)
    requires d >= Debt(os, Init(es), calls) + Parens(Last(es)) + One(ParensLeft(op, Last(es)))
    ensures Ordered(os + [Oper(op)]) && d >= Debt(os + [Oper(op)], es, calls)
  {
    hide ParensLeft, Parens, FitsOp;
    assert Init(os + [Oper(op)]) == os;
  }

  lemma ArgumentPays(os: seq<Entry>, es: seq<Expr>, calls: seq<Frame>, d: nat)
    requires es != [] && Ordered(os) && os != [] && Last(os).Brace?
    requires d >= Debt(os, Init(es), calls) + Parens(Last(es)) + One(!Fits(os, Last(es)))
    ensures ShiftedPaid(Shift(Comma, os, es), calls, d)
  {
    hide Debt, Parens, Ordered;
    assert Shift(Comma, os, es) == Ok(Argument(os, Init(es), Last(es)));
  }

  lemma {:induction false} ShiftPays(op: Op, os: seq<Entry>, es: seq<Expr>, calls: seq<Frame>, d: nat)
    requires IsBinary(op) && |es| == Binaries(os) + 1 && KnownOperators(os) && Ordered(os)
    requires d >= Debt(os, Init(es), calls) + Parens(Last(es)) +
      One(!Fits(os, Last(es)) || ParensLeft(op, Last(es)))
    ensures ShiftedPaid(Shift(op, os, es), calls, d)
    decreases |os|
  {
    if op == Comma && os != [] && Last(os).Brace? {
      ArgumentPays(os, es, calls, d);
    } else if os != [] && EntryOp(Last(os)) != Unknown && BindsFirst(op, EntryOp(Last(os))) {
      BindPays(os, es, calls, d);
      BindCounts(Last(os).op, es);
      var bound := Bind(Last(os).op, es);
      assert Binaries(os) == Binaries(Init(os)) + One(IsBinary(Last(os).op));
      hide Debt, Fits, Bind, Parens, ShiftedPaid, Binaries, BindsFirst, IsBinary;
      if bound.Ok? {
        ShiftPays(op, Init(os), bound.value, calls, d);
        assert Shift(op, os, es) == Shift(op, Init(os), bound.value);
      } else {
        FailurePaid(calls, d);
      }
    } else {
      hide Debt, Fits, Parens;
      PushPays(op, os, es, calls, d);
      assert Shift(op, os, es) == Ok(Pushed(os + [Oper(op)], es));
    }
  }

  // ----- one token -----

  /** A new topmost operand that is a leaf. */
  lemma LeafPays(os: seq<Entry>, es: seq<Expr>, calls: seq<Frame>, x: Expr)
    requires |es| == Binaries(os) && Root(x) == Unknown && Parens(x) == 0
    ensures Owes(os, es + [x], calls) == Owes(os, es, calls)
  {
    assert Init(es + [x]) == es;
  }

  lemma OpenPays(os: seq<Entry>, es: seq<Expr>, calls: seq<Frame>)
    requires |es| == Binaries(os) && Ordered(os)
    ensures Ordered(os + [Paren]) && Owes(os + [Paren], es, calls) == Owes(os, es, calls) + 1
  {
    assert Init(os + [Paren]) == os;
  }

  lemma OpenCallPays(os: seq<Entry>, es: seq<Expr>, calls: seq<Frame>, f: string, frame: Frame)
    requires |es| == Binaries(os) && Ordered(os) && frame.args == []
    ensures Ordered(os + [Brace(f)])
    ensures Owes(os + [Brace(f)], es, calls + [frame]) == Owes(os, es, calls) + 1
  {
    assert Init(os + [Brace(f)]) == os && Init(calls + [frame]) == calls;
  }

  lemma OwedIsEnough(os: seq<Entry>, t: Expr, op: Op)
    ensures Owed(t) >= Parens(t) + One(!Fits(os, t) || ParensLeft(op, t))
    ensures Owed(t) >= Parens(t) + One(!Fits(os, t))
  {
    hide Parens, Root, BindsFirst;
  }

  lemma OperatePays(st: State, op: Op, n: nat)
    requires st.id == "" && CallsMatch(st.os, st.calls) && KnownOperators(st.os) && op != Unknown
    requires |st.es| == Binaries(st.os) + One(IsBinary(op)) && Paid(st, n)
    ensures Operate(st, op).Ok? ==> Paid(Operate(st, op).value, n)
  {
    if IsBinary(op) {
      BinaryPays(st, op, n);
    } else {
      UnaryPushes(op, st.os, st.es);
      UnaryPays(op, st.os, st.es, st.calls);
      hide Shift, Owes, Ordered;
    }
  }

  lemma UnaryPays(op: Op, os: seq<Entry>, es: seq<Expr>, calls: seq<Frame>)
    requires IsUnary(op) && |es| == Binaries(os) && Ordered(os)
    ensures Ordered(os + [Oper(op)]) && Owes(os + [Oper(op)], es, calls) == Owes(os, es, calls)
  {
    assert Init(os + [Oper(op)]) == os;
  }

  lemma BinaryPays(st: State, op: Op, n: nat)
    requires st.id == "" && CallsMatch(st.os, st.calls) && KnownOperators(st.os) && IsBinary(op)
    requires |st.es| == Binaries(st.os) + 1 && Paid(st, n)
    ensures Operate(st, op).Ok? ==> Paid(Operate(st, op).value, n)
  {
    hide Shift, ParensLeft, Fits, Owed, Parens;
    OwedIsEnough(st.os, Last(st.es), op);
    ShiftPays(op, st.os, st.es, st.calls, n);
    ShiftKeeps(op, st.os, st.es, st.calls);
    match Shift(op, st.os, st.es)
    case Ok(Pushed(os, es)) =>
    case Ok(Argument(os, es, a)) => ArgumentTaken(os, es, st.calls, a);
    case _ =>
  }

  lemma ArgumentTaken(os: seq<Entry>, es: seq<Expr>, calls: seq<Frame>, a: Expr)
    requires os != [] && Last(os).Brace? && calls != []
    ensures var frame := Last(calls);
      Debt(os, es, Init(calls) + [frame.(args := frame.args + [a])]) ==
        Debt(os, es, calls) + Parens(a) + One(Root(a) == Comma)
  {
    var frame := Last(calls);
    ParensAppend(frame.args, a);
    assert Init(Init(calls) + [frame.(args := frame.args + [a])]) == Init(calls);
    hide Parens, ParensAll;
  }

  lemma ClosePays(st: State, top: bool, n: nat)
    requires AtClose(st, top) && Paid(st, n) && (top || Last(st.os) != Paren)
    requires CloseParen(st).Ok? && CloseParen(st).value.macros == []
    ensures Paid(CloseParen(st).value, n)
  {
    if top {
      CloseOperandPays(st, n);
    } else {
      var args := Last(st.calls).args;
      var name := Last(st.os).name;
      assert CloseParen(st) == FinishCall(st.(os := Init(st.os), calls := Init(st.calls), noParen := true), name, args);
      FinishPays(st, Init(st.os), st.es, name, args, n);
    }
  }

  /** A call is complete. */
  lemma FinishPays(st: State, os: seq<Entry>, es: seq<Expr>, name: string, args: seq<Expr>, n: nat)
    requires st.macros == [] && st.id == "" && st.calls != [] && Ordered(os) && |es| == Binaries(os)
    requires n >= Debt(os, es, Init(st.calls)) + 1 + ParensAll(args)
    ensures
      var r := FinishCall(st.(os := os, es := es, calls := Init(st.calls), noParen := true), name, args);
      r.Ok? && r.value.macros == [] ==> Paid(r.value, n)
  {
    hide Debt, ParensAll;
    assert Init(es + [Const(0.0)]) == es && Init(es + [Func(name, args)]) == es;
    assert Parens(Func(name, args)) == 1 + ParensAll(args);
  }

  lemma CloseOperandPays(st: State, n: nat)
    requires AtClose(st, true) && Paid(st, n)
    requires CloseParen(st).Ok? && CloseParen(st).value.macros == []
    ensures Paid(CloseParen(st).value, n)
  {
    var minlen := if st.calls != [] then Last(st.calls).oslen else 0;
    OwedIsEnough(st.os, Last(st.es), Comma);
    UnwindKeeps(st.os, st.es, st.calls);
    UnwindPays(st.os, st.es, st.calls, minlen, n);
    var (os, es) := Unwind(st.os, st.es, minlen).value;
    var t := Last(es);
    assert |Init(es)| == Binaries(Init(os));
    hide Parens, Unwind, Fits;
    if Last(os).Brace? {
      var args := Last(st.calls).args;
      assert CloseParen(st) ==
        FinishCall(st.(os := Init(os), es := Init(es), calls := Init(st.calls), noParen := true), Last(os).name, args + [t]);
      ParensAppend(args, t);
      FitsIff(os, t);
      FinishPays(st, Init(os), Init(es), Last(os).name, args + [t], n);
    } else {
      assert CloseParen(st) == Ok(st.(os := Init(os), es := es, noParen := true));
    }
  }

  // ----- one turn of the loop -----

  /** A turn pays for what it puts on the stacks with the parentheses it reads. */
  predicate TurnPaid(st: State, s: string, funcs: set<string>, n: nat) {
    var (k, flags) := NextToken(s, st.flags);
    k > 0 ==>
      match Consume(st.(flags := flags), s[..k], funcs)
      case Ok(st') => st'.macros == [] ==> Paid(st', n + One(s[0] == '('))
      case _ => true
  }

  /** Blanks and comments */
  lemma SkipPays(st: State, s: string, funcs: set<string>, n: nat)
    requires Disciplined(st) && Paid(st, n) && s != "" && (s[0] == '#' || IsSpace(s[0]))
    requires NextToken(s, st.flags).1 == st.flags
    ensures TurnPaid(st, s, funcs, n)
  {
    var k := NextToken(s, st.flags).0;
    assert !st.flags.comma;
    hide NextToken, Act, Classify, Disciplined, Owes;
    if k > 0 {
      assert s[..k][0] == s[0];
      assert st.(flags := st.flags) == st;
    }
  }

  lemma BlankPays(st: State, s: string, funcs: set<string>, n: nat)
    requires Disciplined(st) && Paid(st, n) && s != "" && (s[0] == '#' || (IsSpace(s[0]) && s[0] != '\n'))
    ensures TurnPaid(st, s, funcs, n)
  {
    hide NextToken, TurnPaid, Disciplined, Paid, NoEmptyParens;
    var k := LexBlank(s, st.flags, Other);
    SkipPays(st, s, funcs, n);
  }

  /** A turn that ends in an operator */
  lemma OperatedPays(
      st: State, s: string, funcs: set<string>, n: nat, k: nat, flags: Flags, st1: State, op: Op)
    requires 0 < k <= |s| && NextToken(s, st.flags) == (k, flags)
    requires Consume(st.(flags := flags), s[..k], funcs) == Operate(st1, op)
    requires st1.id == "" && CallsMatch(st1.os, st1.calls) && KnownOperators(st1.os) && op != Unknown
    requires |st1.es| == Binaries(st1.os) + One(IsBinary(op)) && Paid(st1, n)
    ensures TurnPaid(st, s, funcs, n)
  {
    OperatePays(st1, op, n);
    hide NextToken, Consume, Operate, CallsMatch, Binaries, KnownOperators, Owes;
  }

  lemma SettledPaid(st: State, flags: Flags, n: nat)
    requires Paid(st, n)
    ensures Paid(Settle(st).(flags := flags), n)
  {
  }

  lemma NewlinePays(st: State, s: string, funcs: set<string>, n: nat)
    requires Disciplined(st) && Paid(st, n) && s != "" && s[0] == '\n'
    ensures TurnPaid(st, s, funcs, n)
  {
    hide NextToken, TurnPaid, Paid, NoEmptyParens, CallsMatch, Binaries, KnownOperators, Consume;
    if st.flags.top && Span(Spaces, s) < |s| && s[Span(Spaces, s)] != ')' {
      NewlineCommaPays(st, s, funcs, n);
    } else {
      LexNewline(s, st.flags, if st.flags.top then Operand else Other);
      SkipPays(st, s, funcs, n);
    }
  }

  lemma NewlineCommaPays(st: State, s: string, funcs: set<string>, n: nat)
    requires Disciplined(st) && Paid(st, n) && s != "" && s[0] == '\n'
    requires st.flags.top && Span(Spaces, s) < |s| && s[Span(Spaces, s)] != ')'
    ensures TurnPaid(st, s, funcs, n)
  {
    hide NextToken, Consume, NoEmptyParens, TurnPaid, CallsMatch, Binaries, KnownOperators, Settle, Paid, Span, Operate;
    LexNewlineComma(s, st.flags, Operand);
    var k := Span(Spaces, s);
    assert s[..k][0] == '\n';
    ConsumeNewlineComma(st, s[..k], funcs);
    SettleKeeps(st);
    var flags := AFTER_NEWLINE.(comma := false);
    SettledPaid(st, flags, n);
    OperatedPays(st, s, funcs, n, k, AFTER_NEWLINE, Settle(st).(flags := flags), Comma);
  }

  lemma NumberPays(st: State, s: string, funcs: set<string>, n: nat)
    requires Disciplined(st) && Paid(st, n) && s != "" && IsDigit(s[0])
    ensures TurnPaid(st, s, funcs, n)
  {
    var k := Span(NumberChars, s);
    if st.flags.tnumber {
      assert s[..k][0] == s[0];
      ClassifyDigits(s[..k]);
      hide Classify, Owes, CallsMatch, KnownOperators;
      var token := Classify(s[..k]);
      if token.Number? {
        LeafPays(st.os, st.es, st.calls, Const(token.value));
      }
    }
  }

  lemma WordPays(st: State, s: string, funcs: set<string>, n: nat)
    requires Disciplined(st) && Paid(st, n) && s != "" && IsFirstVarChar(s[0])
    ensures TurnPaid(st, s, funcs, n)
  {
    var k := Span(WordChars, s);
    if st.flags.tword {
      var tok := s[..k];
      assert tok[0] == s[0];
      ClassifyWord(tok);
      hide Classify, Owes, CallsMatch, KnownOperators;
      assert Consume(st.(flags := AFTER_WORD), tok, funcs) ==
        Ok(st.(flags := AFTER_WORD, id := tok, noParen := false));
      LeafPays(st.os, st.es, st.calls, Var(tok));
    }
  }

  lemma OpenParenPays(st: State, funcs: set<string>, n: nat)
    requires Paid(st, n) && |st.es| == Binaries(st.os)
    ensures OpenParen(st, funcs).Ok? ==> Paid(OpenParen(st, funcs).value, n + 1)
  {
    hide Owes, Ordered, Binaries;
    if st.id == "" {
      OpenPays(st.os, st.es, st.calls);
    } else {
      LeafPays(st.os, st.es, st.calls, Var(st.id));
      OpenCallPays(st.os, st.es, st.calls, st.id, Frame(|st.os| + 1, |st.es|, []));
    }
  }

  lemma LexOpen(st: State, s: string, funcs: set<string>)
    requires s != "" && s[0] == '('
    ensures s[..1] == "("
    ensures NextToken(s, st.flags) == if st.flags.topen then (1, AFTER_OPEN) else (-3, st.flags)
    ensures Consume(st.(flags := AFTER_OPEN), s[..1], funcs) == OpenParen(st.(flags := AFTER_OPEN), funcs)
  {
    assert s[..1] == "(";
    assert Classify("(") == LParen;
    hide Classify, OpenParen;
  }

  lemma OpeningPays(st: State, s: string, funcs: set<string>, n: nat)
    requires Disciplined(st) && Paid(st, n) && s != "" && s[0] == '('
    ensures TurnPaid(st, s, funcs, n)
  {
    hide Owes, Ordered, CallsMatch, KnownOperators, NextToken, Consume, OpenParen, Binaries;
    LexOpen(st, s, funcs);
    if st.flags.topen {
      var st1 := st.(flags := AFTER_OPEN);
      assert Settle(st1).es == Settle(st).es;
      OpenParenPays(st1, funcs, n);
    }
  }

  lemma LexClose(st: State, s: string, funcs: set<string>)
    requires s != "" && s[0] == ')' && NoEmptyParens(s, SeenIn(st))
    ensures s[..1] == ")"
    ensures NextToken(s, st.flags) == if st.flags.tclose then (1, AFTER_OPERAND) else (-3, st.flags)
    ensures Consume(st.(flags := AFTER_OPERAND), s[..1], funcs) == CloseParen(Settle(st).(flags := AFTER_OPERAND))
    ensures st.flags.tclose && st.os != [] && Last(st.os) == Paren ==> st.flags.top
  {
    assert s[..1] == ")";
    assert Settle(st.(flags := AFTER_OPERAND)) == Settle(st).(flags := AFTER_OPERAND);
    hide CloseParen, Settle;
  }

  lemma ClosingPays(st: State, s: string, funcs: set<string>, n: nat)
    requires Disciplined(st) && Paid(st, n) && s != "" && s[0] == ')' && NoEmptyParens(s, SeenIn(st))
    ensures TurnPaid(st, s, funcs, n)
  {
    hide NextToken, Consume, CloseParen, NoEmptyParens, CallsMatch, Binaries, KnownOperators, Paid;
    LexClose(st, s, funcs);
    if st.flags.tclose {
      SettleKeeps(st);
      SettledPaid(st, AFTER_OPERAND, n);
      var st1 := Settle(st).(flags := AFTER_OPERAND);
      hide Settle;
      if CloseParen(st1).Ok? && CloseParen(st1).value.macros == [] {
        ClosePays(st1, st.flags.top, n);
      }
    }
  }

  lemma OperatorPays(st: State, s: string, funcs: set<string>, n: nat)
    requires Disciplined(st) && Paid(st, n) && s != "" && IsOpChar(s[0])
    ensures TurnPaid(st, s, funcs, n)
  {
    if st.flags.top {
      BinaryOperatorPays(st, s, funcs, n);
    } else {
      UnaryOperatorPays(st, s, funcs, n);
    }
  }

  lemma UnaryOperatorPays(st: State, s: string, funcs: set<string>, n: nat)
    requires Disciplined(st) && Paid(st, n) && s != "" && IsOpChar(s[0]) && !st.flags.top
    ensures TurnPaid(st, s, funcs, n)
  {
    ExprDiscipline.LexUnary(s, st.flags);
    var op := FindOp([s[0]], OnlyUnary);
    if op != Unknown {
      hide NextToken, Consume, TurnPaid, FindOp, CallsMatch, Binaries, KnownOperators, Paid;
      assert s[..1] == [s[0]];
      ExprDiscipline.ConsumeUnary(st, s[..1], funcs);
      var st1 := st.(flags := AFTER_UNARY);
      assert Settle(st) == st && Settle(st1) == st1;
      SettledPaid(st, AFTER_UNARY, n);
      OperatedPays(st, s, funcs, n, 1, AFTER_UNARY, st1, op);
    } else {
      hide NextToken, FindOp, Disciplined;
    }
  }

  lemma BinaryOperatorPays(st: State, s: string, funcs: set<string>, n: nat)
    requires Disciplined(st) && Paid(st, n) && s != "" && IsOpChar(s[0]) && st.flags.top
    ensures TurnPaid(st, s, funcs, n)
  {
    LexBinary(s, st.flags);
    var (k, found) := Munch(s, 0, false);
    if found {
      hide NextToken, Consume, TurnPaid, FindOp, Paid;
      MunchIsMaximal(s, 0, false);
      var tok := s[..k];
      assert tok[0] == s[0];
      ConsumeBinary(st, tok, funcs);
      SettleKeeps(st);
      assert Settle(st.(flags := AFTER_BINARY)) == Settle(st).(flags := AFTER_BINARY);
      SettledPaid(st, AFTER_BINARY, n);
      OperatedPays(st, s, funcs, n, k, AFTER_BINARY, Settle(st).(flags := AFTER_BINARY), FindOp(tok, Any));
    } else {
      hide NextToken, FindOp, Disciplined, Munch;
    }
  }

  lemma TurnPays(st: State, s: string, funcs: set<string>, n: nat)
    requires Disciplined(st) && Paid(st, n) && NoEmptyParens(s, SeenIn(st))
    ensures TurnPaid(st, s, funcs, n)
  {
    hide Disciplined, Paid;
    if s == "" {
    } else {
      hide TurnPaid;
      if s[0] == '\n' {
        NewlinePays(st, s, funcs, n);
      } else if s[0] == '#' || IsSpace(s[0]) {
        BlankPays(st, s, funcs, n);
      } else if IsDigit(s[0]) {
        NumberPays(st, s, funcs, n);
      } else if IsFirstVarChar(s[0]) {
        WordPays(st, s, funcs, n);
      } else if s[0] == '(' {
        OpeningPays(st, s, funcs, n);
      } else if s[0] == ')' {
        ClosingPays(st, s, funcs, n);
      } else {
        OperatorPays(st, s, funcs, n);
      }
    }
  }

  // ----- reading a printed text -----

  lemma StopEndsName(rest: string)
    requires Stop(rest)
    ensures NoEmptyParens(rest, Name) == NoEmptyParens(rest, Operand)
  {
  }

  lemma OperatorRead(op: Op, rest: string, seen: Seen)
    requires op != Unknown
    ensures NoEmptyParens(OpText(op) + rest, seen) == NoEmptyParens(rest, Other)
    ensures Opening(OpText(op) + rest) == Opening(rest)
  {
    var s := OpText(op) + rest;
    assert OpText(op) != "" && forall k :: 0 <= k < |OpText(op)| ==> IsOpChar(OpText(op)[k]);
    hide OpText, NoEmptyParens, Opening;
    SkipOperator(s, |OpText(op)|, seen);
    SkipOthers(s, |OpText(op)|);
    assert s[|OpText(op)|..] == rest;
  }

  lemma LiteralRead(t: string, v: real, rest: string, seen: Seen)
    requires IsLiteral(t, v) && Stop(rest)
    ensures NoEmptyParens(t + rest, seen) == NoEmptyParens(rest, Operand)
    ensures Opening(t + rest) == Opening(rest)
  {
    SpanIs(NumberChars, t + rest, |t|);
    SkipOthers(t + rest, |t|);
    assert (t + rest)[|t|..] == rest;
  }

  lemma WordRead(x: string, rest: string, seen: Seen)
    requires IsWord(x) && (rest == "" || !IsVarChar(rest[0]))
    ensures NoEmptyParens(x + rest, seen) == NoEmptyParens(rest, Name)
    ensures Opening(x + rest) == Opening(rest)
  {
    SpanIs(WordChars, x + rest, |x|);
    assert (x + rest)[|x|..] == rest;
  }

  lemma OpenRead(rest: string, seen: Seen)
    ensures NoEmptyParens("(" + rest, seen) == NoEmptyParens(rest, if seen == Name then Other else PlainOpen)
    ensures Opening("(" + rest) == 1 + Opening(rest)
  {
    assert ("(" + rest)[1..] == rest;
  }

  lemma CloseRead(rest: string, seen: Seen)
    requires seen != PlainOpen
    ensures NoEmptyParens(")" + rest, seen) == NoEmptyParens(rest, Operand)
    ensures Opening(")" + rest) == Opening(rest)
  {
    assert (")" + rest)[1..] == rest;
  }

  /** Reading a printed tree as text finds the counted parentheses, no empty ones, and sees an operand behind it. */
  lemma {:induction false} TreeRead(e: Expr, lit: real -> string, funcs: set<string>, rest: string, seen: Seen)
    requires Writable(e, lit, funcs) && Stop(rest) && seen != Name
    ensures NoEmptyParens(Show(e, lit) + rest, seen) == NoEmptyParens(rest, Operand)
    ensures Opening(Show(e, lit) + rest) == Parens(e) + Opening(rest)
    decreases e, 1
  {
    hide NoEmptyParens, Opening, Wrap, ParensLeft, ParensRight;
    match e
    case Const(v) =>
      LiteralRead(lit(v), v, rest, seen);
    case Var(x) =>
      WordRead(x, rest, seen);
      StopEndsName(rest);
    case Unary(op, x) =>
      UnaryText(e, lit, rest);
      OperatorRead(op, Wrap(ParensRight(op, x), Show(x, lit)) + rest, seen);
      WrapRead(ParensRight(op, x), x, lit, funcs, rest, Other);
    case Binary(op, l, r) =>
      BinaryText(e, lit, rest);
      var right := Wrap(ParensRight(op, r), Show(r, lit)) + rest;
      WrapRead(ParensLeft(op, l), l, lit, funcs, OpText(op) + right, seen);
      OperatorRead(op, right, Operand);
      WrapRead(ParensRight(op, r), r, lit, funcs, rest, Other);
    case Func(f, args) =>
      FuncText(e, lit, rest);
      WordRead(f, "(" + (ShowArgs(args, lit) + (")" + rest)), seen);
      OpenRead(ShowArgs(args, lit) + (")" + rest), Name);
      ArgsRead(args, lit, funcs, rest);
  }

  lemma {:induction false} WrapRead(
      closed: bool, e: Expr, lit: real -> string, funcs: set<string>, rest: string, seen: Seen)
    requires Writable(e, lit, funcs) && Stop(rest) && seen != Name
    ensures NoEmptyParens(Wrap(closed, Show(e, lit)) + rest, seen) == NoEmptyParens(rest, Operand)
    ensures Opening(Wrap(closed, Show(e, lit)) + rest) == Parens(e) + One(closed) + Opening(rest)
    decreases e, 2
  {
    hide NoEmptyParens, Show, Opening, Parens;
    if closed {
      WrapText(e, lit, rest);
      OpenRead(Show(e, lit) + (")" + rest), seen);
      TreeRead(e, lit, funcs, ")" + rest, PlainOpen);
      CloseRead(rest, Operand);
    } else {
      TreeRead(e, lit, funcs, rest, seen);
    }
  }

  lemma {:induction false} ArgsRead(args: seq<Expr>, lit: real -> string, funcs: set<string>, rest: string)
    requires forall a :: a in args ==> Writable(a, lit, funcs)
    ensures NoEmptyParens(ShowArgs(args, lit) + (")" + rest), Other) == NoEmptyParens(rest, Operand)
    ensures NoEmptyParens(ShowMore(args, lit) + (")" + rest), Operand) == NoEmptyParens(rest, Operand)
    ensures Opening(ShowArgs(args, lit) + (")" + rest)) == ParensAll(args) + Opening(rest)
    ensures Opening(ShowMore(args, lit) + (")" + rest)) == ParensAll(args) + Opening(rest)
    decreases args, 0
  {
    hide NoEmptyParens, Show, Opening, Parens;
    if args == [] {
      NothingLeft(")" + rest);
      CloseRead(rest, Other);
      CloseRead(rest, Operand);
    } else {
      var a := Wrap(Root(args[0]) == Comma, Show(args[0], lit));
      var more := ShowMore(args[1..], lit) + (")" + rest);
      ArgsText(args, lit, ")" + rest);
      WrapRead(Root(args[0]) == Comma, args[0], lit, funcs, more, Other);
      OperatorRead(Comma, a + more, Operand);
      ArgsRead(args[1..], lit, funcs, rest);
    }
  }

  /** The printed text opens the counted parentheses, and no plain one of them is empty. */
  lemma PrintedReads(e: Expr, lit: real -> string, funcs: set<string>)
    requires Writable(e, lit, funcs)
    ensures Opening(Show(e, lit)) == Parens(e) && NoEmptyParens(Show(e, lit), Other)
  {
    TreeRead(e, lit, funcs, "", Other);
    NothingLeft(Show(e, lit));
    hide Show, Parens;
  }

  // ----- the whole text -----

  lemma MacrosStay(st: State, tok: string, funcs: set<string>)
    requires tok != "" && Consume(st, tok, funcs).Ok?
    ensures Consume(st, tok, funcs).value.macros == [] ==> st.macros == []
  {
    hide Classify, FindOp, Shift, Unwind, BodyChain, Splice, Params;
  }

  lemma {:induction false} MacrosStayAll(st: State, s: string, funcs: set<string>)
    requires Run(st, s, funcs).Ok? && Run(st, s, funcs).value.macros == []
    ensures st.macros == []
    decreases |s|
  {
    var (k, flags) := NextToken(s, st.flags);
    if k > 0 {
      MacrosStay(st.(flags := flags), s[..k], funcs);
      hide Consume, NextToken;
      MacrosStayAll(Consume(st.(flags := flags), s[..k], funcs).value, s[k..], funcs);
    }
  }

  /** A turn that succeeds leaves a state from which the run goes on paid. */
  lemma TurnGives(st: State, s: string, funcs: set<string>, n: nat, k: nat, flags: Flags, next: State)
    requires Disciplined(st) && Paid(st, n) && NoEmptyParens(s, SeenIn(st))
    requires NextToken(s, st.flags) == (k, flags) && k > 0
    requires Consume(st.(flags := flags), s[..k], funcs) == Ok(next) && next.macros == []
    ensures Disciplined(next) && Paid(next, n + One(s[0] == '(')) && NoEmptyParens(s[k..], SeenIn(next))
    ensures Opening(s) == One(s[0] == '(') + Opening(s[k..])
  {
    hide Disciplined, NoEmptyParens, Consume, Paid, NextToken, SeenIn, Opening, ClosesEmpty;
    TurnStep(st, s, funcs);
    TurnPays(st, s, funcs, n);
    OpeningSplits(s, st.flags);
  }

  lemma NothingOpens()
    ensures Opening("") == 0
  {
  }

  lemma {:induction false} RunPays(st: State, s: string, funcs: set<string>, n: nat)
    requires Disciplined(st) && Paid(st, n) && NoEmptyParens(s, SeenIn(st))
    requires Run(st, s, funcs).Ok? && Run(st, s, funcs).value.macros == []
    ensures Disciplined(Run(st, s, funcs).value) && Paid(Run(st, s, funcs).value, n + Opening(s))
    decreases |s|
  {
    hide Disciplined, NoEmptyParens, Consume, Paid, NextToken, SeenIn, Opening;
    NothingOpens();
    var (k, flags) := NextToken(s, st.flags);
    if k > 0 {
      var next := Consume(st.(flags := flags), s[..k], funcs).value;
      assert Run(st, s, funcs) == Run(next, s[k..], funcs);
      MacrosStayAll(next, s[k..], funcs);
      TurnGives(st, s, funcs, n, k, flags, next);
      RunPays(next, s[k..], funcs, n + One(s[0] == '('));
    }
  }

  /** The printer writes the fewest parentheses. Of all the texts that compile to a tree, with blanks,
      comments and parentheses wherever they like, but without empty plain parentheses and without macros,
      none opens fewer than the printed text, which does compile to the tree. */
  lemma FewestParens(
      e: Expr, lit: real -> string, s: string, vars: seq<string>, funcs: set<string>)
    requires Writable(e, lit, funcs)
    requires NoEmptyParens(s, Other) && Compile(s, vars, funcs).Ok? && Compile(s, vars, funcs).value.0 == [e]
    requires Run(Start(vars), s, funcs).value.macros == []
    ensures Opening(Show(e, lit)) <= Opening(s)
  {
    hide NoEmptyParens, Run, Show, Writable, Opening, Compile, Disciplined, Paid, SeenIn, Start;
    PrintedReads(e, lit, funcs);
    StartsPaid(vars);
    CompiledTree(s, vars, funcs, e);
    RunPays(Start(vars), s, funcs, 0);
    EndPays(Run(Start(vars), s, funcs).value, e, Opening(s));
  }

  lemma StartsPaid(vars: seq<string>)
    ensures Disciplined(Start(vars)) && Paid(Start(vars), 0) && SeenIn(Start(vars)) == Other
  {
  }

  lemma CompiledTree(s: string, vars: seq<string>, funcs: set<string>, e: Expr)
    requires NoEmptyParens(s, Other) && Compile(s, vars, funcs).Ok? && Compile(s, vars, funcs).value.0 == [e]
    ensures Run(Start(vars), s, funcs).Ok?
    ensures var st := Run(Start(vars), s, funcs).value; st.flags.top && Drain(st.os, Settle(st).es) == Ok([e])
  {
    hide NoEmptyParens, Run, Disciplined, Drain;
    StackDiscipline(s, vars, funcs);
  }

  /** A run that ends with a tree has paid for it. */
  lemma EndPays(st: State, e: Expr, n: nat)
    requires Disciplined(st) && Paid(st, n) && st.flags.top
    requires Drain(st.os, Settle(st).es) == Ok([e])
    ensures n >= Parens(e)
  {
    SettleKeeps(st);
    OwedIsEnough(st.os, Last(Settle(st).es), Comma);
    hide Fits, Parens, Drain;
    DrainPays(st.os, Settle(st).es, st.calls, n);
  }
}
