/** What every turn of the main loop keeps about its three stacks. Source: inc/expr.h. */
module ExprDiscipline {
  import opened Chars
  import opened Counts
  import opened Options
  import opened ExprTree
  import opened ExprLexer
  import opened ExprParser
  import ExprRoundTrip

  /** The unbound binary operators on the operator stack. */
  function Binaries(os: seq<Entry>): nat {
    if os == [] then 0
    else Binaries(Init(os)) + if Last(os).Oper? && IsBinary(Last(os).op) then 1 else 0
  }

  /** Every open call has its frame, and the frame holds the height of the operator stack and as many
      operands as there are unbound binary operators below it. */
  predicate CallsMatch(os: seq<Entry>, calls: seq<Frame>) {
    if os == [] then calls == []
    else if Last(os).Brace? then
      && calls != [] && Last(calls).oslen == |os| && Last(calls).eslen == Binaries(os)
      && CallsMatch(Init(os), Init(calls))
    else CallsMatch(Init(os), calls)
  }

  predicate KnownOperators(os: seq<Entry>) {
    forall i :: 0 <= i < |os| && os[i].Oper? ==> os[i].op != Unknown
  }

  /** The stack discipline: there is one more operand than unbound binary operators exactly when an
      operand has just ended, over the whole stack and below every open call; an operand is refused
      right after another; and `)` is let through after an operand or right after an opening. */
  predicate Disciplined(st: State) {
    && |st.es| + One(st.id != "") == Binaries(st.os) + One(st.flags.top)
    && CallsMatch(st.os, st.calls) && KnownOperators(st.os)
    && (st.id != "" ==> st.flags.top) && !st.flags.comma
    && (st.flags.tnumber || st.flags.tword || st.flags.unary ==> !st.flags.top)
    && (st.flags.topen && st.flags.top ==> st.id != "")
    && (st.flags.tclose && !st.flags.top ==> st.os != [] && !Last(st.os).Oper?)
  }

  /** Closing a plain parenthesis with nothing in it. */
  predicate ClosesEmpty(st: State, tok: string) {
    tok != "" && tok[0] == ')' && !st.flags.top && st.os != [] && Last(st.os) == Paren
  }

  // ----- the three loops -----

  lemma BindCounts(op: Op, es: seq<Expr>)
    requires op != Unknown && |es| >= 1 + One(IsBinary(op))
    ensures Bind(op, es).Ok? ==> |Bind(op, es).value| == |es| - One(IsBinary(op))
    ensures !Bind(op, es).Ok? ==> Bind(op, es) == Fail(BadAssignment)
  {
  }

  /** What is left of the operator stack when the unwinding stops. */
  lemma {:induction false} UnwindKeeps(os: seq<Entry>, es: seq<Expr>, calls: seq<Frame>)
    requires |es| == Binaries(os) + 1 && CallsMatch(os, calls) && KnownOperators(os)
    ensures
      match Unwind(os, es, if calls != [] then Last(calls).oslen else 0)
      case Ok((os', es')) =>
        && |es'| == Binaries(os') + 1 && CallsMatch(os', calls) && KnownOperators(os')
        && (os' != [] ==> !Last(os').Oper?)
      case Fail(e) => e == BadAssignment
      case Underflow => false
    decreases |os|
  {
    CallsBelow(os, calls);
    if os != [] && Last(os).Oper? {
      BindCounts(Last(os).op, es);
      if Bind(Last(os).op, es).Ok? {
        UnwindKeeps(Init(os), Bind(Last(os).op, es).value, calls);
      }
    }
  }

  /** The innermost open call lies within the operator stack, and on top of it only if it is the top. */
  lemma {:induction false} CallsBelow(os: seq<Entry>, calls: seq<Frame>)
    requires CallsMatch(os, calls)
    ensures calls != [] ==> Last(calls).oslen <= |os|
    ensures calls != [] && os != [] && Last(os).Oper? ==> Last(calls).oslen < |os|
    decreases |os|
  {
    if os != [] && !Last(os).Brace? {
      CallsBelow(Init(os), calls);
    }
  }

  lemma PushKeeps(op: Op, os: seq<Entry>, calls: seq<Frame>)
    requires op != Unknown && CallsMatch(os, calls) && KnownOperators(os)
    ensures Binaries(os + [Oper(op)]) == Binaries(os) + One(IsBinary(op))
    ensures CallsMatch(os + [Oper(op)], calls) && KnownOperators(os + [Oper(op)])
  {
    assert Init(os + [Oper(op)]) == os;
  }

  /** What an operator may leave: pushed over as many operands as unbound operators, or a call
      argument taken from exactly above the frame. */
  predicate ShiftedWell(r: Step<Shifted>, calls: seq<Frame>) {
    match r
    case Ok(Pushed(os, es)) =>
      |es| == Binaries(os) && CallsMatch(os, calls) && KnownOperators(os) && os != [] && Last(os).Oper?
    case Ok(Argument(os, es, _)) =>
      && |es| == Binaries(os) && CallsMatch(os, calls) && KnownOperators(os)
      && calls != [] && |es| == Last(calls).eslen && os != [] && Last(os).Brace?
    case Fail(e) => e == BadAssignment
    case Underflow => false
  }

  lemma BadAssignmentIsWell(calls: seq<Frame>)
    ensures ShiftedWell(Fail(BadAssignment), calls)
  {
  }

  lemma TopOperator(os: seq<Entry>, calls: seq<Frame>)
    requires os != [] && Last(os).Oper? && CallsMatch(os, calls) && KnownOperators(os)
    ensures Last(os).op != Unknown && Binaries(os) == Binaries(Init(os)) + One(IsBinary(Last(os).op))
    ensures CallsMatch(Init(os), calls) && KnownOperators(Init(os))
  {
  }

  /** After an operand, a binary operator finds enough operands for all it binds, and a comma that
      ends an argument takes exactly the one operand above the frame. */
  lemma {:induction false} ShiftKeeps(op: Op, os: seq<Entry>, es: seq<Expr>, calls: seq<Frame>)
    requires IsBinary(op) && |es| == Binaries(os) + 1 && CallsMatch(os, calls) && KnownOperators(os)
    ensures ShiftedWell(Shift(op, os, es), calls)
    decreases |os|
  {
    if op == Comma && os != [] && Last(os).Brace? {
      assert Shift(op, os, es) == Ok(Argument(os, Init(es), Last(es)));
    } else if os != [] && EntryOp(Last(os)) != Unknown && BindsFirst(op, EntryOp(Last(os))) {
      TopOperator(os, calls);
      hide Binaries, CallsMatch, KnownOperators, ShiftedWell;
      var bound := Bind(Last(os).op, es);
      BindCounts(Last(os).op, es);
      hide Bind;
      if bound.Ok? {
        ShiftKeeps(op, Init(os), bound.value, calls);
        assert Shift(op, os, es) == Shift(op, Init(os), bound.value);
      } else {
        assert Shift(op, os, es) == Fail(BadAssignment);
        BadAssignmentIsWell(calls);
      }
    } else {
      PushKeeps(op, os, calls);
    }
  }

  /** A unary operator binds nothing. */
  lemma UnaryPushes(op: Op, os: seq<Entry>, es: seq<Expr>)
    requires IsUnary(op)
    ensures Shift(op, os, es) == Ok(Pushed(os + [Oper(op)], es))
  {
  }

  // ----- one token -----

  lemma SettleKeeps(st: State)
    requires Disciplined(st)
    ensures var st' := Settle(st);
      && st'.id == "" && st'.os == st.os && st'.calls == st.calls && st'.flags == st.flags
      && |st'.es| == Binaries(st.os) + One(st.flags.top)
  {
  }

  lemma FinishCallAdds(st: State, name: string, args: seq<Expr>)
    ensures
      match FinishCall(st, name, args)
      case Ok(st') => st' == st.(es := st'.es, vars := st'.vars, macros := st'.macros) && |st'.es| == |st.es| + 1
      case Fail(e) => e == MacroWithoutName || e == MacroNameNotVariable
      case Underflow => false
  {
  }

  /** The errors that the stack discipline rules out while the input is being read. */
  predicate Expected(e: Error) {
    e != MissingOperand && e != NotAnOperator
  }

  /** A settled state in which `)` has just been read after an operand, or right after an opening. */
  predicate AtClose(st: State, top: bool) {
    && st.flags == AFTER_OPERAND && st.id == "" && CallsMatch(st.os, st.calls) && KnownOperators(st.os)
    && |st.es| == Binaries(st.os) + One(top)
    && (!top ==> st.os != [] && !Last(st.os).Oper?)
  }

  lemma CloseKeeps(st: State, top: bool)
    requires AtClose(st, top)
    ensures
      match CloseParen(st)
      case Ok(st') => Disciplined(st') <==> top || Last(st.os) != Paren
      case Fail(e) => Expected(e)
      case Underflow => false
    ensures CloseParen(st).Ok? ==>
      CloseParen(st).value.flags.top && CloseParen(st).value.id == "" && !CloseParen(st).value.flags.topen
  {
    var minlen := if st.calls != [] then Last(st.calls).oslen else 0;
    if top {
      UnwindKeeps(st.os, st.es, st.calls);
    }
    var unwound := Unwind(st.os, st.es, minlen);
    if unwound.Ok? {
      var (os, es) := unwound.value;
      if os != [] && Last(os).Brace? {
        var more := |es| > Last(st.calls).eslen;
        var st1 := st.(os := Init(os), es := if more then Init(es) else es, calls := Init(st.calls), noParen := true);
        FinishCallAdds(st1, Last(os).name, if more then Last(st.calls).args + [Last(es)] else Last(st.calls).args);
      }
    }
  }

  lemma OperateKeeps(st: State, op: Op)
    requires st.id == "" && CallsMatch(st.os, st.calls) && KnownOperators(st.os)
    requires |st.es| == Binaries(st.os) + One(IsBinary(op))
    requires op != Unknown && !st.flags.top && !st.flags.tclose && !st.flags.comma
    ensures
      match Operate(st, op)
      case Ok(st') => Disciplined(st') && st'.flags == st.flags && st'.id == ""
      case Fail(e) => Expected(e)
      case Underflow => false
  {
    if IsBinary(op) {
      ShiftKeeps(op, st.os, st.es, st.calls);
      match Shift(op, st.os, st.es)
      case Ok(Argument(os, es, arg)) =>
        var frame := Last(st.calls);
        assert Init(Init(st.calls) + [frame.(args := frame.args + [arg])]) == Init(st.calls);
      case _ =>
    } else {
      UnaryPushes(op, st.os, st.es);
      PushKeeps(op, st.os, st.calls);
    }
  }

  // ----- the whole input -----

  /** What the next token sees behind it. */
  datatype Seen = Operand | Name | PlainOpen | Other

  /** No plain parenthesis is closed with nothing in it: a reading of the text by itself, where only
      blanks and comments may come between two tokens, and a line end after an operand stands for a
      comma unless `)` or the end follows. */
  predicate NoEmptyParens(s: string, seen: Seen)
    decreases |s|
  {
    if s == "" then true
    else
      var c := s[0];
      if c == '#' then NoEmptyParens(s[Span(CommentChars, s)..], seen)
      else if c == '\n' then
        var n := Span(Spaces, s);
        NoEmptyParens(s[n..],
          if (seen == Operand || seen == Name) && n < |s| && s[n] != ')' then Other else seen)
      else if IsSpace(c) then NoEmptyParens(s[Span(Blanks, s)..], seen)
      else if IsDigit(c) then NoEmptyParens(s[Span(NumberChars, s)..], Operand)
      else if IsFirstVarChar(c) then NoEmptyParens(s[Span(WordChars, s)..], Name)
      else if c == '(' then NoEmptyParens(s[1..], if seen == Name then Other else PlainOpen)
      else if c == ')' then seen != PlainOpen && NoEmptyParens(s[1..], Operand)
      else NoEmptyParens(s[1..], Other)
  }

  function SeenIn(st: State): Seen {
    if st.flags.top then if st.id != "" then Name else Operand
    else if st.flags.tclose && st.os != [] && Last(st.os) == Paren then PlainOpen
    else Other
  }

  lemma {:induction false} SkipOperator(s: string, n: nat, seen: Seen)
    requires 0 < n <= |s| && forall k :: 0 <= k < n ==> IsOpChar(s[k])
    ensures NoEmptyParens(s, seen) == NoEmptyParens(s[n..], Other)
    decreases n
  {
    if n > 1 {
      SkipOperator(s[1..], n - 1, Other);
      assert s[1..][n - 1..] == s[n..];
    }
  }

  lemma {:induction false} MunchReadsOpChars(s: string, i: nat, found: bool)
    requires i <= |s| && forall k :: 0 <= k < i ==> IsOpChar(s[k])
    ensures forall k :: 0 <= k < Munch(s, i, found).0 ==> IsOpChar(s[k])
    decreases |s| - i
  {
    if i < |s| && IsOpChar(s[i]) {
      if FindOp(s[..i + 1], OnlyBinary) != Unknown {
        MunchReadsOpChars(s, i + 1, true);
      } else if !found {
        MunchReadsOpChars(s, i + 1, false);
      }
    }
  }

  /** One turn of the loop: the discipline survives exactly when the turn does not close an empty plain
      parenthesis, no turn underflows or lacks an operand, and the reading of the text keeps step. */
  predicate StepWell(st: State, s: string, funcs: set<string>) {
    var (n, flags) := NextToken(s, st.flags);
    n > 0 ==>
      match Consume(st.(flags := flags), s[..n], funcs)
      case Ok(st') =>
        && (Disciplined(st') <==> !ClosesEmpty(st, s[..n]))
        && (NoEmptyParens(s, SeenIn(st)) <==> !ClosesEmpty(st, s[..n]) && NoEmptyParens(s[n..], SeenIn(st')))
      case Fail(e) => Expected(e)
      case Underflow => false
  }

  /** A turn that skips blanks or a comment leaves everything as it was, or refuses them after a unary operator. */
  lemma SkippedStep(st: State, s: string, funcs: set<string>, n: nat)
    requires Disciplined(st) && 0 < n <= |s| && (s[0] == '#' || IsSpace(s[0]))
    requires NextToken(s, st.flags) == (n, st.flags)
    requires NoEmptyParens(s, SeenIn(st)) == NoEmptyParens(s[n..], SeenIn(st))
    ensures StepWell(st, s, funcs)
  {
    assert !st.flags.comma;
    hide NextToken, Act, Classify, NoEmptyParens, Disciplined;
    assert s[..n][0] == s[0];
    assert st.(flags := st.flags) == st;
  }

  lemma LexBlank(s: string, flags: Flags, seen: Seen) returns (n: nat)
    requires s != "" && (s[0] == '#' || (IsSpace(s[0]) && s[0] != '\n'))
    ensures 0 < n <= |s| && NextToken(s, flags) == (n, flags)
    ensures NoEmptyParens(s, seen) == NoEmptyParens(s[n..], seen)
  {
    n := if s[0] == '#' then Span(CommentChars, s) else Span(Blanks, s);
  }

  lemma BlankStep(st: State, s: string, funcs: set<string>)
    requires Disciplined(st) && s != "" && (s[0] == '#' || (IsSpace(s[0]) && s[0] != '\n'))
    ensures StepWell(st, s, funcs)
  {
    hide NextToken, NoEmptyParens, StepWell, Disciplined;
    var n := LexBlank(s, st.flags, SeenIn(st));
    SkippedStep(st, s, funcs, n);
  }

  lemma LexNewline(s: string, flags: Flags, seen: Seen)
    requires s != "" && s[0] == '\n' && !flags.comma
    requires flags.top && Span(Spaces, s) < |s| ==> s[Span(Spaces, s)] == ')'
    requires flags.top <==> seen == Operand || seen == Name
    ensures NextToken(s, flags) == (Span(Spaces, s), flags) && Span(Spaces, s) > 0
    ensures NoEmptyParens(s, seen) == NoEmptyParens(s[Span(Spaces, s)..], seen)
  {
  }

  lemma NewlineStep(st: State, s: string, funcs: set<string>)
    requires Disciplined(st) && s != "" && s[0] == '\n'
    ensures StepWell(st, s, funcs)
  {
    hide NextToken, NoEmptyParens, StepWell;
    if st.flags.top && Span(Spaces, s) < |s| && s[Span(Spaces, s)] != ')' {
      NewlineComma(st, s, funcs);
    } else {
      LexNewline(s, st.flags, SeenIn(st));
      SkippedStep(st, s, funcs, Span(Spaces, s));
    }
  }

  /** A turn that ends in an operator: the discipline survives, and no parenthesis is involved. */
  lemma OperatedStep(st: State, s: string, funcs: set<string>, n: nat, flags: Flags, st1: State, op: Op)
    requires 0 < n <= |s| && s[0] != ')' && NextToken(s, st.flags) == (n, flags)
    requires Consume(st.(flags := flags), s[..n], funcs) == Operate(st1, op)
    requires NoEmptyParens(s, SeenIn(st)) == NoEmptyParens(s[n..], Other)
    requires st1.id == "" && CallsMatch(st1.os, st1.calls) && KnownOperators(st1.os)
    requires |st1.es| == Binaries(st1.os) + One(IsBinary(op))
    requires op != Unknown && !st1.flags.top && !st1.flags.tclose && !st1.flags.comma
    ensures StepWell(st, s, funcs)
  {
    hide NextToken, Consume, Operate, NoEmptyParens, CallsMatch, Binaries, KnownOperators, Disciplined;
    assert s[..n][0] == s[0];
    OperateKeeps(st1, op);
  }

  lemma NewlineComma(st: State, s: string, funcs: set<string>)
    requires Disciplined(st) && s != "" && s[0] == '\n'
    requires st.flags.top && Span(Spaces, s) < |s| && s[Span(Spaces, s)] != ')'
    ensures StepWell(st, s, funcs)
  {
    hide NextToken, Consume, NoEmptyParens, StepWell, CallsMatch, Binaries, KnownOperators, Settle, Span, Operate;
    LexNewlineComma(s, st.flags, SeenIn(st));
    var n := Span(Spaces, s);
    assert s[..n][0] == '\n';
    ConsumeNewlineComma(st, s[..n], funcs);
    SettleKeeps(st);
    OperatedStep(st, s, funcs, n, AFTER_NEWLINE, Settle(st).(flags := AFTER_NEWLINE.(comma := false)), Comma);
  }

  lemma LexNewlineComma(s: string, flags: Flags, seen: Seen)
    requires s != "" && s[0] == '\n' && flags.top && Span(Spaces, s) < |s| && s[Span(Spaces, s)] != ')'
    requires seen == Operand || seen == Name
    ensures NextToken(s, flags) == (Span(Spaces, s), AFTER_NEWLINE) && Span(Spaces, s) > 0
    ensures NoEmptyParens(s, seen) == NoEmptyParens(s[Span(Spaces, s)..], Other)
  {
  }

  lemma ConsumeNewlineComma(st: State, tok: string, funcs: set<string>)
    requires tok != "" && tok[0] == '\n'
    ensures Consume(st.(flags := AFTER_NEWLINE), tok, funcs) ==
      Operate(Settle(st).(flags := AFTER_NEWLINE.(comma := false)), Comma)
  {
  }

  lemma NumberStep(st: State, s: string, funcs: set<string>)
    requires Disciplined(st) && s != "" && IsDigit(s[0])
    ensures StepWell(st, s, funcs)
  {
    var n := Span(NumberChars, s);
    if st.flags.tnumber {
      assert s[..n][0] == s[0];
      ClassifyDigits(s[..n]);
      hide Classify;
    }
  }

  lemma WordStep(st: State, s: string, funcs: set<string>)
    requires Disciplined(st) && s != "" && IsFirstVarChar(s[0])
    ensures StepWell(st, s, funcs)
  {
    var n := Span(WordChars, s);
    if st.flags.tword {
      var tok := s[..n];
      assert tok[0] == s[0];
      ClassifyWord(tok);
      hide Classify;
      assert Consume(st.(flags := AFTER_WORD), tok, funcs) ==
        Ok(st.(flags := AFTER_WORD, id := tok, noParen := false));
    }
  }

  lemma OpenStep(st: State, s: string, funcs: set<string>)
    requires Disciplined(st) && s != "" && s[0] == '('
    ensures StepWell(st, s, funcs)
  {
    assert s[..1] == "(";
    assert Classify("(") == LParen;
    hide Classify;
    assert Init(st.os + [Paren]) == st.os && Init(st.os + [Brace(st.id)]) == st.os;
    assert Init(st.calls + [Frame(|st.os| + 1, |st.es|, [])]) == st.calls;
  }

  lemma CloseStep(st: State, s: string, funcs: set<string>)
    requires Disciplined(st) && s != "" && s[0] == ')'
    ensures StepWell(st, s, funcs)
  {
    assert s[..1] == ")";
    if st.flags.tclose {
      SettleKeeps(st);
      var st1 := st.(flags := AFTER_OPERAND);
      assert Settle(st1) == Settle(st).(flags := AFTER_OPERAND);
      CloseKeeps(Settle(st1), st.flags.top);
      assert Consume(st1, s[..1], funcs) == CloseParen(Settle(st1));
    }
  }

  lemma OperatorStep(st: State, s: string, funcs: set<string>)
    requires Disciplined(st) && s != "" && IsOpChar(s[0])
    ensures StepWell(st, s, funcs)
  {
    if st.flags.top {
      BinaryOperatorStep(st, s, funcs);
    } else {
      UnaryOperatorStep(st, s, funcs);
    }
  }

  lemma LexUnary(s: string, flags: Flags)
    requires s != "" && IsOpChar(s[0]) && !flags.top
    ensures NextToken(s, flags) == if FindOp([s[0]], OnlyUnary) == Unknown then (-4, flags) else (1, AFTER_UNARY)
  {
    hide FindOp;
  }

  lemma ConsumeUnary(st: State, tok: string, funcs: set<string>)
    requires |tok| == 1 && IsOpChar(tok[0]) && FindOp(tok, OnlyUnary) != Unknown
    ensures IsUnary(FindOp(tok, OnlyUnary))
    ensures Consume(st.(flags := AFTER_UNARY), tok, funcs) ==
      Operate(Settle(st.(flags := AFTER_UNARY)), FindOp(tok, OnlyUnary))
  {
    hide Operate, Settle;
  }

  lemma UnaryOperatorStep(st: State, s: string, funcs: set<string>)
    requires Disciplined(st) && s != "" && IsOpChar(s[0]) && !st.flags.top
    ensures StepWell(st, s, funcs)
  {
    LexUnary(s, st.flags);
    var op := FindOp([s[0]], OnlyUnary);
    if op != Unknown {
      hide NextToken, Consume, NoEmptyParens, StepWell, FindOp, CallsMatch, Binaries, KnownOperators;
      assert s[..1] == [s[0]];
      ConsumeUnary(st, s[..1], funcs);
      SkipOperator(s, 1, SeenIn(st));
      OperatedStep(st, s, funcs, 1, AFTER_UNARY, st.(flags := AFTER_UNARY), op);
    } else {
      hide NextToken, FindOp, Disciplined, NoEmptyParens;
    }
  }

  lemma LexBinary(s: string, flags: Flags)
    requires s != "" && IsOpChar(s[0]) && flags.top
    ensures var (n, found) := Munch(s, 0, false);
      NextToken(s, flags) == if found then (n as int, AFTER_BINARY) else (-5, flags)
  {
    hide Munch;
  }

  lemma ConsumeBinary(st: State, tok: string, funcs: set<string>)
    requires tok != "" && IsOpChar(tok[0]) && FindOp(tok, OnlyBinary) != Unknown
    ensures IsBinary(FindOp(tok, Any))
    ensures Consume(st.(flags := AFTER_BINARY), tok, funcs) ==
      Operate(Settle(st.(flags := AFTER_BINARY)), FindOp(tok, Any))
  {
    OperatorClass(tok);
    hide Operate, Settle, FindOp, Classify;
  }

  lemma BinaryOperatorStep(st: State, s: string, funcs: set<string>)
    requires Disciplined(st) && s != "" && IsOpChar(s[0]) && st.flags.top
    ensures StepWell(st, s, funcs)
  {
    LexBinary(s, st.flags);
    var (n, found) := Munch(s, 0, false);
    if found {
      hide NextToken, Consume, NoEmptyParens, StepWell, FindOp;
      MunchIsMaximal(s, 0, false);
      MunchReadsOpChars(s, 0, false);
      var tok := s[..n];
      assert tok[0] == s[0];
      ConsumeBinary(st, tok, funcs);
      SettleKeeps(st);
      assert Settle(st.(flags := AFTER_BINARY)) == Settle(st).(flags := AFTER_BINARY);
      SkipOperator(s, n, SeenIn(st));
      OperatedStep(st, s, funcs, n, AFTER_BINARY, Settle(st).(flags := AFTER_BINARY), FindOp(tok, Any));
    } else {
      hide NextToken, FindOp, Disciplined, NoEmptyParens, Munch;
    }
  }

  /** A binary operator token is classified as that operator. */
  lemma OperatorClass(tok: string)
    requires FindOp(tok, OnlyBinary) != Unknown && IsOpChar(tok[0])
    ensures IsBinary(FindOp(tok, Any)) && Classify(tok) == Operator(FindOp(tok, Any))
  {
    assert ParseNumber(tok) == None;
  }

  lemma TurnStep(st: State, s: string, funcs: set<string>)
    requires Disciplined(st)
    ensures StepWell(st, s, funcs)
  {
    hide StepWell, Disciplined;
    if s == "" {
      EmptyStep(st, funcs);
    } else if s[0] == '\n' {
      NewlineStep(st, s, funcs);
    } else if s[0] == '#' || IsSpace(s[0]) {
      BlankStep(st, s, funcs);
    } else if IsDigit(s[0]) {
      NumberStep(st, s, funcs);
    } else if IsFirstVarChar(s[0]) {
      WordStep(st, s, funcs);
    } else if s[0] == '(' {
      OpenStep(st, s, funcs);
    } else if s[0] == ')' {
      CloseStep(st, s, funcs);
    } else {
      OperatorStep(st, s, funcs);
    }
  }

  lemma EmptyStep(st: State, funcs: set<string>)
    ensures StepWell(st, "", funcs)
  {
  }

  /** At the end: without a missing operand there is exactly one tree, or none and nothing to bind. */
  lemma {:induction false} DrainLeavesOne(os: seq<Entry>, es: seq<Expr>)
    requires |es| == Binaries(os) + 1 && KnownOperators(os)
    ensures
      match Drain(os, es)
      case Ok(es') => |es'| == 1
      case Fail(e) => e != MissingOperand
      case Underflow => false
    decreases |os|
  {
    if os != [] && Last(os).Oper? {
      BindCounts(Last(os).op, es);
      if Bind(Last(os).op, es).Ok? {
        DrainLeavesOne(Init(os), Bind(Last(os).op, es).value);
      }
    }
  }

  lemma {:induction false} DrainLacksOperand(os: seq<Entry>, es: seq<Expr>)
    requires |es| == Binaries(os) && KnownOperators(os)
    ensures Drain(os, es).Ok? ==> os == [] && es == []
    ensures Drain(os, es) != Underflow
    decreases |os|
  {
    if os != [] && Last(os).Oper? {
      var bound := Bind(Last(os).op, es);
      if bound.Ok? {
        BindCounts(Last(os).op, es);
        DrainLacksOperand(Init(os), bound.value);
      }
    }
  }

  lemma {:induction false} RunKeeps(st: State, s: string, funcs: set<string>)
    requires Disciplined(st) && NoEmptyParens(s, SeenIn(st))
    ensures
      match Run(st, s, funcs)
      case Ok(st') => Disciplined(st')
      case Fail(e) => Expected(e)
      case Underflow => false
    decreases |s|
  {
    TurnStep(st, s, funcs);
    hide Disciplined, NoEmptyParens, Consume;
    var (n, flags) := NextToken(s, st.flags);
    if n > 0 {
      var next := Consume(st.(flags := flags), s[..n], funcs);
      if next.Ok? {
        RunKeeps(next.value, s[n..], funcs);
      }
    }
  }

  /** The state before every turn of the loop, and after the last one, is disciplined. */
  predicate AlwaysDisciplined(st: State, s: string, funcs: set<string>)
    decreases |s|
  {
    && Disciplined(st)
    && var (n, flags) := NextToken(s, st.flags);
       (n > 0 && Consume(st.(flags := flags), s[..n], funcs).Ok? ==>
          AlwaysDisciplined(Consume(st.(flags := flags), s[..n], funcs).value, s[n..], funcs))
  }

  /** The hypothesis of the main result is exact. Without empty plain parentheses the discipline holds all along
      the run; and if it does, there are none in a text that is read to its end or up to an underflow. So no
      run underflows that was disciplined throughout. */
  lemma {:induction false} DisciplinedIffNoEmptyParens(st: State, s: string, funcs: set<string>)
    requires Disciplined(st)
    ensures NoEmptyParens(s, SeenIn(st)) ==> AlwaysDisciplined(st, s, funcs)
    ensures !Run(st, s, funcs).Fail? && AlwaysDisciplined(st, s, funcs) ==> NoEmptyParens(s, SeenIn(st))
    ensures Run(st, s, funcs) == Underflow ==> !AlwaysDisciplined(st, s, funcs)
    decreases |s|
  {
    TurnStep(st, s, funcs);
    var (n, flags) := NextToken(s, st.flags);
    if n > 0 {
      var next := Consume(st.(flags := flags), s[..n], funcs);
      hide Disciplined, Consume, NextToken, NoEmptyParens, ClosesEmpty, SeenIn;
      if next.Ok? {
        var st', rest := next.value, s[n..];
        assert Run(st, s, funcs) == Run(st', rest, funcs);
        assert AlwaysDisciplined(st, s, funcs) == AlwaysDisciplined(st', rest, funcs);
        if Disciplined(st') {
          DisciplinedIffNoEmptyParens(st', rest, funcs);
        } else {
          assert !AlwaysDisciplined(st', rest, funcs);
        }
      }
    }
  }

  /** The stack discipline over every run. For a text without empty plain parentheses no vector is
      popped when empty; an operand is missing only at the end, after an operator; and a compilation
      that succeeds has exactly one tree left, or none when the text holds no token at all. */
  lemma StackDiscipline(s: string, vars: seq<string>, funcs: set<string>)
    requires NoEmptyParens(s, Other)
    ensures
      match Run(Start(vars), s, funcs)
      case Ok(st) =>
        && Disciplined(st)
        && Compile(s, vars, funcs) != Underflow
        && (Compile(s, vars, funcs) == Fail(MissingOperand) ==> !st.flags.top)
        && (Compile(s, vars, funcs).Ok? ==> |Compile(s, vars, funcs).value.0| == One(st.flags.top))
      case Fail(e) => e != MissingOperand && e != NotAnOperator
      case Underflow => false
  {
    RunKeeps(Start(vars), s, funcs);
    if Run(Start(vars), s, funcs).Ok? {
      var st := Run(Start(vars), s, funcs).value;
      SettleKeeps(st);
      if st.flags.top {
        DrainLeavesOne(Settle(st).os, Settle(st).es);
      } else {
        DrainLacksOperand(Settle(st).os, Settle(st).es);
      }
    }
  }

  /** Empty plain parentheses do break it: here the comma pops an operand that is not there. */
  lemma EmptyParensUnderflow()
    ensures Compile("f((),1)", [], {"f"}) == Underflow
  {
    var st := Start([]).(flags := AFTER_OPEN, os := [Brace("f")], calls := [Frame(1, 0, [])]);
    EmptyParensPassed(st);
    CommaUnderflows(st.(flags := AFTER_OPERAND, noParen := true));
    hide Complete;
    assert "f((),1)" == "f" + ("(" + "(),1)");
    CallOpened(st, "(),1)");
  }

  lemma CallOpened(st: State, rest: string)
    requires st == Start([]).(flags := AFTER_OPEN, os := [Brace("f")], calls := [Frame(1, 0, [])])
    ensures Complete(Start([]), "f" + ("(" + rest), {"f"}) == Complete(st, rest, {"f"})
  {
    hide Complete;
    ExprRoundTrip.CallStep(Start([]), "f", rest, {"f"});
    assert Start([]).os + [Brace("f")] == st.os && Start([]).calls + [Frame(1, 0, [])] == st.calls;
  }

  lemma EmptyParensPassed(st: State)
    requires st == Start([]).(flags := AFTER_OPEN, os := [Brace("f")], calls := [Frame(1, 0, [])])
    ensures Complete(st, "(),1)", {"f"}) == Complete(st.(flags := AFTER_OPERAND, noParen := true), ",1)", {"f"})
  {
    var st1 := st.(os := [Brace("f"), Paren]);
    assert Init(st1.os) == st.os && Unwind(st1.os, [], 1) == Ok((st1.os, []));
    assert CloseParen(st1.(flags := AFTER_OPERAND)) == Ok(st.(flags := AFTER_OPERAND, noParen := true));
    hide Complete, CloseParen;
    assert "(),1)" == "(" + "),1)" && "),1)" == ")" + ",1)";
    ExprRoundTrip.OpenStep(st, "),1)", {"f"});
    assert st.os + [Paren] == st1.os;
    ExprRoundTrip.CloseStep(st1, ",1)", {"f"});
  }

  lemma CommaUnderflows(st: State)
    requires st.flags == AFTER_OPERAND && st.id == "" && st.os == [Brace("f")] && st.es == []
    ensures Complete(st, ",1)", {"f"}) == Underflow
  {
    hide Complete;
    assert ",1)" == OpText(Comma) + "1)";
    ExprRoundTrip.OperatorStep(st, Comma, "1)", {"f"});
  }

  lemma EmptyParensFound()
    ensures !NoEmptyParens("f((),1)", Other)
  {
    var s := "f((),1)";
    assert Span(WordChars, s) == 1 by {
      SpanIs(WordChars, s, 1);
    }
    assert s[1..] == "((),1)" && s[1..][1..] == "(),1)" && s[1..][1..][1..] == "),1)";
    assert !NoEmptyParens("),1)", PlainOpen);
    assert !NoEmptyParens("(),1)", Other);
    assert !NoEmptyParens("((),1)", Name);
  }
}
