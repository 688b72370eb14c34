/** The lexer of the expression compiler: character classes, the operator table, numbers and
    `expr_next_token` with the flags that say what may come next. Source: inc/expr.h. */
module ExprLexer {
  import opened Chars
  import opened Options
  import opened ExprTree

  // ----- character classes -----

  predicate IsFirstVarChar(c: char) {
    (c >= '@' && c != '^' && c != '|') || c == '$'
  }

  predicate IsVarChar(c: char) {
    IsFirstVarChar(c) || c == '#' || IsDigit(c)
  }

  predicate IsOpChar(c: char) {
    !IsVarChar(c) && !IsSpace(c) && c != '(' && c != ')'
  }

  /** The classes of characters that the scanning loops run over. */
  datatype Class = CommentChars | Spaces | Blanks | NumberChars | WordChars

  predicate In(class_: Class, c: char) {
    match class_
    case CommentChars => c != '\n'
    case Spaces => IsSpace(c)
    case Blanks => IsSpace(c) && c != '\n'
    case NumberChars => c == '.' || IsDigit(c)
    case WordChars => IsVarChar(c)
  }

  /** The length of the longest prefix of `s` whose characters are all in the class. */
  function Span(class_: Class, s: string): (n: nat)
    ensures n <= |s|
    ensures forall k :: 0 <= k < n ==> In(class_, s[k])
    ensures n < |s| ==> !In(class_, s[n])
  {
    if s != "" && In(class_, s[0]) then 1 + Span(class_, s[1..]) else 0
  }

  /** A prefix of class characters that nothing extends is the span. */
  lemma SpanIs(class_: Class, s: string, n: nat)
    requires n <= |s|
    requires forall k :: 0 <= k < n ==> In(class_, s[k])
    requires n < |s| ==> !In(class_, s[n])
    ensures Span(class_, s) == n
  {
  }

  // ----- the operator table -----

  const OPS: seq<(string, Op)> := [
    ("-u", Neg), ("!u", Not), ("^u", BitNot),
    ("**", Pow), ("*", Mul), ("/", Div), ("%", Rem), ("+", Plus), ("-", Minus),
    ("<<", Shl), (">>", Shr), ("<", Lt), ("<=", Le), (">", Gt), (">=", Ge), ("==", Eq), ("!=", Ne),
    ("&", BitAnd), ("|", BitOr), ("^", BitXor), ("&&", And), ("||", Or), ("=", Assign), (",", Comma),
    ("-", Neg), ("!", Not), ("^", BitNot)]

  /** Which entries a search of the table looks at: the argument `unary` of `expr_op`. */
  datatype Want = Any | OnlyBinary | OnlyUnary

  predicate Wanted(want: Want, op: Op) {
    match want
    case Any => true
    case OnlyBinary => !IsUnary(op)
    case OnlyUnary => IsUnary(op)
  }

  predicate Matches(i: nat, text: string, want: Want)
    requires i < |OPS|
  {
    OPS[i].0 == text && Wanted(want, OPS[i].1)
  }

  /** `expr_op`: the first entry of the table that matches, spelled out by characters. */
  function FindOp(text: string, want: Want): Op {
    if |text| == 1 then
      match text[0]
      case '*' => if want == OnlyUnary then Unknown else Mul
      case '/' => if want == OnlyUnary then Unknown else Div
      case '%' => if want == OnlyUnary then Unknown else Rem
      case '+' => if want == OnlyUnary then Unknown else Plus
      case '-' => if want == OnlyUnary then Neg else Minus
      case '<' => if want == OnlyUnary then Unknown else Lt
      case '>' => if want == OnlyUnary then Unknown else Gt
      case '&' => if want == OnlyUnary then Unknown else BitAnd
      case '|' => if want == OnlyUnary then Unknown else BitOr
      case '^' => if want == OnlyUnary then BitNot else BitXor
      case '=' => if want == OnlyUnary then Unknown else Assign
      case ',' => if want == OnlyUnary then Unknown else Comma
      case '!' => if want == OnlyBinary then Unknown else Not
      case _ => Unknown
    else if |text| == 2 then
      if text[1] == 'u' then
        if want == OnlyBinary then Unknown else
        match text[0]
        case '-' => Neg
        case '!' => Not
        case '^' => BitNot
        case _ => Unknown
      else if want == OnlyUnary then Unknown
      else if text[0] == text[1] then
        match text[0]
        case '*' => Pow
        case '<' => Shl
        case '>' => Shr
        case '=' => Eq
        case '&' => And
        case '|' => Or
        case _ => Unknown
      else if text[1] == '=' then
        match text[0]
        case '<' => Le
        case '>' => Ge
        case '!' => Ne
        case _ => Unknown
      else Unknown
    else Unknown
  }

  lemma EntryBefore9(text: string, want: Want, i: nat)
    requires i < 9 && Matches(i, text, want)
    ensures FindOp(text, want) == OPS[i].1
  {
  }

  lemma EntryBefore17(text: string, want: Want, i: nat)
    requires 9 <= i < 17 && Matches(i, text, want)
    ensures FindOp(text, want) == OPS[i].1
  {
  }

  lemma EntryBefore24(text: string, want: Want, i: nat)
    requires 17 <= i < 24 && Matches(i, text, want)
    ensures FindOp(text, want) == OPS[i].1
  {
  }

  lemma EntryAtEnd(text: string, want: Want, i: nat)
    requires 24 <= i < |OPS| && Matches(i, text, want)
    requires !Matches(8, text, want) && !Matches(19, text, want)
    ensures FindOp(text, want) == OPS[i].1
  {
  }

  /** `FindOp` is what a search of the table from its start finds. */
  lemma FindOpIsFirst(text: string, want: Want, i: nat)
    requires i < |OPS|
    requires Matches(i, text, want)
    requires forall j :: 0 <= j < i ==> !Matches(j, text, want)
    ensures FindOp(text, want) == OPS[i].1
  {
    if i < 9 {
      EntryBefore9(text, want, i);
    } else if i < 17 {
      EntryBefore17(text, want, i);
    } else if i < 24 {
      EntryBefore24(text, want, i);
    } else {
      EntryAtEnd(text, want, i);
    }
  }

  /** Where the table holds the operator that `FindOp` finds. */
  function Entry(op: Op, length: nat): nat {
    match op
    case Unknown => 0
    case Neg => if length == 2 then 0 else 24
    case Not => if length == 2 then 1 else 25
    case BitNot => if length == 2 then 2 else 26
    case Pow => 3
    case Mul => 4
    case Div => 5
    case Rem => 6
    case Plus => 7
    case Minus => 8
    case Shl => 9
    case Shr => 10
    case Lt => 11
    case Le => 12
    case Gt => 13
    case Ge => 14
    case Eq => 15
    case Ne => 16
    case BitAnd => 17
    case BitOr => 18
    case BitXor => 19
    case And => 20
    case Or => 21
    case Assign => 22
    case Comma => 23
  }

  lemma FindOpMatches(text: string, want: Want)
    requires FindOp(text, want) != Unknown
    ensures Matches(Entry(FindOp(text, want), |text|), text, want)
  {
    if |text| == 1 {
      OneCharEntry(text, want);
    } else {
      TwoCharEntry(text, want);
    }
  }

  lemma OneCharEntry(text: string, want: Want)
    requires |text| == 1 && FindOp(text, want) != Unknown
    ensures Matches(Entry(FindOp(text, want), 1), text, want)
  {
    assert text == [text[0]];
  }

  lemma TwoCharEntry(text: string, want: Want)
    requires |text| == 2 && FindOp(text, want) != Unknown
    ensures Matches(Entry(FindOp(text, want), 2), text, want)
  {
    assert text == [text[0], text[1]];
  }

  method ExprOp(text: string, want: Want) returns (op: Op)
    ensures op == FindOp(text, want)
  {
    var i := 0;
    while i < |OPS|
      invariant 0 <= i <= |OPS|
      invariant forall j :: 0 <= j < i ==> !Matches(j, text, want)
    {
      if OPS[i].0 == text && Wanted(want, OPS[i].1) {
        FindOpIsFirst(text, want, i);
        return OPS[i].1;
      }
      i := i + 1;
    }
    if FindOp(text, want) != Unknown {
      FindOpMatches(text, want);
    }
    return Unknown;
  }

  // ----- numbers -----

  /** The loop of `expr_parse_number` over the remaining characters: `frac` counts the dot and the
      digits after it. */
  function Digits(s: string, num: nat, frac: nat, digits: nat): Option<(nat, nat, nat)> {
    if s == "" then Some((num, frac, digits))
    else if s[0] == '.' && frac == 0 then Digits(s[1..], num, 1, digits)
    else if IsDigit(s[0]) then
      Digits(s[1..], num * 10 + (s[0] as int - '0' as int), if frac > 0 then frac + 1 else 0, digits + 1)
    else None
  }

  function Scale(num: real, frac: nat): real
    decreases frac
  {
    if frac > 1 then Scale(num / 10.0, frac - 1) else num
  }

  /** `expr_parse_number`, with `None` for the not-a-number it returns on other text. */
  function ParseNumber(s: string): Option<real> {
    match Digits(s, 0, 0, 0)
    case None => None
    case Some((num, frac, digits)) => if digits > 0 then Some(Scale(num as real, frac)) else None
  }

  method ExprParseNumber(s: string) returns (r: Option<real>)
    ensures r == ParseNumber(s)
  {
    var num: nat, frac: nat, digits: nat, i: nat := 0, 0, 0, 0;
    while i < |s|
      invariant 0 <= i <= |s|
      invariant Digits(s, 0, 0, 0) == Digits(s[i..], num, frac, digits)
    {
      assert s[i..][1..] == s[i + 1..];
      if s[i] == '.' && frac == 0 {
        frac := frac + 1;
      } else if IsDigit(s[i]) {
        digits := digits + 1;
        if frac > 0 {
          frac := frac + 1;
        }
        num := num * 10 + (s[i] as int - '0' as int);
      } else {
        return None;
      }
      i := i + 1;
    }
    var value := num as real;
    ghost var all := frac;
    while frac > 1
      invariant Scale(num as real, all) == Scale(value, frac)
    {
      value := value / 10.0;
      frac := frac - 1;
    }
    return if digits > 0 then Some(value) else None;
  }

  // ----- tokens -----

  /** The bits of `flags`: `top` says that an operand has just ended, the next four say which tokens
      may follow, the last two mark the token just read. */
  datatype Flags = Flags(top: bool, topen: bool, tclose: bool, tnumber: bool, tword: bool, unary: bool, comma: bool)

  const DEFAULT := Flags(false, true, false, true, true, false, false)
  const AFTER_OPERAND := Flags(true, false, true, false, false, false, false)
  const AFTER_WORD := Flags(true, true, true, false, false, false, false)
  const AFTER_OPEN := Flags(false, true, true, true, true, false, false)
  const AFTER_UNARY := Flags(false, true, false, true, true, true, false)
  const AFTER_BINARY := Flags(false, true, false, true, true, false, false)
  const AFTER_NEWLINE := Flags(false, true, false, true, true, false, true)

  /** The scanning loop for a binary operator: `i` characters are read, and `found` says that they
      are an operator. */
  function Munch(s: string, i: nat, found: bool): (r: (nat, bool))
    requires i <= |s|
    ensures i <= r.0 <= |s|
    decreases |s| - i
  {
    if i < |s| && IsOpChar(s[i]) then
      if FindOp(s[..i + 1], OnlyBinary) != Unknown then Munch(s, i + 1, true)
      else if found then (i, true)
      else Munch(s, i + 1, false)
    else (i, found)
  }

  /** `expr_next_token`: the length of the next token, or a negative code, and the new flags. */
  function NextToken(s: string, flags: Flags): (r: (int, Flags))
    ensures r.0 <= |s|
    ensures r.0 == 0 <==> s == ""
  {
    if s == "" then (0, flags)
    else
      var c := s[0];
      if c == '#' then (Span(CommentChars, s) as int, flags)
      else if c == '\n' then
        var i := Span(Spaces, s) as int;
        if flags.top then
          if i == |s| || s[i] == ')' then (i, flags.(comma := false)) else (i, AFTER_NEWLINE)
        else (i, flags)
      else if IsSpace(c) then (Span(Blanks, s) as int, flags)
      else if IsDigit(c) then
        if !flags.tnumber then (-1, flags) else (Span(NumberChars, s) as int, AFTER_OPERAND)
      else if IsFirstVarChar(c) then
        if !flags.tword then (-2, flags) else (Span(WordChars, s) as int, AFTER_WORD)
      else if c == '(' || c == ')' then
        if c == '(' && flags.topen then (1, AFTER_OPEN)
        else if c == ')' && flags.tclose then (1, AFTER_OPERAND)
        else (-3, flags)
      else if !flags.top then
        if FindOp([c], OnlyUnary) == Unknown then (-4, flags) else (1, AFTER_UNARY)
      else
        var (i, found) := Munch(s, 0, false);
        if !found then (-5, flags) else (i as int, AFTER_BINARY)
  }

  /** Scans `s` from `start` while the characters are in the class, as the `while` loops of the lexer do. */
  method Scan(class_: Class, s: string) returns (i: nat)
    ensures i == Span(class_, s)
  {
    i := 0;
    while i < |s| && In(class_, s[i])
      invariant i <= |s|
      invariant forall k :: 0 <= k < i ==> In(class_, s[k])
    {
      i := i + 1;
    }
    SpanIs(class_, s, i);
  }

  method ExprNextToken(s: string, flags: Flags) returns (n: int, flags': Flags)
    ensures (n, flags') == NextToken(s, flags)
  {
    if |s| == 0 {
      return 0, flags;
    }
    var c := s[0];
    if c == '#' {
      n := Scan(CommentChars, s);
      return n, flags;
    } else if c == '\n' {
      n := Scan(Spaces, s);
      if flags.top {
        if n == |s| || s[n] == ')' {
          return n, flags.(comma := false);
        } else {
          return n, AFTER_NEWLINE;
        }
      }
      return n, flags;
    } else if IsSpace(c) {
      n := Scan(Blanks, s);
      return n, flags;
    } else if IsDigit(c) {
      if !flags.tnumber {
        return -1, flags;
      }
      n := Scan(NumberChars, s);
      return n, AFTER_OPERAND;
    } else if IsFirstVarChar(c) {
      if !flags.tword {
        return -2, flags;
      }
      n := Scan(WordChars, s);
      return n, AFTER_WORD;
    } else if c == '(' || c == ')' {
      if c == '(' && flags.topen {
        return 1, AFTER_OPEN;
      } else if c == ')' && flags.tclose {
        return 1, AFTER_OPERAND;
      } else {
        return -3, flags;
      }
    } else if !flags.top {
      var op := ExprOp([c], OnlyUnary);
      if op == Unknown {
        return -4, flags;
      }
      return 1, AFTER_UNARY;
    } else {
      var i, found := 0, false;
      while i < |s| && IsOpChar(s[i])
        invariant i <= |s|
        invariant Munch(s, 0, false) == Munch(s, i, found)
      {
        var op := ExprOp(s[..i + 1], OnlyBinary);
        if op != Unknown {
          found := true;
        } else if found {
          break;
        }
        i := i + 1;
      }
      if !found {
        return -5, flags;
      }
      return i, AFTER_BINARY;
    }
  }

  /** A binary operator token is an operator, and with the next character it would not be one. */
  predicate MaximalOperator(s: string, n: nat)
    requires n <= |s|
  {
    FindOp(s[..n], OnlyBinary) != Unknown && (n < |s| ==> FindOp(s[..n + 1], OnlyBinary) == Unknown)
  }

  lemma {:induction false} MunchIsMaximal(s: string, i: nat, found: bool)
    requires i <= |s|
    requires found ==> FindOp(s[..i], OnlyBinary) != Unknown
    ensures Munch(s, i, found).1 ==> MaximalOperator(s, Munch(s, i, found).0)
    decreases |s| - i
  {
    if i < |s| && IsOpChar(s[i]) {
      if FindOp(s[..i + 1], OnlyBinary) != Unknown {
        MunchIsMaximal(s, i + 1, true);
      } else if !found {
        MunchIsMaximal(s, i + 1, false);
      }
    } else if found && i < |s| {
      assert s[..i + 1][i] == s[i];
      assert s[..i + 1][0] == s[..i][0];
    }
  }

  /** Every token is a real piece of the input; after an operand the token that starts with an
      operator character is an operator that its next character does not extend. */
  lemma TokensAreMaximal(s: string, flags: Flags)
    requires s != "" && flags.top && IsOpChar(s[0])
    ensures var n := NextToken(s, flags).0; n > 0 ==> MaximalOperator(s, n)
    ensures NextToken(s, flags).0 != 0
  {
    MunchIsMaximal(s, 0, false);
  }
}
