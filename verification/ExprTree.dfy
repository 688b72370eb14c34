/** The operators and the trees of the expression compiler, and the way a tree is written as text.
    Source: inc/expr.h. */
module ExprTree {

  datatype Op =
    | Unknown
    | Neg | Not | BitNot
    | Pow | Div | Mul | Rem
    | Plus | Minus
    | Shl | Shr
    | Lt | Le | Gt | Ge | Eq | Ne
    | BitAnd | BitOr | BitXor
    | And | Or
    | Assign | Comma

  /** A finished tree. A variable is known by its name: `expr_var` keeps one cell per name. */
  datatype Expr =
    | Const(value: real)
    | Var(name: string)
    | Unary(op: Op, arg: Expr)
    | Binary(op: Op, left: Expr, right: Expr)
    | Func(func: string, args: seq<Expr>)

  predicate IsUnary(op: Op) {
    op == Neg || op == Not || op == BitNot
  }

  predicate IsBinary(op: Op) {
    !IsUnary(op) && op != Unknown
  }

  /** The table `prec`: a smaller number binds tighter. */
  function Level(op: Op): nat {
    match op
    case Unknown => 0
    case Neg | Not | BitNot => 1
    case Pow | Div | Mul | Rem => 2
    case Plus | Minus => 3
    case Shl | Shr => 4
    case Lt | Le | Gt | Ge | Eq | Ne => 5
    case BitAnd => 6
    case BitOr => 7
    case BitXor => 8
    case And => 9
    case Or => 10
    case Assign => 11
    case Comma => 12
  }

  predicate IsLeft(op: Op) {
    IsBinary(op) && op != Assign && op != Pow && op != Comma
  }

  /** `expr_prec(a, b)`: an incoming operator `a` first binds the operator `b` that waits on the stack. */
  predicate BindsFirst(a: Op, b: Op) {
    (IsLeft(a) && Level(a) >= Level(b)) || Level(a) > Level(b)
  }

  // ----- writing a tree -----

  function OpText(op: Op): string {
    match op
    case Unknown => ""
    case Neg => "-"
    case Not => "!"
    case BitNot => "^"
    case Pow => "**"
    case Div => "/"
    case Mul => "*"
    case Rem => "%"
    case Plus => "+"
    case Minus => "-"
    case Shl => "<<"
    case Shr => ">>"
    case Lt => "<"
    case Le => "<="
    case Gt => ">"
    case Ge => ">="
    case Eq => "=="
    case Ne => "!="
    case BitAnd => "&"
    case BitOr => "|"
    case BitXor => "^"
    case And => "&&"
    case Or => "||"
    case Assign => "="
    case Comma => ","
  }

  /** The operator at the root, `Unknown` for a tree that is never parenthesised. */
  function Root(e: Expr): Op {
    match e
    case Unary(op, _) => op
    case Binary(op, _, _) => op
    case _ => Unknown
  }

  /** A left operand needs parentheses unless the operator to its right binds its root first. */
  predicate ParensLeft(a: Op, l: Expr) {
    Root(l) != Unknown && !BindsFirst(a, Root(l))
  }

  /** A right or only operand needs parentheses when its root would bind the operator to its left first. */
  predicate ParensRight(a: Op, r: Expr) {
    Root(r) != Unknown && BindsFirst(Root(r), a)
  }

  function Wrap(parens: bool, text: string): string {
    if parens then "(" + text + ")" else text
  }

  /** The text of a tree with only the parentheses the precedence rule asks for, and no spaces.
      `lit` says how a constant is written. */
  function Show(e: Expr, lit: real -> string): string
    decreases e, 0
  {
    match e
    case Const(v) => lit(v)
    case Var(x) => x
    case Unary(op, x) => OpText(op) + Wrap(ParensRight(op, x), Show(x, lit))
    case Binary(op, l, r) =>
      Wrap(ParensLeft(op, l), Show(l, lit)) + OpText(op) + Wrap(ParensRight(op, r), Show(r, lit))
    case Func(f, args) => f + "(" + ShowArgs(args, lit) + ")"
  }

  function ShowArgs(args: seq<Expr>, lit: real -> string): string
    decreases args
  {
    if args == [] then "" else ShowArg(args[0], lit) + ShowMore(args[1..], lit)
  }

  function ShowMore(args: seq<Expr>, lit: real -> string): string
    decreases args
  {
    if args == [] then "" else "," + ShowArg(args[0], lit) + ShowMore(args[1..], lit)
  }

  /** Inside a call a comma separates arguments, so a comma tree is parenthesised there. */
  function ShowArg(e: Expr, lit: real -> string): string
    decreases e, 1
  {
    Wrap(Root(e) == Comma, Show(e, lit))
  }
}
