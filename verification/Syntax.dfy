/** Syntax trees: expressions, and statements that hold their expressions as source text (src/compiler.rs). */
module Syntax {
  import opened Values

  datatype Literal = Number(lexeme: string) | Text(s: string) | True | False | NullWord | UndefinedWord

  /** Operators with one operand: a no-op `+`, an instruction, or the reading of a named property. */
  datatype Op1 = Plus | Prefix(uop: UnOp) | Member(name: string)

  /** Operators with two operands: an instruction, or the reading of a computed property. */
  datatype Op2 = Infix(bop: BinOp) | Index

  /** A `Global` is read as a global even where a local has its name. */
  datatype Expr =
    | Lit(lit: Literal)
    | Name(x: string)
    | Global(x: string)
    | Assign(x: string, e: Expr)
    | Update(x: string, bop: BinOp, e: Expr)
    | Sequence(l: Expr, r: Expr)
    | Cond(c: Expr, t: Expr, f: Expr)
    | Binop(op2: Op2, l: Expr, r: Expr)
    | Unop(op1: Op1, e: Expr)
    | Apply(fn: Expr, args: Args)
    | Invoke(o: Expr, name: string, args: Args)

  /** Call arguments, the last one outermost: the order in which a call site grows. */
  datatype Args = NoArgs | Snoc(init: Args, last: Expr)

  /** What can follow an operand. */
  datatype Suffix = Property(name: string) | Method(name: string, args: Args) | Subscript(i: Expr) | Arguments(args: Args)

  function Attach(left: Expr, suffix: Suffix): Expr {
    match suffix
    case Property(name) => Unop(Member(name), left)
    case Method(name, args) => Invoke(left, name, args)
    case Subscript(i) => Binop(Index, left, i)
    case Arguments(args) => Apply(left, args)
  }

  function Count(args: Args): nat {
    match args
    case NoArgs => 0
    case Snoc(init, _) => Count(init) + 1
  }

  /** A `for` head keeps its update as text because the compiler tries its increment forms before the grammar. */
  datatype Stmt =
    | Var(name: string)
    | VarInit(name: string, text: string)
    | ReturnVoid
    | ReturnText(text: string)
    | ExprStmt(text: string)
    | If(cond: string, thn: seq<Stmt>, els: ElsePart)
    | For(init: Option<Stmt>, test: Option<string>, body: seq<Stmt>, update: Option<string>)

  /** No `else` at all, or its statements; `else if` is an `else` holding one `if`. */
  datatype ElsePart = NoElse | Else(body: seq<Stmt>)
}
