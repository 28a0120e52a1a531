/** The `for` updates that add a constant to a variable, described by how they are spelled. */
module Updates {
  import opened Values
  import opened Syntax
  import opened Texts
  import opened Lexer
  import Radix

  /** `x++`, `x--`, `++x`, `--x`, or `x += N` and `x -= N` for a signed decimal `N`. */
  datatype Bump =
    | Step(x: string, up: bool, prefix: bool)
    | Compound(x: string, up: bool, sign: string, digits: string)

  function Mark(up: bool): string {
    if up then "++" else "--"
  }

  function Operator(up: bool): string {
    if up then "+=" else "-="
  }

  predicate Numeral(sign: string, digits: string) {
    && (sign == "" || sign == "+" || sign == "-")
    && digits != "" && Radix.AllDigits(digits, 10)
    && FitsI32(Constant(sign, digits))
  }

  /** The number a signed numeral stands for. */
  function Constant(sign: string, digits: string): int
    requires Radix.AllDigits(digits, 10)
  {
    if sign == "-" then 0 - Radix.Magnitude(digits, 10) else Radix.Magnitude(digits, 10)
  }

  predicate WellSpelled(b: Bump) {
    IsIdentifier(b.x) && (b.Compound? ==> Numeral(b.sign, b.digits))
  }

  /** What the update adds, exactly. */
  function Amount(b: Bump): int
    requires WellSpelled(b)
  {
    match b
    case Step(_, up, _) => if up then 1 else -1
    case Compound(_, up, sign, digits) => if up then Constant(sign, digits) else 0 - Constant(sign, digits)
  }

  /** The tokens of an update, with white space between them. */
  function Joined(b: Bump, w1: string, w2: string): string {
    match b
    case Step(x, up, prefix) => if prefix then Mark(up) + (w1 + x) else x + (w1 + Mark(up))
    case Compound(x, up, sign, digits) => x + (w1 + (Operator(up) + (w2 + (sign + digits))))
  }

  predicate SpelledWith(u: string, b: Bump, w0: string, w1: string, w2: string, w3: string) {
    White(w0) && White(w1) && White(w2) && White(w3) && u == w0 + (Joined(b, w1, w2) + w3)
  }

  /** `u` is the update `b`, spelled with any white space. */
  ghost predicate Spells(u: string, b: Bump) {
    WellSpelled(b) && exists w0, w1, w2, w3 :: SpelledWith(u, b, w0, w1, w2, w3)
  }

  /** The operand of the general form of an update. */
  function Operand(b: Bump): Expr {
    match b
    case Step(_, _, _) => Lit(Number("1"))
    case Compound(_, _, sign, digits) =>
      if sign == "-" then Unop(Prefix(Neg), Lit(Number(digits)))
      else if sign == "+" then Unop(Plus, Lit(Number(digits)))
      else Lit(Number(digits))
  }

  /** The general form of an update: load, add or subtract, store. */
  function General(b: Bump): Expr {
    Update(b.x, if b.up then Add else Sub, Operand(b))
  }
}
