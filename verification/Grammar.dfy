/** The expression grammar as functions from a text and a position to a tree (src/compiler.rs, the parse levels).
    `num` turns the text of a number literal into its value; `scope` lists the names that are local. */
module Grammar {
  import opened Values
  import opened Syntax
  import opened Texts
  import opened Lexer
  import Utf8

  datatype Parse = Fail | Got(e: Expr, p: nat)
  datatype ParseArgs = FailArgs | GotArgs(args: Args, p: nat)

  datatype Branches = NoBranches | Two(a: Expr, b: Expr, p: nat)

  /** What follows an operand: nothing that continues it, a broken continuation, or a suffix. */
  datatype Tail = End | Broken | More(suffix: Suffix, p: nat)

  /** What follows an operand of a comparison. */
  datatype OpTail = NoOp | BadOp | AnOp(op: BinOp, e: Expr, p: nat)

  type Numbers = string -> Option<Value>

  function Comma(num: Numbers, scope: seq<string>, t: string, p: nat): (r: Parse)
    requires p <= |t|
    ensures r.Got? ==> p <= r.p <= |t|
    decreases |t| - p, 24
  {
    match Conditional(num, scope, t, p)
    case Fail => Fail
    case Got(e, q) => CommaRest(num, scope, t, e, q)
  }

  function CommaRest(num: Numbers, scope: seq<string>, t: string, left: Expr, p: nat): (r: Parse)
    requires p <= |t|
    ensures r.Got? ==> p <= r.p <= |t|
    decreases |t| - p, 0
  {
    var q := SkipSpace(t, p);
    if Looking(t, q, ',') then
      match Conditional(num, scope, t, q + 1)
      case Fail => Fail
      case Got(e, k) => CommaRest(num, scope, t, Sequence(left, e), k)
    else Got(left, q)
  }

  function Conditional(num: Numbers, scope: seq<string>, t: string, p: nat): (r: Parse)
    requires p <= |t|
    ensures r.Got? ==> p <= r.p <= |t|
    decreases |t| - p, 22
  {
    match Disjunction(num, scope, t, p)
    case Fail => Fail
    case Got(c, q0) =>
      var q := SkipSpace(t, q0);
      if !Looking(t, q, '?') then Got(c, q)
      else
        match BothBranches(num, scope, t, q + 1)
        case NoBranches => Fail
        case Two(a, b, k) => Got(Cond(c, a, b), k)
  }

  /** The two branches of a conditional, from just after the question mark. */
  function BothBranches(num: Numbers, scope: seq<string>, t: string, p: nat): (r: Branches)
    requires p <= |t|
    ensures r.Two? ==> p <= r.p <= |t|
    decreases |t| - p, 23
  {
    match Conditional(num, scope, t, p)
    case Fail => NoBranches
    case Got(a, k0) =>
      var k := SkipSpace(t, k0);
      if !Looking(t, k, ':') then NoBranches
      else
        match Conditional(num, scope, t, k + 1)
        case Fail => NoBranches
        case Got(b, m) => Two(a, b, m)
  }

  function Disjunction(num: Numbers, scope: seq<string>, t: string, p: nat): (r: Parse)
    requires p <= |t|
    ensures r.Got? ==> p <= r.p <= |t|
    decreases |t| - p, 20
  {
    match Conjunction(num, scope, t, p)
    case Fail => Fail
    case Got(e, q) => DisjunctionRest(num, scope, t, e, q)
  }

  function DisjunctionRest(num: Numbers, scope: seq<string>, t: string, left: Expr, p: nat): (r: Parse)
    requires p <= |t|
    ensures r.Got? ==> p <= r.p <= |t|
    decreases |t| - p, 0
  {
    var q := SkipSpace(t, p);
    if LookingAt(t, q, "||") then
      match Conjunction(num, scope, t, q + 2)
      case Fail => Fail
      case Got(e, k) => DisjunctionRest(num, scope, t, Binop(Infix(Or), left, e), k)
    else Got(left, q)
  }

  function Conjunction(num: Numbers, scope: seq<string>, t: string, p: nat): (r: Parse)
    requires p <= |t|
    ensures r.Got? ==> p <= r.p <= |t|
    decreases |t| - p, 18
  {
    match Comparison(num, scope, t, p)
    case Fail => Fail
    case Got(e, q) => ConjunctionRest(num, scope, t, e, q)
  }

  function ConjunctionRest(num: Numbers, scope: seq<string>, t: string, left: Expr, p: nat): (r: Parse)
    requires p <= |t|
    ensures r.Got? ==> p <= r.p <= |t|
    decreases |t| - p, 0
  {
    var q := SkipSpace(t, p);
    if LookingAt(t, q, "&&") then
      match Comparison(num, scope, t, q + 2)
      case Fail => Fail
      case Got(e, k) => ConjunctionRest(num, scope, t, Binop(Infix(And), left, e), k)
    else Got(left, q)
  }

  /** The comparison operator at `p` and its length; longer spellings are tried first. */
  function CompareOp(t: string, p: nat): (r: Option<(BinOp, nat)>)
    ensures r.Some? ==> r.value.1 > 0 && p + r.value.1 <= |t|
  {
    if LookingAt(t, p, "===") then Some((StrictEq, 3))
    else if LookingAt(t, p, "!==") then Some((StrictNeq, 3))
    else if LookingAt(t, p, "==") then Some((Eq, 2))
    else if LookingAt(t, p, "!=") then Some((Neq, 2))
    else if LookingAt(t, p, "<=") then Some((Le, 2))
    else if LookingAt(t, p, ">=") then Some((Ge, 2))
    else if Looking(t, p, '<') then Some((Lt, 1))
    else if Looking(t, p, '>') then Some((Gt, 1))
    else None
  }

  function Comparison(num: Numbers, scope: seq<string>, t: string, p: nat): (r: Parse)
    requires p <= |t|
    ensures r.Got? ==> p <= r.p <= |t|
    decreases |t| - p, 16
  {
    match Assignment(num, scope, t, p)
    case Fail => Fail
    case Got(e, q) => ComparisonRest(num, scope, t, e, q)
  }

  function ComparisonRest(num: Numbers, scope: seq<string>, t: string, left: Expr, p: nat): (r: Parse)
    requires p <= |t|
    ensures r.Got? ==> p <= r.p <= |t|
    decreases |t| - p, 15
  {
    var q := SkipSpace(t, p);
    match CompareTail(num, scope, t, q)
    case NoOp => Got(left, q)
    case BadOp => Fail
    case AnOp(op, e, k) => ComparisonRest(num, scope, t, Binop(Infix(op), left, e), k)
  }

  /** A comparison operator and its right operand. */
  function CompareTail(num: Numbers, scope: seq<string>, t: string, p: nat): (r: OpTail)
    requires p <= |t|
    ensures r.AnOp? ==> p < r.p <= |t|
    decreases |t| - p, 14
  {
    match CompareOp(t, p)
    case None => NoOp
    case Some((op, n)) =>
      match Assignment(num, scope, t, p + n)
      case Fail => BadOp
      case Got(e, k) => AnOp(op, e, k)
  }

  function Assignment(num: Numbers, scope: seq<string>, t: string, p: nat): (r: Parse)
    requires p <= |t|
    ensures r.Got? ==> p <= r.p <= |t|
    decreases |t| - p, 14
  {
    var start := SkipSpace(t, p);
    var end := IdentEnd(t, start);
    if end == start then Sum(num, scope, t, start) else AfterName(num, scope, t, start, end)
  }

  /** An expression whose first token is the name between `start` and `end`. */
  function AfterName(num: Numbers, scope: seq<string>, t: string, start: nat, end: nat): (r: Parse)
    requires start < end <= |t|
    ensures r.Got? ==> start <= r.p <= |t|
    decreases |t| - start, 13
  {
    var x := t[start..end];
    var q := SkipSpace(t, end);
    if LookingAt(t, q, "+=") then
      match Sum(num, scope, t, q + 2)
      case Fail => Fail
      case Got(e, k) => Got(Update(x, Add, e), k)
    else if LookingAt(t, q, "-=") then
      if x !in scope then Fail
      else
        match Sum(num, scope, t, q + 2)
        case Fail => Fail
        case Got(e, k) => Got(Update(x, Sub, e), k)
    else if Looking(t, q, '=') && !Looking(t, q + 1, '=') then
      match Assignment(num, scope, t, q + 1)
      case Fail => Fail
      case Got(e, k) => Got(Assign(x, e), k)
    else Sum(num, scope, t, start)
  }

  function Sum(num: Numbers, scope: seq<string>, t: string, p: nat): (r: Parse)
    requires p <= |t|
    ensures r.Got? ==> p <= r.p <= |t|
    decreases |t| - p, 12
  {
    match Term(num, scope, t, p)
    case Fail => Fail
    case Got(e, q) => SumRest(num, scope, t, e, q)
  }

  function SumRest(num: Numbers, scope: seq<string>, t: string, left: Expr, p: nat): (r: Parse)
    requires p <= |t|
    ensures r.Got? ==> p <= r.p <= |t|
    decreases |t| - p, 0
  {
    var q := SkipSpace(t, p);
    if Looking(t, q, '+') || Looking(t, q, '-') then
      if Looking(t, q + 1, t[q]) then Fail
      else
        match Term(num, scope, t, q + 1)
        case Fail => Fail
        case Got(e, k) => SumRest(num, scope, t, Binop(Infix(if t[q] == '+' then Add else Sub), left, e), k)
    else Got(left, q)
  }

  function Term(num: Numbers, scope: seq<string>, t: string, p: nat): (r: Parse)
    requires p <= |t|
    ensures r.Got? ==> p <= r.p <= |t|
    decreases |t| - p, 10
  {
    match Factor(num, scope, t, p)
    case Fail => Fail
    case Got(e, q) => TermRest(num, scope, t, e, q)
  }

  function TermRest(num: Numbers, scope: seq<string>, t: string, left: Expr, p: nat): (r: Parse)
    requires p <= |t|
    ensures r.Got? ==> p <= r.p <= |t|
    decreases |t| - p, 0
  {
    var q := SkipSpace(t, p);
    if Looking(t, q, '*') || Looking(t, q, '/') || Looking(t, q, '%') then
      match Factor(num, scope, t, q + 1)
      case Fail => Fail
      case Got(e, k) =>
        TermRest(num, scope, t, Binop(Infix(if t[q] == '*' then Mul else if t[q] == '/' then Div else Mod), left, e), k)
    else Got(left, q)
  }

  function Factor(num: Numbers, scope: seq<string>, t: string, p: nat): (r: Parse)
    requires p <= |t|
    ensures r.Got? ==> p <= r.p <= |t|
    decreases |t| - p, 8
  {
    var q := SkipSpace(t, p);
    if Looking(t, q, '+') || Looking(t, q, '-') || Looking(t, q, '!') || Looking(t, q, '~') then
      match Factor(num, scope, t, q + 1)
      case Fail => Fail
      case Got(e, k) =>
        Got(Unop(if t[q] == '+' then Plus
                 else Prefix(if t[q] == '-' then Neg else if t[q] == '!' then Not else BitNot), e), k)
    else Postfix(num, scope, t, q)
  }

  function Postfix(num: Numbers, scope: seq<string>, t: string, p: nat): (r: Parse)
    requires p <= |t|
    ensures r.Got? ==> p <= r.p <= |t|
    decreases |t| - p, 6
  {
    match Primary(num, scope, t, p)
    case Fail => Fail
    case Got(e, q) => PostfixRest(num, scope, t, e, q)
  }

  function PostfixRest(num: Numbers, scope: seq<string>, t: string, left: Expr, p: nat): (r: Parse)
    requires p <= |t|
    ensures r.Got? ==> p <= r.p <= |t|
    decreases |t| - p, 5
  {
    var q := SkipSpace(t, p);
    match OneSuffix(num, scope, t, q)
    case End => Got(left, q)
    case Broken => Fail
    case More(suffix, k) => PostfixRest(num, scope, t, Attach(left, suffix), k)
  }

  /** One property access, index or call. */
  function OneSuffix(num: Numbers, scope: seq<string>, t: string, p: nat): (r: Tail)
    requires p <= |t|
    ensures r.More? ==> p < r.p <= |t|
    decreases |t| - p, 4
  {
    if Looking(t, p, '.') then AfterDot(num, scope, t, p + 1)
    else if Looking(t, p, '[') then
      match Comma(num, scope, t, p + 1)
      case Fail => Broken
      case Got(i, k0) =>
        var k := SkipSpace(t, k0);
        if Looking(t, k, ']') then More(Subscript(i), k + 1) else Broken
    else if Looking(t, p, '(') then
      match ArgumentList(num, scope, t, p + 1)
      case FailArgs => Broken
      case GotArgs(args, m) => More(Arguments(args), m)
    else End
  }

  /** A property read or a method call, from just after the dot. */
  function AfterDot(num: Numbers, scope: seq<string>, t: string, p: nat): (r: Tail)
    requires p <= |t|
    ensures r.More? ==> p < r.p <= |t|
    decreases |t| - p, 25
  {
    var start := SkipSpace(t, p);
    var end := IdentEnd(t, start);
    if end == start then Broken
    else
      var k := SkipSpace(t, end);
      if Looking(t, k, '(') then
        match ArgumentList(num, scope, t, k + 1)
        case FailArgs => Broken
        case GotArgs(args, m) => More(Method(t[start..end], args), m)
      else More(Property(t[start..end]), k)
  }

  /** Arguments and closing parenthesis, from just after the opening one. */
  function ArgumentList(num: Numbers, scope: seq<string>, t: string, p: nat): (r: ParseArgs)
    requires p <= |t|
    ensures r.GotArgs? ==> p <= r.p <= |t|
    decreases |t| - p, 24
  {
    var q := SkipSpace(t, p);
    if Looking(t, q, ')') then GotArgs(NoArgs, q + 1)
    else
      match Conditional(num, scope, t, q)
      case Fail => FailArgs
      case Got(e, k) => ArgumentsRest(num, scope, t, Snoc(NoArgs, e), k)
  }

  function ArgumentsRest(num: Numbers, scope: seq<string>, t: string, args: Args, p: nat): (r: ParseArgs)
    requires p <= |t|
    ensures r.GotArgs? ==> p <= r.p <= |t|
    decreases |t| - p, 0
  {
    var q := SkipSpace(t, p);
    if Looking(t, q, ',') then
      match Conditional(num, scope, t, q + 1)
      case Fail => FailArgs
      case Got(e, k) => ArgumentsRest(num, scope, t, Snoc(args, e), k)
    else if Looking(t, q, ')') then GotArgs(args, q + 1)
    else FailArgs
  }

  /** A parenthesised expression from just after the opening parenthesis. */
  function Enclosed(num: Numbers, scope: seq<string>, t: string, p: nat): (r: Parse)
    requires p <= |t|
    ensures r.Got? ==> p <= r.p <= |t|
    decreases |t| - p, 26
  {
    match Comma(num, scope, t, p)
    case Fail => Fail
    case Got(e, k0) =>
      var k := SkipSpace(t, k0);
      if Looking(t, k, ')') then Got(e, k + 1) else Fail
  }

  function Primary(num: Numbers, scope: seq<string>, t: string, p: nat): (r: Parse)
    requires p <= |t|
    ensures r.Got? ==> p <= r.p <= |t|
    decreases |t| - p, 4
  {
    var q := SkipSpace(t, p);
    if q == |t| then Fail
    else if t[q] == '(' then Enclosed(num, scope, t, q + 1)
    else if t[q] == '\'' || t[q] == '"' then
      match ScanString(t, q + 1, t[q], "")
      case Unterminated => Fail
      case Token(s, k) => Got(Lit(Text(s)), k)
    else if IsDigit(t[q]) || t[q] == '.' then
      var k := NumberEnd(t, q);
      if num(t[q..k]).None? then Fail else Got(Lit(Number(t[q..k])), k)
    else
      var end := IdentEnd(t, q);
      if end == q then Fail
      else
        Word(num, scope, t, t[q..end], end)
  }

  /** The word `x` that ends at `p`: a literal, a `Number(...)` conversion, the global `Number`, or a variable. Only the last
      looks at the scope, and not here. */
  function Word(num: Numbers, scope: seq<string>, t: string, x: string, p: nat): (r: Parse)
    requires p <= |t|
    ensures r.Got? ==> p <= r.p <= |t|
    decreases |t| - p, 1
  {
    if x == "true" then Got(Lit(True), p)
    else if x == "false" then Got(Lit(False), p)
    else if x == "null" then Got(Lit(NullWord), p)
    else if x == "undefined" then Got(Lit(UndefinedWord), p)
    else if x == "Number" then
      var k := SkipSpace(t, p);
      if Looking(t, k, '(') then
        match Enclosed(num, scope, t, k + 1)
        case Fail => Fail
        case Got(e, m) => Got(Unop(Prefix(ToNumber), e), m)
      else Got(Global(x), k)
    else Got(Name(x), p)
  }

  /** A whole input: one comma expression and nothing after it but white space. */
  function Whole(num: Numbers, scope: seq<string>, t: string): Option<Expr> {
    match Comma(num, scope, t, 0)
    case Fail => None
    case Got(e, p) => if SkipSpace(t, p) == |t| then Some(e) else None
  }

  /** The tree a text denotes. The reader takes the UTF-8 bytes of the text, each for a character. */
  function Full(num: Numbers, scope: seq<string>, text: string): Option<Expr> {
    Whole(num, scope, Utf8.AsRead(text))
  }
}
