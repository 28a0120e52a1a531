/** Fully parenthesised printing, and the round trip through the grammar. */
module Printer {
  import opened Values
  import opened Syntax
  import opened Texts
  import opened Lexer
  import opened Grammar

  function OpText(op: BinOp): string {
    match op
    case Add => "+" case Sub => "-" case Mul => "*" case Div => "/" case Mod => "%"
    case Eq => "==" case Neq => "!=" case StrictEq => "===" case StrictNeq => "!=="
    case Lt => "<" case Gt => ">" case Le => "<=" case Ge => ">="
    case And => "&&" case Or => "||"
  }

  function SignText(op: Op1): string
    requires !op.Member?
  {
    match op
    case Plus => "+"
    case Prefix(u) => if u == Neg then "-" else if u == Not then "!" else if u == BitNot then "~" else "Number"
  }

  function QuotedChar(c: char): string {
    if c == '"' || c == '\\' then ['\\', c] else [c]
  }

  /** The body of a string literal: quotes and backslashes are escaped, everything else stands for itself. */
  function Quoted(s: string): string {
    if s == "" then ""
    else QuotedChar(s[0]) + Quoted(s[1..])
  }

  function LiteralText(lit: Literal): string {
    match lit
    case Number(lexeme) => lexeme
    case Text(s) => "\"" + (Quoted(s) + "\"")
    case True => "true"
    case False => "false"
    case NullWord => "null"
    case UndefinedWord => "undefined"
  }

  /** An expression in its own parentheses. */
  function Atom(e: Expr): string
    decreases e, 1
  {
    "(" + (Body(e) + ")")
  }

  function Body(e: Expr): string
    decreases e, 0
  {
    match e
    case Lit(lit) => LiteralText(lit)
    case Name(x) => x
    case Global(x) => x
    case Assign(x, e1) => x + ("=" + Atom(e1))
    case Update(x, op, e1) => x + ((if op == Add then "+=" else "-=") + Atom(e1))
    case Sequence(l, r) => Atom(l) + ("," + Atom(r))
    case Cond(c, a, b) => Atom(c) + ("?" + (Atom(a) + (":" + Atom(b))))
    case Binop(op, l, r) =>
      Atom(l) + (if op.Infix? then OpText(op.bop) + Atom(r) else "[" + (Atom(r) + "]"))
    case Unop(op, e1) => if op.Member? then Atom(e1) + ("." + op.name) else SignText(op) + Atom(e1)
    case Apply(fn, args) => Atom(fn) + ("(" + (ArgsText(args) + ")"))
    case Invoke(o, name, args) => Atom(o) + ("." + (name + ("(" + (ArgsText(args) + ")"))))
  }

  function ArgsText(args: Args): string
    decreases args, 0
  {
    match args
    case NoArgs => ""
    case Snoc(init, last) => if init.NoArgs? then Atom(last) else ArgsText(init) + ("," + Atom(last))
  }

  predicate IsKeyword(x: string) {
    x == "true" || x == "false" || x == "null" || x == "undefined" || x == "Number"
  }

  /** Trees a text can denote: names are identifiers, variables are not keywords, number texts are number tokens
      the host can read, and only locals are decremented by `-=`. */
  predicate Printable(num: Numbers, scope: seq<string>, e: Expr)
    decreases e, 0
  {
    match e
    case Lit(lit) => lit.Number? ==> IsNumberText(num, lit.lexeme)
    case Name(x) => IsIdentifier(x) && !IsKeyword(x)
    case Global(x) => x == "Number"
    case Assign(x, e1) => IsIdentifier(x) && Printable(num, scope, e1)
    case Update(x, op, e1) =>
      IsIdentifier(x) && (op == Add || (op == Sub && x in scope)) && Printable(num, scope, e1)
    case Sequence(l, r) => Printable(num, scope, l) && Printable(num, scope, r)
    case Cond(c, a, b) => Printable(num, scope, c) && Printable(num, scope, a) && Printable(num, scope, b)
    case Binop(_, l, r) => Printable(num, scope, l) && Printable(num, scope, r)
    case Unop(op, e1) => Printable(num, scope, e1) && (op.Member? ==> IsIdentifier(op.name))
    case Apply(fn, args) => Printable(num, scope, fn) && AllPrintable(num, scope, args)
    case Invoke(o, name, args) => Printable(num, scope, o) && IsIdentifier(name) && AllPrintable(num, scope, args)
  }

  predicate AllPrintable(num: Numbers, scope: seq<string>, args: Args)
    decreases args, 0
  {
    args.Snoc? ==> AllPrintable(num, scope, args.init) && Printable(num, scope, args.last)
  }

  /** A number token: the scanner reads exactly this text when a parenthesis follows. */
  predicate IsNumberText(num: Numbers, s: string) {
    && s != "" && (IsDigit(s[0]) || s[0] == '.')
    && NumberEnd(s + ")", 0) == |s|
    && num(s).Some?
  }

  lemma {:induction false} IdentSpan(t: string, p: nat, i: nat, x: string)
    requires IsIdentifier(x) && LookingAt(t, p, x) && 0 < i <= |x|
    requires p + |x| == |t| || !IsIdentPart(t[p + |x|])
    ensures SkipIdent(t, p + i) == p + |x|
    decreases |x| - i
  {
    if i < |x| {
      CharAt(t, p, x, i);
      IdentSpan(t, p, i + 1, x);
    }
  }

  /** An identifier ends where it stops being one. */
  lemma IdentAt(t: string, p: nat, x: string)
    requires IsIdentifier(x) && LookingAt(t, p, x)
    requires p + |x| == |t| || !IsIdentPart(t[p + |x|])
    ensures IdentEnd(t, p) == p + |x| && SkipSpace(t, p) == p && t[p..p + |x|] == x
  {
    CharAt(t, p, x, 0);
    IdentSpan(t, p, 1, x);
  }

  /** Nothing here continues a number. */
  predicate NumberStops(t: string, q: nat) {
    q >= |t| || (!IsDigit(t[q]) && t[q] !in ".eE+-")
  }

  /** Digits end at the same place wherever the text stands. */
  lemma {:induction false} ShiftDigits(t: string, p: nat, s: string, i: nat)
    requires LookingAt(t, p, s) && NumberStops(t, p + |s|) && i <= |s|
    ensures p + i <= |t| && SkipDigits(t, p + i) == p + SkipDigits(s + ")", i) && SkipDigits(s + ")", i) <= |s|
    decreases |s| - i
  {
    if i < |s| {
      CharAt(t, p, s, i);
      if IsDigit(s[i]) { ShiftDigits(t, p, s, i + 1); }
    }
  }

  lemma ShiftLooking(t: string, p: nat, s: string, i: nat, c: char)
    requires LookingAt(t, p, s) && NumberStops(t, p + |s|) && i <= |s| && c in ".eE+-"
    ensures Looking(t, p + i, c) == Looking(s + ")", i, c) && (Looking(s + ")", i, c) ==> i < |s|)
  {
    if i < |s| { CharAt(t, p, s, i); }
  }

  /** The number scanner sees the same token wherever the text stands. */
  lemma NumberAt(t: string, p: nat, s: string)
    requires s != "" && LookingAt(t, p, s) && NumberStops(t, p + |s|) && NumberEnd(s + ")", 0) == |s|
    ensures NumberEnd(t, p) == p + |s|
  {
    hide SkipDigits, LookingAt, Looking, NumberStops;
    var u := s + ")";
    ShiftLooking(t, p, s, 0, '.');
    var m: nat;
    if Looking(u, 0, '.') {
      ShiftDigits(t, p, s, 1);
      m := SkipDigits(u, 1);
    } else {
      ShiftDigits(t, p, s, 0);
      m := SkipDigits(u, 0);
      ShiftLooking(t, p, s, m, '.');
      if Looking(u, m, '.') {
        ShiftDigits(t, p, s, m + 1);
        m := SkipDigits(u, m + 1);
      }
    }
    ShiftLooking(t, p, s, m, 'e');
    ShiftLooking(t, p, s, m, 'E');
    if Looking(u, m, 'e') || Looking(u, m, 'E') {
      ShiftLooking(t, p, s, m + 1, '+');
      ShiftLooking(t, p, s, m + 1, '-');
      ShiftDigits(t, p, s, if Looking(u, m + 1, '+') || Looking(u, m + 1, '-') then m + 2 else m + 1);
    }
  }

  lemma QuotedStep(t: string, p: nat, c: char, acc: string)
    requires LookingAt(t, p, QuotedChar(c))
    ensures ScanString(t, p, '"', acc) == ScanString(t, p + |QuotedChar(c)|, '"', acc + [c])
  {
    CharAt(t, p, QuotedChar(c), 0);
    if |QuotedChar(c)| == 2 { CharAt(t, p, QuotedChar(c), 1); }
  }

  lemma {:induction false} QuotedAt(t: string, p: nat, s: string, acc: string)
    requires LookingAt(t, p, Quoted(s) + "\"")
    ensures ScanString(t, p, '"', acc) == Token(acc + s, p + |Quoted(s)| + 1)
    decreases s, 0
  {
    if s == "" {
      CharAt(t, p, Quoted(s) + "\"", 0);
      assert acc + s == acc;
    } else {
      assert Quoted(s) + "\"" == QuotedChar(s[0]) + (Quoted(s[1..]) + "\"");
      QuotedTail(t, p, s[0], s[1..], acc);
      assert acc + [s[0]] + s[1..] == acc + s;
    }
  }

  lemma {:induction false} QuotedTail(t: string, p: nat, c: char, s: string, acc: string)
    requires LookingAt(t, p, QuotedChar(c) + (Quoted(s) + "\""))
    ensures ScanString(t, p, '"', acc) == Token(acc + [c] + s, p + |QuotedChar(c)| + |Quoted(s)| + 1)
    decreases s, 1
  {
    hide *;
    Split(t, p, QuotedChar(c), Quoted(s) + "\"");
    QuotedStep(t, p, c, acc);
    QuotedAt(t, p + |QuotedChar(c)|, s, acc + [c]);
  }

  /** Three texts in a row, the middle one starting with a known character. */
  lemma Pieces(t: string, p: nat, a: string, sep: string, b: string)
    requires LookingAt(t, p, a + (sep + b)) && sep != ""
    ensures LookingAt(t, p, a) && LookingAt(t, p + |a|, sep) && LookingAt(t, p + |a| + |sep|, b)
    ensures p + |a| < |t| && t[p + |a|] == sep[0]
  {
    Split(t, p, a, sep + b);
    Split(t, p + |a|, sep, b);
    CharAt(t, p + |a|, sep, 0);
  }

  // ---- from one level to the next ----

  /** The reading stops at `q`: at the end of the text, or at a character that is neither space nor one of `chars`. */
  predicate Stops(t: string, q: nat, chars: string) {
    q == |t| || (q < |t| && !IsSpace(t[q]) && t[q] !in chars)
  }

  /** What may follow a complete expression inside parentheses, arguments, brackets or branches. */
  predicate Closer(t: string, q: nat) {
    q < |t| && (t[q] == ')' || t[q] == ',' || t[q] == ':' || t[q] == ']')
  }

  /** No name, sign or space starts here. */
  predicate Opens(t: string, p: nat) {
    p < |t| && !IsSpace(t[p]) && !IsIdentStart(t[p])
  }

  predicate Unsigned(t: string, p: nat) {
    p < |t| && !IsSpace(t[p]) && t[p] !in "+-!~"
  }

  lemma NotLooking(t: string, q: nat, word: string)
    requires word != "" && (q >= |t| || t[q] != word[0])
    ensures !LookingAt(t, q, word)
  {
    assert q + |word| <= |t| ==> t[q..q + |word|][0] == t[q];
  }

  lemma PrimaryToFactor(num: Numbers, scope: seq<string>, t: string, p: nat, e: Expr, q: nat)
    requires Unsigned(t, p) && Primary(num, scope, t, p) == Got(e, q) && Stops(t, q, ".[(")
    ensures Factor(num, scope, t, p) == Got(e, q)
  {
    assert OneSuffix(num, scope, t, q) == End;
    assert PostfixRest(num, scope, t, e, q) == Got(e, q);
    assert Postfix(num, scope, t, p) == Got(e, q);
  }

  lemma FactorToTerm(num: Numbers, scope: seq<string>, t: string, p: nat, e: Expr, q: nat)
    requires p <= |t| && Factor(num, scope, t, p) == Got(e, q) && Stops(t, q, "*/%")
    ensures Term(num, scope, t, p) == Got(e, q)
  {
    assert TermRest(num, scope, t, e, q) == Got(e, q);
  }

  lemma TermToSum(num: Numbers, scope: seq<string>, t: string, p: nat, e: Expr, q: nat)
    requires p <= |t| && Term(num, scope, t, p) == Got(e, q) && Stops(t, q, "+-")
    ensures Sum(num, scope, t, p) == Got(e, q)
  {
    assert SumRest(num, scope, t, e, q) == Got(e, q);
  }

  lemma SumToAssignment(num: Numbers, scope: seq<string>, t: string, p: nat)
    requires Opens(t, p)
    ensures Assignment(num, scope, t, p) == Sum(num, scope, t, p)
  {
  }

  lemma AssignmentToComparison(num: Numbers, scope: seq<string>, t: string, p: nat, e: Expr, q: nat)
    requires p <= |t| && Assignment(num, scope, t, p) == Got(e, q) && Stops(t, q, "=!<>")
    ensures Comparison(num, scope, t, p) == Got(e, q)
  {
    NotLooking(t, q, "==="); NotLooking(t, q, "!=="); NotLooking(t, q, "=="); NotLooking(t, q, "!=");
    NotLooking(t, q, "<="); NotLooking(t, q, ">=");
    assert CompareTail(num, scope, t, q) == NoOp;
    assert ComparisonRest(num, scope, t, e, q) == Got(e, q);
  }

  lemma ComparisonToConjunction(num: Numbers, scope: seq<string>, t: string, p: nat, e: Expr, q: nat)
    requires p <= |t| && Comparison(num, scope, t, p) == Got(e, q) && Stops(t, q, "&")
    ensures Conjunction(num, scope, t, p) == Got(e, q)
  {
    NotLooking(t, q, "&&");
    assert ConjunctionRest(num, scope, t, e, q) == Got(e, q);
  }

  lemma ConjunctionToDisjunction(num: Numbers, scope: seq<string>, t: string, p: nat, e: Expr, q: nat)
    requires p <= |t| && Conjunction(num, scope, t, p) == Got(e, q) && Stops(t, q, "|")
    ensures Disjunction(num, scope, t, p) == Got(e, q)
  {
    NotLooking(t, q, "||");
    assert DisjunctionRest(num, scope, t, e, q) == Got(e, q);
  }

  lemma DisjunctionToConditional(num: Numbers, scope: seq<string>, t: string, p: nat, e: Expr, q: nat)
    requires p <= |t| && Disjunction(num, scope, t, p) == Got(e, q) && Stops(t, q, "?")
    ensures Conditional(num, scope, t, p) == Got(e, q)
  {
  }

  lemma ConditionalToComma(num: Numbers, scope: seq<string>, t: string, p: nat, e: Expr, q: nat)
    requires p <= |t| && Conditional(num, scope, t, p) == Got(e, q) && Stops(t, q, ",")
    ensures Comma(num, scope, t, p) == Got(e, q)
  {
    assert CommaRest(num, scope, t, e, q) == Got(e, q);
  }

  // ---- several levels at once ----

  lemma PrimaryToSum(num: Numbers, scope: seq<string>, t: string, p: nat, e: Expr, q: nat)
    requires Unsigned(t, p) && Primary(num, scope, t, p) == Got(e, q) && Stops(t, q, ".[(*/%+-")
    ensures Sum(num, scope, t, p) == Got(e, q)
  {
    PrimaryToFactor(num, scope, t, p, e, q);
    FactorToTerm(num, scope, t, p, e, q);
    TermToSum(num, scope, t, p, e, q);
  }

  lemma FactorToAssignment(num: Numbers, scope: seq<string>, t: string, p: nat, e: Expr, q: nat)
    requires Opens(t, p) && Factor(num, scope, t, p) == Got(e, q) && Stops(t, q, "*/%+-")
    ensures Assignment(num, scope, t, p) == Got(e, q)
  {
    FactorToTerm(num, scope, t, p, e, q);
    TermToSum(num, scope, t, p, e, q);
    SumToAssignment(num, scope, t, p);
  }

  lemma AssignmentToDisjunction(num: Numbers, scope: seq<string>, t: string, p: nat, e: Expr, q: nat)
    requires p <= |t| && Assignment(num, scope, t, p) == Got(e, q) && Stops(t, q, "=!<>&|")
    ensures Disjunction(num, scope, t, p) == Got(e, q)
  {
    AssignmentToComparison(num, scope, t, p, e, q);
    ComparisonToConjunction(num, scope, t, p, e, q);
    ConjunctionToDisjunction(num, scope, t, p, e, q);
  }

  /** An assignment-level reading that stops at a closer is a whole conditional expression. */
  lemma Closed(num: Numbers, scope: seq<string>, t: string, p: nat, e: Expr, q: nat)
    requires p <= |t| && Assignment(num, scope, t, p) == Got(e, q) && Closer(t, q)
    ensures Conditional(num, scope, t, p) == Got(e, q)
  {
    AssignmentToDisjunction(num, scope, t, p, e, q);
    DisjunctionToConditional(num, scope, t, p, e, q);
  }

  /** An atom was read between `p` and `q`. */
  ghost predicate AtomRead(num: Numbers, scope: seq<string>, t: string, p: nat, e: Expr, q: nat) {
    p < q <= |t| && t[p] == '(' && Primary(num, scope, t, p) == Got(e, q)
  }

  lemma AtomAssignment(num: Numbers, scope: seq<string>, t: string, p: nat, e: Expr, q: nat)
    requires AtomRead(num, scope, t, p, e, q) && Stops(t, q, ".[(*/%+-")
    ensures Sum(num, scope, t, p) == Got(e, q) && Assignment(num, scope, t, p) == Got(e, q)
  {
    PrimaryToSum(num, scope, t, p, e, q);
    SumToAssignment(num, scope, t, p);
  }

  lemma AtomTerm(num: Numbers, scope: seq<string>, t: string, p: nat, e: Expr, q: nat)
    requires AtomRead(num, scope, t, p, e, q) && Stops(t, q, ".[(*/%")
    ensures Term(num, scope, t, p) == Got(e, q)
  {
    hide Primary, Factor, Term;
    PrimaryToFactor(num, scope, t, p, e, q);
    FactorToTerm(num, scope, t, p, e, q);
  }

  lemma AtomStarts(num: Numbers, scope: seq<string>, t: string, p: nat, e: Expr, q: nat)
    requires AtomRead(num, scope, t, p, e, q)
    ensures p < q <= |t| && t[p] == '('
  {
  }

  lemma AtomClosed(num: Numbers, scope: seq<string>, t: string, p: nat, e: Expr, q: nat)
    requires AtomRead(num, scope, t, p, e, q) && Closer(t, q)
    ensures Conditional(num, scope, t, p) == Got(e, q)
  {
    AtomAssignment(num, scope, t, p, e, q);
    Closed(num, scope, t, p, e, q);
  }

  // ---- constructs, by position ----

  lemma SequenceAt(num: Numbers, scope: seq<string>, t: string, p: nat, l: Expr, q1: nat, r: Expr, q: nat)
    requires AtomRead(num, scope, t, p, l, q1) && Looking(t, q1, ',')
    requires AtomRead(num, scope, t, q1 + 1, r, q) && Looking(t, q, ')')
    ensures Comma(num, scope, t, p) == Got(Sequence(l, r), q)
  {
    AtomClosed(num, scope, t, p, l, q1);
    AtomClosed(num, scope, t, q1 + 1, r, q);
    assert CommaRest(num, scope, t, Sequence(l, r), q) == Got(Sequence(l, r), q);
    assert CommaRest(num, scope, t, l, q1) == Got(Sequence(l, r), q);
  }

  lemma CondAt(num: Numbers, scope: seq<string>, t: string, p: nat, c: Expr, q1: nat, a: Expr, q2: nat, b: Expr, q: nat)
    requires AtomRead(num, scope, t, p, c, q1) && Looking(t, q1, '?')
    requires AtomRead(num, scope, t, q1 + 1, a, q2) && Looking(t, q2, ':')
    requires AtomRead(num, scope, t, q2 + 1, b, q) && Closer(t, q)
    ensures Conditional(num, scope, t, p) == Got(Cond(c, a, b), q)
  {
    hide Primary, Sum, Assignment;
    AtomClosed(num, scope, t, q1 + 1, a, q2);
    AtomClosed(num, scope, t, q2 + 1, b, q);
    assert BothBranches(num, scope, t, q1 + 1) == Two(a, b, q);
    AtomAssignment(num, scope, t, p, c, q1);
    AssignmentToDisjunction(num, scope, t, p, c, q1);
  }

  lemma PrimaryIsWord(num: Numbers, scope: seq<string>, t: string, p: nat, k: nat)
    requires p < k <= |t| && IsIdentStart(t[p]) && IdentEnd(t, p) == k
    ensures Primary(num, scope, t, p) == Word(num, scope, t, t[p..k], k)
  {
  }

  lemma WordAt(num: Numbers, scope: seq<string>, t: string, p: nat, x: string, e: Expr, q: nat)
    requires IsIdentifier(x) && LookingAt(t, p, x) && Closer(t, q)
    requires p + |x| < |t| && (t[p + |x|] == '(' || Closer(t, p + |x|))
    requires Word(num, scope, t, x, p + |x|) == Got(e, q)
    ensures Conditional(num, scope, t, p) == Got(e, q)
  {
    hide *;
    var k := p + |x|;
    WordStands(t, p, x);
    PrimaryIsWord(num, scope, t, p, k);
    NameClosed(num, scope, t, p, k, e, q);
  }

  lemma WordStands(t: string, p: nat, x: string)
    requires IsIdentifier(x) && LookingAt(t, p, x)
    requires p + |x| < |t| && (t[p + |x|] == '(' || Closer(t, p + |x|))
    ensures p < p + |x| && IsIdentStart(t[p]) && IdentEnd(t, p) == p + |x| && t[p..p + |x|] == x
  {
    IdentAt(t, p, x);
    CharAt(t, p, x, 0);
  }

  /** A reading that starts with a name and is not an assignment. */
  lemma NameClosed(num: Numbers, scope: seq<string>, t: string, p: nat, k: nat, e: Expr, q: nat)
    requires p < k < |t| && IsIdentStart(t[p]) && IdentEnd(t, p) == k && (t[k] == '(' || Closer(t, k))
    requires Primary(num, scope, t, p) == Got(e, q) && Closer(t, q)
    ensures Conditional(num, scope, t, p) == Got(e, q)
  {
    PrimaryToSum(num, scope, t, p, e, q);
    NotLooking(t, k, "+=");
    NotLooking(t, k, "-=");
    assert AfterName(num, scope, t, p, k) == Got(e, q);
    Closed(num, scope, t, p, e, q);
  }

  lemma AssignAt(num: Numbers, scope: seq<string>, t: string, p: nat, x: string, e1: Expr, q: nat)
    requires IsIdentifier(x) && LookingAt(t, p, x) && Looking(t, p + |x|, '=')
    requires AtomRead(num, scope, t, p + |x| + 1, e1, q) && Closer(t, q)
    ensures Conditional(num, scope, t, p) == Got(Assign(x, e1), q)
  {
    hide Conditional;
    IdentAt(t, p, x);
    var k := p + |x|;
    AtomAssignment(num, scope, t, k + 1, e1, q);
    NotLooking(t, k, "+=");
    NotLooking(t, k, "-=");
    assert AfterName(num, scope, t, p, k) == Got(Assign(x, e1), q);
    Closed(num, scope, t, p, Assign(x, e1), q);
  }

  lemma UpdateAt(num: Numbers, scope: seq<string>, t: string, p: nat, x: string, op: BinOp, e1: Expr, q: nat)
    requires op == Add || (op == Sub && x in scope)
    requires IsIdentifier(x) && LookingAt(t, p, x) && LookingAt(t, p + |x|, if op == Add then "+=" else "-=")
    requires AtomRead(num, scope, t, p + |x| + 2, e1, q) && Closer(t, q)
    ensures Conditional(num, scope, t, p) == Got(Update(x, op, e1), q)
  {
    var k := p + |x|;
    CharAt(t, k, if op == Add then "+=" else "-=", 0);
    IdentAt(t, p, x);
    AtomAssignment(num, scope, t, k + 2, e1, q);
    AtomStarts(num, scope, t, k + 2, e1, q);
    hide Conditional, Primary, Sum, AtomRead;
    UpdateAfterName(num, scope, t, p, x, op, e1, q);
    hide AfterName, LookingAt;
    Closed(num, scope, t, p, Update(x, op, e1), q);
  }

  lemma UpdateAfterName(num: Numbers, scope: seq<string>, t: string, p: nat, x: string, op: BinOp, e1: Expr, q: nat)
    requires (op == Add || (op == Sub && x in scope)) && x != "" && LookingAt(t, p, x)
    requires LookingAt(t, p + |x|, if op == Add then "+=" else "-=") && p + |x| + 2 <= |t| && !IsSpace(t[p + |x|])
    requires Sum(num, scope, t, p + |x| + 2) == Got(e1, q)
    ensures AfterName(num, scope, t, p, p + |x|) == Got(Update(x, op, e1), q)
  {
    hide Sum;
    var k := p + |x|;
    if op == Sub {
      CharAt(t, k, "-=", 0);
      NotLooking(t, k, "+=");
    }
  }

  lemma SignAt(num: Numbers, scope: seq<string>, t: string, p: nat, op: Op1, e1: Expr, q: nat)
    requires p < |t| && AtomRead(num, scope, t, p + 1, e1, q) && Closer(t, q)
    requires (op == Plus && t[p] == '+') || (op == Prefix(Neg) && t[p] == '-')
          || (op == Prefix(Not) && t[p] == '!') || (op == Prefix(BitNot) && t[p] == '~')
    ensures Conditional(num, scope, t, p) == Got(Unop(op, e1), q)
  {
    PrimaryToFactor(num, scope, t, p + 1, e1, q);
    assert Factor(num, scope, t, p) == Got(Unop(op, e1), q);
    FactorToAssignment(num, scope, t, p, Unop(op, e1), q);
    Closed(num, scope, t, p, Unop(op, e1), q);
  }

  /** An atom followed by one suffix, up to a closer. */
  lemma SuffixAt(num: Numbers, scope: seq<string>, t: string, p: nat, o: Expr, q1: nat, suffix: Suffix, q: nat)
    requires AtomRead(num, scope, t, p, o, q1) && q1 < |t| && !IsSpace(t[q1])
    requires OneSuffix(num, scope, t, q1) == More(suffix, q) && Closer(t, q)
    ensures Conditional(num, scope, t, p) == Got(Attach(o, suffix), q)
  {
    var e := Attach(o, suffix);
    assert OneSuffix(num, scope, t, q) == End;
    assert PostfixRest(num, scope, t, e, q) == Got(e, q);
    assert PostfixRest(num, scope, t, o, q1) == Got(e, q);
    assert Postfix(num, scope, t, p) == Got(e, q);
    assert Factor(num, scope, t, p) == Got(e, q);
    FactorToAssignment(num, scope, t, p, e, q);
    Closed(num, scope, t, p, e, q);
  }

  // ---- two atoms with an operator between them, up to a closer ----

  lemma ProductAt(num: Numbers, scope: seq<string>, t: string, p: nat, l: Expr, op: BinOp, q1: nat, r: Expr, q: nat)
    requires op in {Mul, Div, Mod} && AtomRead(num, scope, t, p, l, q1) && Looking(t, q1, OpText(op)[0])
    requires AtomRead(num, scope, t, q1 + 1, r, q) && Closer(t, q)
    ensures Conditional(num, scope, t, p) == Got(Binop(Infix(op), l, r), q)
  {
    var e := Binop(Infix(op), l, r);
    PrimaryToFactor(num, scope, t, p, l, q1);
    PrimaryToFactor(num, scope, t, q1 + 1, r, q);
    assert TermRest(num, scope, t, e, q) == Got(e, q);
    assert TermRest(num, scope, t, l, q1) == Got(e, q);
    assert Term(num, scope, t, p) == Got(e, q);
    TermToSum(num, scope, t, p, e, q);
    SumToAssignment(num, scope, t, p);
    Closed(num, scope, t, p, e, q);
  }

  lemma SumAt(num: Numbers, scope: seq<string>, t: string, p: nat, l: Expr, op: BinOp, q1: nat, r: Expr, q: nat)
    requires op in {Add, Sub} && AtomRead(num, scope, t, p, l, q1) && Looking(t, q1, OpText(op)[0])
    requires AtomRead(num, scope, t, q1 + 1, r, q) && Closer(t, q)
    ensures Conditional(num, scope, t, p) == Got(Binop(Infix(op), l, r), q)
  {
    hide Primary, Term, Assignment, Conditional, AtomRead;
    var e := Binop(Infix(op), l, r);
    AtomStarts(num, scope, t, p, l, q1);
    AtomStarts(num, scope, t, q1 + 1, r, q);
    AtomTerm(num, scope, t, p, l, q1);
    AtomTerm(num, scope, t, q1 + 1, r, q);
    assert SumRest(num, scope, t, e, q) == Got(e, q);
    assert SumRest(num, scope, t, l, q1) == Got(e, q);
    SumToAssignment(num, scope, t, p);
    Closed(num, scope, t, p, e, q);
  }

  lemma AtomComparison(num: Numbers, scope: seq<string>, t: string, p: nat, e: Expr, q: nat)
    requires AtomRead(num, scope, t, p, e, q) && Stops(t, q, ".[(*/%+-=!<>")
    ensures Comparison(num, scope, t, p) == Got(e, q)
  {
    hide Primary, Sum, Assignment, Comparison;
    AtomAssignment(num, scope, t, p, e, q);
    AssignmentToComparison(num, scope, t, p, e, q);
  }

  lemma AndAt(num: Numbers, scope: seq<string>, t: string, p: nat, l: Expr, q1: nat, r: Expr, q: nat)
    requires AtomRead(num, scope, t, p, l, q1) && LookingAt(t, q1, "&&")
    requires AtomRead(num, scope, t, q1 + 2, r, q) && Closer(t, q)
    ensures Conditional(num, scope, t, p) == Got(Binop(Infix(And), l, r), q)
  {
    var e := Binop(Infix(And), l, r);
    AtomStarts(num, scope, t, p, l, q1);
    AtomStarts(num, scope, t, q1 + 2, r, q);
    CharAt(t, q1, "&&", 0);
    NotLooking(t, q, "&&");
    hide Primary, Sum, Assignment, Comparison, Conditional, AtomRead, Disjunction, DisjunctionRest, LookingAt;
    AtomComparison(num, scope, t, p, l, q1);
    AtomComparison(num, scope, t, q1 + 2, r, q);
    assert ConjunctionRest(num, scope, t, e, q) == Got(e, q);
    assert ConjunctionRest(num, scope, t, l, q1) == Got(e, q);
    ConjunctionToDisjunction(num, scope, t, p, e, q);
    DisjunctionToConditional(num, scope, t, p, e, q);
  }

  lemma OrAt(num: Numbers, scope: seq<string>, t: string, p: nat, l: Expr, q1: nat, r: Expr, q: nat)
    requires AtomRead(num, scope, t, p, l, q1) && LookingAt(t, q1, "||")
    requires AtomRead(num, scope, t, q1 + 2, r, q) && Closer(t, q)
    ensures Conditional(num, scope, t, p) == Got(Binop(Infix(Or), l, r), q)
  {
    var e := Binop(Infix(Or), l, r);
    AtomStarts(num, scope, t, p, l, q1);
    AtomStarts(num, scope, t, q1 + 2, r, q);
    CharAt(t, q1, "||", 0);
    NotLooking(t, q, "||");
    hide Primary, Sum, Assignment, Comparison, Conditional, AtomRead, Conjunction, ConjunctionRest, LookingAt;
    AtomComparison(num, scope, t, p, l, q1);
    ComparisonToConjunction(num, scope, t, p, l, q1);
    AtomComparison(num, scope, t, q1 + 2, r, q);
    ComparisonToConjunction(num, scope, t, q1 + 2, r, q);
    assert DisjunctionRest(num, scope, t, e, q) == Got(e, q);
    assert DisjunctionRest(num, scope, t, l, q1) == Got(e, q);
    DisjunctionToConditional(num, scope, t, p, e, q);
  }

  lemma WordChars(t: string, p: nat, w: string)
    requires 0 < |w| <= 3
    ensures LookingAt(t, p, w) <==>
      p + |w| <= |t| && t[p] == w[0] && (|w| > 1 ==> t[p + 1] == w[1]) && (|w| > 2 ==> t[p + 2] == w[2])
  {
    if p + |w| <= |t| {
      var u := t[p..p + |w|];
      assert u == w <==> forall i :: 0 <= i < |w| ==> u[i] == w[i];
      assert forall i :: 0 <= i < |w| ==> u[i] == t[p + i];
      assert u[0] == t[p] && (|w| > 1 ==> u[1] == t[p + 1]) && (|w| > 2 ==> u[2] == t[p + 2]);
    }
  }

  /** The operator that was printed is the operator that is read, where no more of it could follow. */
  lemma CompareAt(t: string, p: nat, op: BinOp)
    requires op in {Eq, Neq, StrictEq, StrictNeq, Lt, Gt, Le, Ge}
    requires LookingAt(t, p, OpText(op)) && p + |OpText(op)| < |t| && t[p + |OpText(op)|] != '='
    ensures CompareOp(t, p) == Some((op, |OpText(op)|))
  {
    WordChars(t, p, OpText(op));
    WordChars(t, p, "==="); WordChars(t, p, "!=="); WordChars(t, p, "=="); WordChars(t, p, "!=");
    WordChars(t, p, "<="); WordChars(t, p, ">=");
  }

  lemma ComparedAt(num: Numbers, scope: seq<string>, t: string, p: nat, l: Expr, op: BinOp, q1: nat, r: Expr, q: nat)
    requires op in {Eq, Neq, StrictEq, StrictNeq, Lt, Gt, Le, Ge}
    requires AtomRead(num, scope, t, p, l, q1) && LookingAt(t, q1, OpText(op))
    requires AtomRead(num, scope, t, q1 + |OpText(op)|, r, q) && Closer(t, q)
    ensures Conditional(num, scope, t, p) == Got(Binop(Infix(op), l, r), q)
  {
    var e := Binop(Infix(op), l, r);
    CharAt(t, q1, OpText(op), 0);
    CompareAt(t, q1, op);
    ComparisonOf(num, scope, t, p, l, op, q1, r, q);
    ComparisonToConjunction(num, scope, t, p, e, q);
    ConjunctionToDisjunction(num, scope, t, p, e, q);
    DisjunctionToConditional(num, scope, t, p, e, q);
  }

  lemma ComparisonOf(num: Numbers, scope: seq<string>, t: string, p: nat, l: Expr, op: BinOp, q1: nat, r: Expr, q: nat)
    requires AtomRead(num, scope, t, p, l, q1) && Stops(t, q1, ".[(*/%+-") && q1 < |t| && Closer(t, q)
    requires CompareOp(t, q1) == Some((op, |OpText(op)|))
    requires AtomRead(num, scope, t, q1 + |OpText(op)|, r, q)
    ensures Comparison(num, scope, t, p) == Got(Binop(Infix(op), l, r), q)
  {
    hide CompareOp, Primary, Sum;
    var e := Binop(Infix(op), l, r);
    AtomAssignment(num, scope, t, p, l, q1);
    AtomAssignment(num, scope, t, q1 + |OpText(op)|, r, q);
    assert CompareTail(num, scope, t, q1) == AnOp(op, r, q);
    ComparedStops(num, scope, t, e, q);
    assert ComparisonRest(num, scope, t, l, q1) == Got(e, q);
  }

  lemma ComparedStops(num: Numbers, scope: seq<string>, t: string, e: Expr, q: nat)
    requires q <= |t| && Stops(t, q, "=!<>")
    ensures ComparisonRest(num, scope, t, e, q) == Got(e, q)
  {
    NotLooking(t, q, "==="); NotLooking(t, q, "!=="); NotLooking(t, q, "=="); NotLooking(t, q, "!=");
    NotLooking(t, q, "<="); NotLooking(t, q, ">=");
    assert CompareTail(num, scope, t, q) == NoOp;
  }

  lemma InfixAt(num: Numbers, scope: seq<string>, t: string, p: nat, l: Expr, op: BinOp, q1: nat, r: Expr, q: nat)
    requires AtomRead(num, scope, t, p, l, q1) && LookingAt(t, q1, OpText(op))
    requires AtomRead(num, scope, t, q1 + |OpText(op)|, r, q) && Closer(t, q)
    ensures Conditional(num, scope, t, p) == Got(Binop(Infix(op), l, r), q)
  {
    CharAt(t, q1, OpText(op), 0);
    if op in {Mul, Div, Mod} { ProductAt(num, scope, t, p, l, op, q1, r, q); }
    else if op in {Add, Sub} { SumAt(num, scope, t, p, l, op, q1, r, q); }
    else if op == And { AndAt(num, scope, t, p, l, q1, r, q); }
    else if op == Or { OrAt(num, scope, t, p, l, q1, r, q); }
    else { ComparedAt(num, scope, t, p, l, op, q1, r, q); }
  }

  // ---- printed texts ----

  /** Reading a printed atom gives the tree back, whatever follows it. */
  lemma {:induction false} ReadAtom(num: Numbers, scope: seq<string>, t: string, p: nat, e: Expr)
    requires Printable(num, scope, e) && LookingAt(t, p, Atom(e))
    ensures AtomRead(num, scope, t, p, e, p + |Atom(e)|)
    decreases e, 3
  {
    hide Comma, AtomRead;
    CharAt(t, p, Atom(e), 0);
    Split(t, p, "(", Body(e) + ")");
    ReadBody(num, scope, t, p + 1, e);
    CharAt(t, p + 1, Body(e) + ")", |Body(e)|);
    EnclosedAt(num, scope, t, p, e, p + 1 + |Body(e)|);
  }

  lemma EnclosedAt(num: Numbers, scope: seq<string>, t: string, p: nat, e: Expr, q: nat)
    requires Looking(t, p, '(') && Looking(t, q, ')') && Comma(num, scope, t, p + 1) == Got(e, q)
    ensures AtomRead(num, scope, t, p, e, q + 1)
  {
    assert Enclosed(num, scope, t, p + 1) == Got(e, q + 1);
  }

  /** Reading a printed body up to its parenthesis gives the tree back. */
  lemma {:induction false} ReadBody(num: Numbers, scope: seq<string>, t: string, p: nat, e: Expr)
    requires Printable(num, scope, e) && LookingAt(t, p, Body(e) + ")")
    ensures Comma(num, scope, t, p) == Got(e, p + |Body(e)|)
    decreases e, 2
  {
    hide Comma, Conditional, AtomRead, LookingAt, Body, Printable;
    var q := p + |Body(e)|;
    CharAt(t, p, Body(e) + ")", |Body(e)|);
    Split(t, p, Body(e), ")");
    if e.Sequence? {
      ReadSequence(num, scope, t, p, e);
    } else {
      ReadInner(num, scope, t, p, e);
      ConditionalToComma(num, scope, t, p, e, q);
    }
  }

  lemma {:induction false} ReadSequence(num: Numbers, scope: seq<string>, t: string, p: nat, e: Expr)
    requires e.Sequence? && Printable(num, scope, e)
    requires LookingAt(t, p, Body(e)) && Looking(t, p + |Body(e)|, ')')
    ensures Comma(num, scope, t, p) == Got(e, p + |Body(e)|)
    decreases e, 1
  {
    hide Comma, AtomRead, LookingAt, Atom, Body, Printable, Primary, Conditional;
    SequenceParts(num, scope, e);
    Pieces(t, p, Atom(e.l), ",", Atom(e.r));
    ReadAtom(num, scope, t, p, e.l);
    ReadAtom(num, scope, t, p + |Atom(e.l)| + 1, e.r);
    SequenceAt(num, scope, t, p, e.l, p + |Atom(e.l)|, e.r, p + |Body(e)|);
  }

  lemma SequenceParts(num: Numbers, scope: seq<string>, e: Expr)
    requires e.Sequence? && Printable(num, scope, e)
    ensures Body(e) == Atom(e.l) + ("," + Atom(e.r)) && Printable(num, scope, e.l) && Printable(num, scope, e.r)
  {
    hide Atom;
  }

  lemma {:induction false} ReadInner(num: Numbers, scope: seq<string>, t: string, p: nat, e: Expr)
    requires Printable(num, scope, e) && !e.Sequence?
    requires LookingAt(t, p, Body(e)) && Looking(t, p + |Body(e)|, ')')
    ensures Conditional(num, scope, t, p) == Got(e, p + |Body(e)|)
    decreases e, 1
  {
    hide Conditional;
    match e
    case Lit(_) => ReadLiteral(num, scope, t, p, e);
    case Name(x) => WordAt(num, scope, t, p, x, e, p + |x|);
    case Global(x) => WordAt(num, scope, t, p, x, e, p + |x|);
    case Assign(_, _) => ReadAssign(num, scope, t, p, e);
    case Update(_, _, _) => ReadUpdate(num, scope, t, p, e);
    case Cond(_, _, _) => ReadCond(num, scope, t, p, e);
    case Binop(op, _, _) => if op.Infix? { ReadInfix(num, scope, t, p, e); } else { ReadIndex(num, scope, t, p, e); }
    case Unop(op, _) => if op.Member? { ReadMember(num, scope, t, p, e); } else { ReadSigned(num, scope, t, p, e); }
    case Apply(_, _) => ReadApply(num, scope, t, p, e);
    case Invoke(_, _, _) => ReadInvoke(num, scope, t, p, e);
  }

  lemma {:induction false} ReadAssign(num: Numbers, scope: seq<string>, t: string, p: nat, e: Expr)
    requires e.Assign? && Printable(num, scope, e) && LookingAt(t, p, Body(e)) && Closer(t, p + |Body(e)|)
    ensures Conditional(num, scope, t, p) == Got(e, p + |Body(e)|)
    decreases e, 0
  {
    hide Conditional, Primary, Comma, AtomRead, ArgumentList;
    Pieces(t, p, e.x, "=", Atom(e.e));
    ReadAtom(num, scope, t, p + |e.x| + 1, e.e);
    AssignAt(num, scope, t, p, e.x, e.e, p + |Body(e)|);
  }

  lemma {:induction false} ReadUpdate(num: Numbers, scope: seq<string>, t: string, p: nat, e: Expr)
    requires e.Update? && Printable(num, scope, e) && LookingAt(t, p, Body(e)) && Closer(t, p + |Body(e)|)
    ensures Conditional(num, scope, t, p) == Got(e, p + |Body(e)|)
    decreases e, 0
  {
    hide *;
    UpdateParts(num, scope, e);
    var sign := if e.bop == Add then "+=" else "-=";
    Pieces(t, p, e.x, sign, Atom(e.e));
    ReadAtom(num, scope, t, p + |e.x| + 2, e.e);
    UpdateAt(num, scope, t, p, e.x, e.bop, e.e, p + |Body(e)|);
  }

  lemma UpdateParts(num: Numbers, scope: seq<string>, e: Expr)
    requires e.Update? && Printable(num, scope, e)
    ensures Body(e) == e.x + ((if e.bop == Add then "+=" else "-=") + Atom(e.e)) && Printable(num, scope, e.e)
    ensures IsIdentifier(e.x) && (e.bop == Add || (e.bop == Sub && e.x in scope))
  {
    hide Atom;
  }

  lemma ReadLiteral(num: Numbers, scope: seq<string>, t: string, p: nat, e: Expr)
    requires e.Lit? && Printable(num, scope, e)
    requires LookingAt(t, p, LiteralText(e.lit)) && Looking(t, p + |LiteralText(e.lit)|, ')')
    ensures Conditional(num, scope, t, p) == Got(e, p + |LiteralText(e.lit)|)
  {
    hide *;
    var q := p + |LiteralText(e.lit)|;
    if e.lit.Number? {
      NumberLiteral(num, scope, t, p, e, q);
    } else if e.lit.Text? {
      TextLiteral(num, scope, t, p, e, q);
    } else {
      WordLiteral(num, scope, t, p, e, q);
    }
  }

  lemma NumberLiteral(num: Numbers, scope: seq<string>, t: string, p: nat, e: Expr, q: nat)
    requires e.Lit? && e.lit.Number? && Printable(num, scope, e) && LookingAt(t, p, LiteralText(e.lit))
    requires q == p + |LiteralText(e.lit)| && Looking(t, q, ')')
    ensures Conditional(num, scope, t, p) == Got(e, q)
  {
    hide Conditional, Primary;
    NumberToken(num, scope, t, p, e.lit.lexeme);
    CharAt(t, p, e.lit.lexeme, 0);
    hide NumberEnd, LookingAt;
    TokenClosed(num, scope, t, p, e, q);
  }

  lemma TextLiteral(num: Numbers, scope: seq<string>, t: string, p: nat, e: Expr, q: nat)
    requires e.Lit? && e.lit.Text? && LookingAt(t, p, LiteralText(e.lit))
    requires q == p + |LiteralText(e.lit)| && Looking(t, q, ')')
    ensures Conditional(num, scope, t, p) == Got(e, q)
  {
    hide Conditional, Primary, Quoted, LookingAt;
    TextToken(num, scope, t, p, e.lit.s);
    CharAt(t, p, LiteralText(e.lit), 0);
    TokenClosed(num, scope, t, p, e, q);
  }

  lemma WordLiteral(num: Numbers, scope: seq<string>, t: string, p: nat, e: Expr, q: nat)
    requires e.Lit? && !e.lit.Number? && !e.lit.Text? && LookingAt(t, p, LiteralText(e.lit))
    requires q == p + |LiteralText(e.lit)| && Looking(t, q, ')')
    ensures Conditional(num, scope, t, p) == Got(e, q)
  {
    hide Conditional, Primary, Enclosed, LookingAt;
    WordAt(num, scope, t, p, LiteralText(e.lit), e, q);
  }

  /** A primary that is no name and stands alone. */
  lemma TokenClosed(num: Numbers, scope: seq<string>, t: string, p: nat, e: Expr, q: nat)
    requires Unsigned(t, p) && Opens(t, p) && Primary(num, scope, t, p) == Got(e, q) && Closer(t, q)
    ensures Conditional(num, scope, t, p) == Got(e, q)
  {
    hide Primary, Sum, Assignment, Conditional;
    PrimaryToSum(num, scope, t, p, e, q);
    SumToAssignment(num, scope, t, p);
    Closed(num, scope, t, p, e, q);
  }

  lemma NumberToken(num: Numbers, scope: seq<string>, t: string, p: nat, s: string)
    requires IsNumberText(num, s) && LookingAt(t, p, s) && Looking(t, p + |s|, ')')
    ensures Primary(num, scope, t, p) == Got(Lit(Number(s)), p + |s|)
  {
    hide NumberEnd, SkipDigits;
    CharAt(t, p, s, 0);
    NumberAt(t, p, s);
  }

  lemma TextToken(num: Numbers, scope: seq<string>, t: string, p: nat, s: string)
    requires LookingAt(t, p, "\"" + (Quoted(s) + "\""))
    ensures Primary(num, scope, t, p) == Got(Lit(Text(s)), p + |Quoted(s)| + 2)
  {
    CharAt(t, p, "\"" + (Quoted(s) + "\""), 0);
    Split(t, p, "\"", Quoted(s) + "\"");
    QuotedAt(t, p + 1, s, "");
    assert "" + s == s;
  }

  lemma CondParts(e: Expr)
    requires e.Cond?
    ensures Body(e) == Atom(e.c) + ("?" + (Atom(e.t) + (":" + Atom(e.f))))
    ensures |Body(e)| == |Atom(e.c)| + |Atom(e.t)| + |Atom(e.f)| + 2
  {
    hide Atom;
  }

  lemma CondText(t: string, p: nat, e: Expr) returns (q1: nat, q2: nat)
    requires e.Cond? && LookingAt(t, p, Body(e))
    ensures q1 == p + |Atom(e.c)| && q2 == q1 + 1 + |Atom(e.t)| && p + |Body(e)| == q2 + 1 + |Atom(e.f)|
    ensures LookingAt(t, p, Atom(e.c)) && LookingAt(t, q1 + 1, Atom(e.t)) && LookingAt(t, q2 + 1, Atom(e.f))
    ensures Looking(t, q1, '?') && Looking(t, q2, ':')
  {
    hide Body, Atom, LookingAt;
    CondParts(e);
    q1 := p + |Atom(e.c)|;
    q2 := q1 + 1 + |Atom(e.t)|;
    Pieces(t, p, Atom(e.c), "?", Atom(e.t) + (":" + Atom(e.f)));
    Pieces(t, q1 + 1, Atom(e.t), ":", Atom(e.f));
  }

  lemma {:induction false} ReadCond(num: Numbers, scope: seq<string>, t: string, p: nat, e: Expr)
    requires e.Cond? && Printable(num, scope, e) && LookingAt(t, p, Body(e)) && Closer(t, p + |Body(e)|)
    ensures Conditional(num, scope, t, p) == Got(e, p + |Body(e)|)
    decreases e, 0
  {
    hide Conditional, AtomRead, LookingAt, Looking;
    var q1, q2 := CondText(t, p, e);
    ReadThree(num, scope, t, p, e.c, q1, e.t, q2, e.f, p + |Body(e)|);
  }

  lemma {:induction false} ReadThree(num: Numbers, scope: seq<string>, t: string, p: nat, c: Expr, q1: nat, a: Expr,
                                     q2: nat, b: Expr, q: nat)
    requires Printable(num, scope, c) && Printable(num, scope, a) && Printable(num, scope, b)
    requires LookingAt(t, p, Atom(c)) && q1 == p + |Atom(c)| && Looking(t, q1, '?')
    requires LookingAt(t, q1 + 1, Atom(a)) && q2 == q1 + 1 + |Atom(a)| && Looking(t, q2, ':')
    requires LookingAt(t, q2 + 1, Atom(b)) && q == q2 + 1 + |Atom(b)| && Closer(t, q)
    ensures Conditional(num, scope, t, p) == Got(Cond(c, a, b), q)
    decreases Cond(c, a, b), -1
  {
    hide Printable, Atom, Body, LookingAt, Looking, Closer, Conditional, AtomRead, ArgumentList;
    ReadAtom(num, scope, t, p, c);
    ReadAtom(num, scope, t, q1 + 1, a);
    ReadAtom(num, scope, t, q2 + 1, b);
    CondAt(num, scope, t, p, c, q1, a, q2, b, q);
  }

  lemma {:induction false} ReadInfix(num: Numbers, scope: seq<string>, t: string, p: nat, e: Expr)
    requires e.Binop? && e.op2.Infix? && Printable(num, scope, e) && LookingAt(t, p, Body(e)) && Closer(t, p + |Body(e)|)
    ensures Conditional(num, scope, t, p) == Got(e, p + |Body(e)|)
    decreases e, 0
  {
    hide *;
    InfixParts(num, scope, e);
    var q1, w := p + |Atom(e.l)|, OpText(e.op2.bop);
    Pieces(t, p, Atom(e.l), w, Atom(e.r));
    ReadAtom(num, scope, t, p, e.l);
    ReadAtom(num, scope, t, q1 + |w|, e.r);
    InfixAt(num, scope, t, p, e.l, e.op2.bop, q1, e.r, p + |Body(e)|);
  }

  lemma InfixParts(num: Numbers, scope: seq<string>, e: Expr)
    requires e.Binop? && e.op2.Infix? && Printable(num, scope, e)
    ensures Body(e) == Atom(e.l) + (OpText(e.op2.bop) + Atom(e.r)) && OpText(e.op2.bop) != ""
    ensures Printable(num, scope, e.l) && Printable(num, scope, e.r)
  {
    hide Atom;
  }

  lemma IndexText(t: string, p: nat, e: Expr) returns (q1: nat, q2: nat)
    requires e.Binop? && e.op2.Index? && LookingAt(t, p, Body(e))
    ensures q1 == p + |Atom(e.l)| && q2 == q1 + 1 + |Atom(e.r)| && p + |Body(e)| == q2 + 1
    ensures LookingAt(t, p, Atom(e.l)) && LookingAt(t, q1 + 1, Atom(e.r))
    ensures Looking(t, q1, '[') && Looking(t, q2, ']')
  {
    q1 := p + |Atom(e.l)|;
    q2 := q1 + 1 + |Atom(e.r)|;
    Pieces(t, p, Atom(e.l), "[", Atom(e.r) + "]");
    Split(t, q1 + 1, Atom(e.r), "]");
    CharAt(t, q2, "]", 0);
  }

  lemma {:induction false} ReadIndex(num: Numbers, scope: seq<string>, t: string, p: nat, e: Expr)
    requires e.Binop? && e.op2.Index? && Printable(num, scope, e) && LookingAt(t, p, Body(e)) && Closer(t, p + |Body(e)|)
    ensures Conditional(num, scope, t, p) == Got(e, p + |Body(e)|)
    decreases e, 0
  {
    hide Conditional, Primary, Comma, AtomRead, ArgumentList, LookingAt, Atom;
    var q1, q2 := IndexText(t, p, e);
    ReadAtom(num, scope, t, p, e.l);
    ReadAtom(num, scope, t, q1 + 1, e.r);
    IndexAt(num, scope, t, p, e.l, q1, e.r, q2);
  }

  lemma IndexAt(num: Numbers, scope: seq<string>, t: string, p: nat, o: Expr, q1: nat, i: Expr, q2: nat)
    requires AtomRead(num, scope, t, p, o, q1) && Looking(t, q1, '[')
    requires AtomRead(num, scope, t, q1 + 1, i, q2) && Looking(t, q2, ']') && Closer(t, q2 + 1)
    ensures Conditional(num, scope, t, p) == Got(Binop(Index, o, i), q2 + 1)
  {
    AtomClosed(num, scope, t, q1 + 1, i, q2);
    ConditionalToComma(num, scope, t, q1 + 1, i, q2);
    SuffixAt(num, scope, t, p, o, q1, Subscript(i), q2 + 1);
  }

  lemma {:induction false} ReadMember(num: Numbers, scope: seq<string>, t: string, p: nat, e: Expr)
    requires e.Unop? && e.op1.Member? && Printable(num, scope, e) && LookingAt(t, p, Body(e)) && Closer(t, p + |Body(e)|)
    ensures Conditional(num, scope, t, p) == Got(e, p + |Body(e)|)
    decreases e, 0
  {
    hide Conditional, Primary, Comma, AtomRead, ArgumentList;
    var q1 := p + |Atom(e.e)|;
    Pieces(t, p, Atom(e.e), ".", e.op1.name);
    ReadAtom(num, scope, t, p, e.e);
    MemberAt(num, scope, t, p, e.e, q1, e.op1.name);
  }

  lemma {:induction false} ReadSigned(num: Numbers, scope: seq<string>, t: string, p: nat, e: Expr)
    requires e.Unop? && !e.op1.Member? && Printable(num, scope, e) && LookingAt(t, p, Body(e)) && Closer(t, p + |Body(e)|)
    ensures Conditional(num, scope, t, p) == Got(e, p + |Body(e)|)
    decreases e, 0
  {
    hide LookingAt, Closer, Conditional, AtomRead, ArgumentList;
    var w := SignText(e.op1);
    Split(t, p, w, Atom(e.e));
    CharAt(t, p, w, 0);
    ReadAtom(num, scope, t, p + |w|, e.e);
    if e.op1 == Prefix(ToNumber) {
      ConversionAt(num, scope, t, p, e.e, p + |Body(e)|);
    } else {
      SignAt(num, scope, t, p, e.op1, e.e, p + |Body(e)|);
    }
  }

  lemma MemberAt(num: Numbers, scope: seq<string>, t: string, p: nat, o: Expr, q1: nat, name: string)
    requires AtomRead(num, scope, t, p, o, q1) && Looking(t, q1, '.') && IsIdentifier(name)
    requires LookingAt(t, q1 + 1, name) && Closer(t, q1 + 1 + |name|)
    ensures Conditional(num, scope, t, p) == Got(Unop(Member(name), o), q1 + 1 + |name|)
  {
    hide AtomRead, Conditional, ArgumentList, Primary, Comma;
    IdentAt(t, q1 + 1, name);
    AtomStarts(num, scope, t, p, o, q1);
    hide LookingAt, IsIdentifier;
    assert AfterDot(num, scope, t, q1 + 1) == More(Property(name), q1 + 1 + |name|);
    hide AfterDot;
    SuffixAt(num, scope, t, p, o, q1, Property(name), q1 + 1 + |name|);
  }

  lemma ConversionAt(num: Numbers, scope: seq<string>, t: string, p: nat, e1: Expr, q: nat)
    requires LookingAt(t, p, "Number") && AtomRead(num, scope, t, p + 6, e1, q) && Closer(t, q)
    ensures Conditional(num, scope, t, p) == Got(Unop(Prefix(ToNumber), e1), q)
  {
    assert Enclosed(num, scope, t, p + 7) == Got(e1, q);
    assert Word(num, scope, t, "Number", p + 6) == Got(Unop(Prefix(ToNumber), e1), q);
    WordAt(num, scope, t, p, "Number", Unop(Prefix(ToNumber), e1), q);
  }

  lemma ApplyText(t: string, p: nat, e: Expr) returns (q1: nat)
    requires e.Apply? && LookingAt(t, p, Body(e))
    ensures q1 == p + |Atom(e.fn)| && p + |Body(e)| == q1 + 2 + |ArgsText(e.args)|
    ensures LookingAt(t, p, Atom(e.fn)) && LookingAt(t, q1 + 1, ArgsText(e.args) + ")") && Looking(t, q1, '(')
  {
    q1 := p + |Atom(e.fn)|;
    Pieces(t, p, Atom(e.fn), "(", ArgsText(e.args) + ")");
  }

  lemma {:induction false} ReadApply(num: Numbers, scope: seq<string>, t: string, p: nat, e: Expr)
    requires e.Apply? && Printable(num, scope, e) && LookingAt(t, p, Body(e)) && Closer(t, p + |Body(e)|)
    ensures Conditional(num, scope, t, p) == Got(e, p + |Body(e)|)
    decreases e, 0
  {
    hide Conditional, Primary, Comma, AtomRead, ArgumentList, LookingAt, Atom;
    var q1 := ApplyText(t, p, e);
    ReadAtom(num, scope, t, p, e.fn);
    ReadArgs(num, scope, t, q1 + 1, e.args);
    SuffixAt(num, scope, t, p, e.fn, q1, Arguments(e.args), p + |Body(e)|);
  }

  lemma {:induction false} ReadInvoke(num: Numbers, scope: seq<string>, t: string, p: nat, e: Expr)
    requires e.Invoke? && Printable(num, scope, e) && LookingAt(t, p, Body(e)) && Closer(t, p + |Body(e)|)
    ensures Conditional(num, scope, t, p) == Got(e, p + |Body(e)|)
    decreases e, 0
  {
    hide *;
    InvokeParts(num, scope, e);
    var q1 := p + |Atom(e.o)|;
    var k := q1 + 1 + |e.name|;
    MethodText(t, p, Atom(e.o), e.name, ArgsText(e.args));
    ReadAtom(num, scope, t, p, e.o);
    ReadArgs(num, scope, t, k + 1, e.args);
    MethodAt(num, scope, t, p, e.o, q1, e.name, e.args, p + |Body(e)|);
  }

  lemma InvokeParts(num: Numbers, scope: seq<string>, e: Expr)
    requires e.Invoke? && Printable(num, scope, e)
    ensures Body(e) == Atom(e.o) + ("." + (e.name + ("(" + (ArgsText(e.args) + ")"))))
    ensures |Body(e)| == |Atom(e.o)| + |e.name| + |ArgsText(e.args)| + 3
    ensures Printable(num, scope, e.o) && AllPrintable(num, scope, e.args) && IsIdentifier(e.name)
  {
    hide Atom, ArgsText, IsIdentifier;
  }

  lemma MethodText(t: string, p: nat, o: string, name: string, args: string)
    requires LookingAt(t, p, o + ("." + (name + ("(" + (args + ")")))))
    ensures var q1 := p + |o|; var k := q1 + 1 + |name|;
      && LookingAt(t, p, o) && Looking(t, q1, '.') && LookingAt(t, q1 + 1, name) && Looking(t, k, '(')
      && LookingAt(t, k + 1, args + ")")
  {
    hide LookingAt;
    Pieces(t, p, o, ".", name + ("(" + (args + ")")));
    Pieces(t, p + |o| + 1, name, "(", args + ")");
  }

  lemma MethodAt(num: Numbers, scope: seq<string>, t: string, p: nat, o: Expr, q1: nat, name: string, args: Args, q: nat)
    requires AtomRead(num, scope, t, p, o, q1) && Looking(t, q1, '.') && IsIdentifier(name)
    requires LookingAt(t, q1 + 1, name) && Looking(t, q1 + 1 + |name|, '(') && Closer(t, q)
    requires ArgumentList(num, scope, t, q1 + 2 + |name|) == GotArgs(args, q)
    ensures Conditional(num, scope, t, p) == Got(Invoke(o, name, args), q)
  {
    hide AtomRead, Conditional, ArgumentList, Primary;
    IdentAt(t, q1 + 1, name);
    AtomStarts(num, scope, t, p, o, q1);
    assert AfterDot(num, scope, t, q1 + 1) == More(Method(name, args), q);
    SuffixAt(num, scope, t, p, o, q1, Method(name, args), q);
  }

  lemma {:induction false} ReadArgs(num: Numbers, scope: seq<string>, t: string, p: nat, args: Args)
    requires AllPrintable(num, scope, args) && LookingAt(t, p, ArgsText(args) + ")")
    ensures ArgumentList(num, scope, t, p) == GotArgs(args, p + |ArgsText(args)| + 1)
    decreases args, 1
  {
    var q := p + |ArgsText(args)|;
    CharAt(t, p, ArgsText(args) + ")", |ArgsText(args)|);
    Split(t, p, ArgsText(args), ")");
    if args.Snoc? {
      ReadSomeArgs(num, scope, t, p, args);
      assert ArgumentsRest(num, scope, t, args, q) == GotArgs(args, q + 1);
    }
  }

  /** After a printed nonempty list the argument reader stands at its end with that list, whatever comes next. */
  lemma {:induction false} ReadSomeArgs(num: Numbers, scope: seq<string>, t: string, p: nat, args: Args)
    requires args.Snoc? && AllPrintable(num, scope, args) && LookingAt(t, p, ArgsText(args))
    requires Closer(t, p + |ArgsText(args)|)
    ensures ArgumentList(num, scope, t, p) == ArgumentsRest(num, scope, t, args, p + |ArgsText(args)|)
    decreases args, 0
  {
    hide ArgumentList, ArgumentsRest, AtomRead, Printable, LookingAt, Atom;
    var q := p + |ArgsText(args)|;
    if args.init.NoArgs? {
      ReadAtom(num, scope, t, p, args.last);
      FirstArgAt(num, scope, t, p, args.last, q);
    } else {
      var q1 := p + |ArgsText(args.init)|;
      Pieces(t, p, ArgsText(args.init), ",", Atom(args.last));
      ReadSomeArgs(num, scope, t, p, args.init);
      ReadAtom(num, scope, t, q1 + 1, args.last);
      NextArgAt(num, scope, t, args.init, q1, args.last, q);
    }
  }

  lemma FirstArgAt(num: Numbers, scope: seq<string>, t: string, p: nat, e: Expr, q: nat)
    requires AtomRead(num, scope, t, p, e, q) && Closer(t, q)
    ensures ArgumentList(num, scope, t, p) == ArgumentsRest(num, scope, t, Snoc(NoArgs, e), q)
  {
    AtomClosed(num, scope, t, p, e, q);
  }

  lemma NextArgAt(num: Numbers, scope: seq<string>, t: string, args: Args, q1: nat, e: Expr, q: nat)
    requires Looking(t, q1, ',') && AtomRead(num, scope, t, q1 + 1, e, q) && Closer(t, q)
    ensures ArgumentsRest(num, scope, t, args, q1) == ArgumentsRest(num, scope, t, Snoc(args, e), q)
  {
    AtomClosed(num, scope, t, q1 + 1, e, q);
  }

  /** Reading the print of a tree, taken as input, gives the tree back. */
  lemma ReadsBack(num: Numbers, scope: seq<string>, e: Expr)
    requires Printable(num, scope, e)
    ensures Whole(num, scope, Atom(e)) == Some(e)
  {
    var t := Atom(e);
    assert t[0..0 + |t|] == t;
    ReadAtom(num, scope, t, 0, e);
    WholeAtom(num, scope, t, e);
  }

  /** A primary that is the whole text is the whole reading. */
  lemma WholeAtom(num: Numbers, scope: seq<string>, t: string, e: Expr)
    requires AtomRead(num, scope, t, 0, e, |t|)
    ensures Whole(num, scope, t) == Some(e)
  {
    AtomAssignment(num, scope, t, 0, e, |t|);
    WholeAssignment(num, scope, t, e);
  }

  /** So is an assignment. */
  lemma WholeAssignment(num: Numbers, scope: seq<string>, t: string, e: Expr)
    requires Assignment(num, scope, t, 0) == Got(e, |t|)
    ensures Whole(num, scope, t) == Some(e)
  {
    AssignmentToDisjunction(num, scope, t, 0, e, |t|);
    DisjunctionToConditional(num, scope, t, 0, e, |t|);
    ConditionalToComma(num, scope, t, 0, e, |t|);
  }
}
