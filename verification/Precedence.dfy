/** Printing with no parentheses but those that are needed: how tightly each operator holds its operands, and what a text
    without parentheses therefore means (src/compiler.rs, the parse levels). */
module Precedence {
  import opened Values
  import opened Syntax
  import opened Texts
  import opened Lexer
  import opened Grammar
  import opened Printer
  import Utf8

  /** How tightly an infix operator holds. All comparisons are alike. */
  function OpRank(op: BinOp): nat {
    match op
    case Or => 2
    case And => 3
    case Add => 6
    case Sub => 6
    case Mul => 7
    case Div => 7
    case Mod => 7
    case _ => 4
  }

  /** How tightly a tree holds: from sequences, which hold least, to operands with suffixes, which hold most. An assignment
      holds tighter than a comparison. */
  function Rank(e: Expr): nat {
    match e
    case Sequence(_, _) => 0
    case Cond(_, _, _) => 1
    case Binop(op, _, _) => if op.Infix? then OpRank(op.bop) else 9
    case Assign(_, _) => 5
    case Update(_, _, _) => 5
    case Unop(op, _) => if op.Member? || op == Prefix(ToNumber) then 9 else 8
    case _ => 9
  }

  /** The print of an operand that must hold at least as tightly as `k`. */
  function Show(e: Expr, k: nat): string
    decreases e, 2
  {
    if Rank(e) < k then Wrap(e) else Bare(e)
  }

  function Wrap(e: Expr): string
    decreases e, 1
  {
    "(" + (Bare(e) + ")")
  }

  /** An operand before a dot: a number would take the dot for its own. */
  function Receiver(e: Expr): string
    decreases e, 3
  {
    if IsNumeral(e) then Wrap(e) else Show(e, 9)
  }

  predicate IsNumeral(e: Expr) {
    e.Lit? && e.lit.Number?
  }

  /** An operand before arguments: a property would be called as a method, and `Number` as a conversion. */
  function Callee(e: Expr): string
    decreases e, 3
  {
    if TakesArguments(e) then Wrap(e) else Show(e, 9)
  }

  predicate TakesArguments(e: Expr) {
    e.Global? || (e.Unop? && e.op1.Member?)
  }

  function Bare(e: Expr): string
    decreases e, 0
  {
    match e
    case Lit(lit) => LiteralText(lit)
    case Name(x) => x
    case Global(x) => x
    case Assign(x, e1) => x + (" = " + Show(e1, 5))
    case Update(x, op, e1) => x + ((if op == Add then " += " else " -= ") + Show(e1, 6))
    case Sequence(l, r) => Show(l, 0) + (", " + Show(r, 1))
    case Cond(c, a, b) => Show(c, 2) + (" ? " + (Show(a, 1) + (" : " + Show(b, 1))))
    case Binop(op, l, r) =>
      if op.Infix? then Show(l, OpRank(op.bop)) + (Spaced(op.bop) + Show(r, OpRank(op.bop) + 1))
      else Show(l, 9) + ("[" + (Show(r, 0) + "]"))
    case Unop(op, e1) =>
      if op.Member? then Receiver(e1) + ("." + op.name)
      else if op == Prefix(ToNumber) then "Number" + ("(" + (Show(e1, 0) + ")"))
      else SignText(op) + Show(e1, 8)
    case Apply(fn, args) => Callee(fn) + ("(" + (ShowArgs(args) + ")"))
    case Invoke(o, name, args) => Receiver(o) + ("." + (name + ("(" + (ShowArgs(args) + ")"))))
  }

  function Spaced(op: BinOp): string {
    " " + OpText(op) + " "
  }

  function ShowArgs(args: Args): string
    decreases args, 0
  {
    match args
    case NoArgs => ""
    case Snoc(init, last) => if init.NoArgs? then Show(last, 1) else ShowArgs(init) + (", " + Show(last, 1))
  }

  // ---- the levels of the grammar ----

  /** The reader of rank `k`. */
  function Level(num: Numbers, scope: seq<string>, t: string, p: nat, k: nat): Parse
    requires p <= |t|
  {
    if k == 0 then Comma(num, scope, t, p)
    else if k == 1 then Conditional(num, scope, t, p)
    else if k == 2 then Disjunction(num, scope, t, p)
    else if k == 3 then Conjunction(num, scope, t, p)
    else if k == 4 then Comparison(num, scope, t, p)
    else if k == 5 then Assignment(num, scope, t, p)
    else if k == 6 then Sum(num, scope, t, p)
    else if k == 7 then Term(num, scope, t, p)
    else if k == 8 then Factor(num, scope, t, p)
    else Postfix(num, scope, t, p)
  }

  /** How that reader goes on with a tree in hand. */
  function Rest(num: Numbers, scope: seq<string>, t: string, e: Expr, q: nat, k: nat): Parse
    requires q <= |t|
  {
    if k == 0 then CommaRest(num, scope, t, e, q)
    else if k == 2 then DisjunctionRest(num, scope, t, e, q)
    else if k == 3 then ConjunctionRest(num, scope, t, e, q)
    else if k == 4 then ComparisonRest(num, scope, t, e, q)
    else if k == 6 then SumRest(num, scope, t, e, q)
    else if k == 7 then TermRest(num, scope, t, e, q)
    else if k == 9 then PostfixRest(num, scope, t, e, q)
    else Got(e, SkipSpace(t, q))
  }

  /** The rank at which a character goes on with what was read, or -1 when none does. */
  function Onward(c: char): int {
    if c == ',' then 0
    else if c == '?' || c == '|' then 2
    else if c == '&' then 3
    else if c == '=' || c == '!' || c == '<' || c == '>' then 4
    else if c == '+' || c == '-' then 6
    else if c == '*' || c == '/' || c == '%' then 7
    else if c == '.' || c == '[' || c == '(' then 9
    else -1
  }

  /** At `s` stands no operator of rank `k`. */
  predicate Ends(t: string, s: nat, k: nat) {
    s >= |t| || t[s] == '?' || Onward(t[s]) != k
  }

  predicate Assigning(t: string, s: nat) {
    LookingAt(t, s, "+=") || LookingAt(t, s, "-=") || (Looking(t, s, '=') && !Looking(t, s + 1, '='))
  }

  /** The text from `q` on leaves a tree of rank `k` alone. */
  predicate Free(t: string, q: nat, k: nat) {
    && q <= |t| && (q == |t| || t[q] in " )],.[(")
    && var s := SkipSpace(t, q);
       !Assigning(t, s) && (s == |t| || Onward(t[s]) <= k)
  }

  /** A name at `p` is not assigned to. */
  predicate Unassigned(t: string, p: nat)
    requires p <= |t|
  {
    var k := IdentEnd(t, p);
    k == p || !Assigning(t, SkipSpace(t, k))
  }

  predicate Begins(t: string, p: nat) {
    p < |t| && !IsSpace(t[p]) && t[p] != ')'
  }

  /** Between `p` and `q` stands what rank `k` reads as `e`. */
  ghost predicate Reads(num: Numbers, scope: seq<string>, t: string, p: nat, e: Expr, q: nat, k: nat) {
    && p < q <= |t| && Begins(t, p)
    && Level(num, scope, t, p, k) == Rest(num, scope, t, e, q, k)
    && (k >= 6 ==> Unassigned(t, p))
    && (k >= 9 ==> t[p] !in "+-!~")
  }

  lemma SpaceTwice(t: string, p: nat)
    requires p <= |t|
    ensures SkipSpace(t, SkipSpace(t, p)) == SkipSpace(t, p)
  {
  }

  /** White space before a text is skipped at every rank. */
  lemma {:induction false} Lead(num: Numbers, scope: seq<string>, t: string, p: nat, k: nat)
    requires p < |t| && IsSpace(t[p]) && k <= 9
    ensures Level(num, scope, t, p, k) == Level(num, scope, t, p + 1, k)
    decreases 9 - k
  {
    assert SkipSpace(t, p) == SkipSpace(t, p + 1);
    if k == 9 {
      assert Primary(num, scope, t, p) == Primary(num, scope, t, p + 1);
    } else {
      hide Primary;
      Lead(num, scope, t, p, k + 1);
      LeadStep(num, scope, t, p, k);
    }
  }

  lemma LeadStep(num: Numbers, scope: seq<string>, t: string, p: nat, k: nat)
    requires p < |t| && IsSpace(t[p]) && k < 9 && SkipSpace(t, p) == SkipSpace(t, p + 1)
    requires Level(num, scope, t, p, k + 1) == Level(num, scope, t, p + 1, k + 1)
    ensures Level(num, scope, t, p, k) == Level(num, scope, t, p + 1, k)
  {
    hide CommaRest, DisjunctionRest, ConjunctionRest, ComparisonRest, AfterName, SumRest, TermRest, BothBranches;
  }

  /** The reader of rank `k` stops where nothing of its own follows. */
  lemma Settled(num: Numbers, scope: seq<string>, t: string, e: Expr, q: nat, k: nat)
    requires q <= |t| && k <= 9 && Ends(t, SkipSpace(t, q), k)
    ensures Rest(num, scope, t, e, q, k) == Got(e, SkipSpace(t, q))
  {
    var s := SkipSpace(t, q);
    if k == 4 {
      ComparisonSettled(num, scope, t, e, q);
    } else if k == 9 {
      PostfixSettled(num, scope, t, e, q);
    } else {
      if k == 2 { NotLooking(t, s, "||"); }
      if k == 3 { NotLooking(t, s, "&&"); }
      hide SkipSpace, LookingAt, PostfixRest, ComparisonRest, Conditional, Conjunction, Comparison, Term, Factor;
    }
  }

  lemma ComparisonSettled(num: Numbers, scope: seq<string>, t: string, e: Expr, q: nat)
    requires q <= |t| && Ends(t, SkipSpace(t, q), 4)
    ensures ComparisonRest(num, scope, t, e, q) == Got(e, SkipSpace(t, q))
  {
    var s := SkipSpace(t, q);
    SpaceTwice(t, q);
    ComparedStops(num, scope, t, e, s);
    RestOfSpace(num, scope, t, e, q, 4);
    hide SkipSpace, ComparisonRest;
  }

  lemma PostfixSettled(num: Numbers, scope: seq<string>, t: string, e: Expr, q: nat)
    requires q <= |t| && Ends(t, SkipSpace(t, q), 9)
    ensures PostfixRest(num, scope, t, e, q) == Got(e, SkipSpace(t, q))
  {
    hide SkipSpace, AfterDot, Comma, ArgumentList;
    assert OneSuffix(num, scope, t, SkipSpace(t, q)) == End;
    hide OneSuffix;
  }

  lemma FreeAbove(t: string, q: nat, j: nat, k: nat)
    requires Free(t, q, j) && j <= k
    ensures Free(t, q, k)
  {
  }

  /** A tree that is left alone is read at the next lower rank too. */
  lemma DownStep(num: Numbers, scope: seq<string>, t: string, p: nat, e: Expr, q: nat, k: nat)
    requires k < 9 && Reads(num, scope, t, p, e, q, k + 1) && Free(t, q, k)
    ensures Reads(num, scope, t, p, e, q, k)
  {
    var s := SkipSpace(t, q);
    SpaceTwice(t, q);
    Settled(num, scope, t, e, q, k + 1);
    hide SkipSpace, Level, Rest, Assigning, Unassigned;
    StepDown(num, scope, t, p, e, q, k);
  }

  lemma StepDown(num: Numbers, scope: seq<string>, t: string, p: nat, e: Expr, q: nat, k: nat)
    requires k < 9 && p < q <= |t| && Begins(t, p) && Level(num, scope, t, p, k + 1) == Got(e, SkipSpace(t, q))
    requires k >= 5 ==> Unassigned(t, p)
    requires k == 8 ==> t[p] !in "+-!~"
    requires k == 1 ==> !Looking(t, SkipSpace(t, q), '?')
    ensures Level(num, scope, t, p, k) == Rest(num, scope, t, e, q, k)
  {
    var s := SkipSpace(t, q);
    SpaceTwice(t, q);
    assert SkipSpace(t, p) == p;
    hide SkipSpace;
    RestOfSpace(num, scope, t, e, q, k);
    if k == 5 {
      assert Assignment(num, scope, t, p) == Sum(num, scope, t, p);
    } else if k == 8 {
      assert Factor(num, scope, t, p) == Postfix(num, scope, t, p);
    }
  }

  lemma RestOfSpace(num: Numbers, scope: seq<string>, t: string, e: Expr, q: nat, k: nat)
    requires q <= |t|
    ensures Rest(num, scope, t, e, q, k) == Rest(num, scope, t, e, SkipSpace(t, q), k)
  {
    var s := SkipSpace(t, q);
    SpaceTwice(t, q);
    hide SkipSpace, LookingAt, Conditional, Conjunction, Comparison, CompareTail, Term, Factor, OneSuffix;
    if k == 6 { SumSpace(num, scope, t, e, q, s); }
    else if k == 7 { TermSpace(num, scope, t, e, q, s); }
    else if k == 9 { PostfixSpace(num, scope, t, e, q, s); }
    else { hide SumRest, TermRest, PostfixRest; }
  }

  lemma SumSpace(num: Numbers, scope: seq<string>, t: string, e: Expr, q: nat, s: nat)
    requires q <= |t| && s == SkipSpace(t, q) == SkipSpace(t, s)
    ensures SumRest(num, scope, t, e, q) == SumRest(num, scope, t, e, s)
  {
    hide SkipSpace, Term;
  }

  lemma TermSpace(num: Numbers, scope: seq<string>, t: string, e: Expr, q: nat, s: nat)
    requires q <= |t| && s == SkipSpace(t, q) == SkipSpace(t, s)
    ensures TermRest(num, scope, t, e, q) == TermRest(num, scope, t, e, s)
  {
    hide SkipSpace, Factor;
  }

  lemma PostfixSpace(num: Numbers, scope: seq<string>, t: string, e: Expr, q: nat, s: nat)
    requires q <= |t| && s == SkipSpace(t, q) == SkipSpace(t, s)
    ensures PostfixRest(num, scope, t, e, q) == PostfixRest(num, scope, t, e, s)
  {
    hide SkipSpace, OneSuffix;
  }

  lemma {:induction false} Down(num: Numbers, scope: seq<string>, t: string, p: nat, e: Expr, q: nat, k: nat, j: nat)
    requires j <= k <= 9 && Reads(num, scope, t, p, e, q, k) && Free(t, q, j)
    ensures Reads(num, scope, t, p, e, q, j)
    decreases k - j
  {
    hide *;
    if j < k {
      FreeAbove(t, q, j, k - 1);
      DownStep(num, scope, t, p, e, q, k - 1);
      Down(num, scope, t, p, e, q, k - 1, j);
    }
  }

  // ---- constructs, by position ----

  /** A tree of rank `k` that is left alone is all that its reader reads, with or without a space before it. */
  lemma Operand(num: Numbers, scope: seq<string>, t: string, p: nat, e: Expr, q: nat, k: nat)
    requires k <= 9 && Reads(num, scope, t, p, e, q, k) && Ends(t, SkipSpace(t, q), k)
    ensures p < |t| && q <= |t| && Level(num, scope, t, p, k) == Got(e, SkipSpace(t, q))
    ensures p > 0 && t[p - 1] == ' ' ==> Level(num, scope, t, p - 1, k) == Got(e, SkipSpace(t, q))
  {
    if p > 0 && t[p - 1] == ' ' { Lead(num, scope, t, p - 1, k); }
    Settled(num, scope, t, e, q, k);
    hide Level, Rest;
  }

  lemma Enclosing(num: Numbers, scope: seq<string>, t: string, p: nat, e: Expr, q: nat)
    requires Looking(t, p, '(') && Reads(num, scope, t, p + 1, e, q, 0) && Looking(t, q, ')')
    ensures Enclosed(num, scope, t, p + 1) == Got(e, q + 1)
    ensures Reads(num, scope, t, p, e, q + 1, 9)
  {
    Operand(num, scope, t, p + 1, e, q, 0);
    hide Comma, CommaRest, PostfixRest;
    assert Enclosed(num, scope, t, p + 1) == Got(e, q + 1);
    hide Enclosed;
    assert Primary(num, scope, t, p) == Got(e, q + 1);
  }

  lemma InfixStep(num: Numbers, scope: seq<string>, t: string, p: nat, l: Expr, op: BinOp, q1: nat, r: Expr, q: nat)
    requires Reads(num, scope, t, p, l, q1, OpRank(op)) && LookingAt(t, q1, Spaced(op))
    requires Reads(num, scope, t, q1 + |Spaced(op)|, r, q, OpRank(op) + 1) && Free(t, q, OpRank(op))
    ensures Reads(num, scope, t, p, Binop(Infix(op), l, r), q, OpRank(op))
  {
    hide *;
    var k, e := OpRank(op), Binop(Infix(op), l, r);
    Ranked(op);
    OperatorStands(t, q1, op);
    FreeEnds(t, q, k);
    Operand(num, scope, t, q1 + |Spaced(op)|, r, q, k + 1);
    Within(num, scope, t, q1 + |Spaced(op)|, r, q, k + 1);
    Continues(num, scope, t, l, op, q1, r, SkipSpace(t, q));
    RestOfSpace(num, scope, t, e, q, k);
    ReadsOn(num, scope, t, p, l, q1, e, q, k);
  }

  lemma Ranked(op: BinOp)
    ensures 2 <= OpRank(op) <= 7
  {
  }

  lemma FreeEnds(t: string, q: nat, k: nat)
    requires Free(t, q, k)
    ensures q <= |t| && Ends(t, SkipSpace(t, q), k + 1)
  {
  }

  /** A reader that goes on from one tree to a larger one has read the larger one. */
  lemma ReadsOn(num: Numbers, scope: seq<string>, t: string, p: nat, l: Expr, q1: nat, e: Expr, q: nat, k: nat)
    requires Reads(num, scope, t, p, l, q1, k) && q1 < q <= |t| && Rest(num, scope, t, l, q1, k) == Rest(num, scope, t, e, q, k)
    ensures Reads(num, scope, t, p, e, q, k)
  {
    hide Level, Rest, Unassigned;
  }

  lemma Within(num: Numbers, scope: seq<string>, t: string, p: nat, e: Expr, q: nat, k: nat)
    requires Reads(num, scope, t, p, e, q, k)
    ensures p < q <= |t|
  {
  }

  lemma OperatorStands(t: string, p: nat, op: BinOp)
    requires LookingAt(t, p, Spaced(op))
    ensures |Spaced(op)| == |OpText(op)| + 2 && p + |OpText(op)| + 1 < |t|
    ensures SkipSpace(t, p) == p + 1 && LookingAt(t, p + 1, OpText(op)) && t[p + 1] == OpText(op)[0]
    ensures t[p] == ' ' && t[p + |OpText(op)| + 1] == ' '
  {
    var w := OpText(op);
    Split(t, p, " " + w, " ");
    Split(t, p, " ", w);
    CharAt(t, p, " ", 0);
    CharAt(t, p + 1, w, 0);
    CharAt(t, p + 1 + |w|, " ", 0);
  }

  /** The reader of an operator's rank takes it with its right operand. */
  lemma Continues(num: Numbers, scope: seq<string>, t: string, l: Expr, op: BinOp, q1: nat, r: Expr, q: nat)
    requires q1 + |OpText(op)| + 1 < |t| && SkipSpace(t, q1) == q1 + 1 && LookingAt(t, q1 + 1, OpText(op))
    requires t[q1 + 1] == OpText(op)[0] && t[q1 + |OpText(op)| + 1] == ' '
    requires Level(num, scope, t, q1 + |OpText(op)| + 1, OpRank(op) + 1) == Got(r, q)
    ensures q <= |t| && Rest(num, scope, t, l, q1, OpRank(op)) == Rest(num, scope, t, Binop(Infix(op), l, r), q, OpRank(op))
  {
    if OpRank(op) == 4 {
      ComparisonContinues(num, scope, t, l, op, q1, r, q);
    } else {
      hide Factor, Term, Assignment, Comparison, Conjunction, CompareTail, ComparisonRest;
    }
  }

  lemma ComparisonContinues(num: Numbers, scope: seq<string>, t: string, l: Expr, op: BinOp, q1: nat, r: Expr, q: nat)
    requires OpRank(op) == 4 && q1 + |OpText(op)| + 1 < |t| && SkipSpace(t, q1) == q1 + 1
    requires LookingAt(t, q1 + 1, OpText(op)) && t[q1 + |OpText(op)| + 1] == ' '
    requires Assignment(num, scope, t, q1 + |OpText(op)| + 1) == Got(r, q)
    ensures q <= |t| && ComparisonRest(num, scope, t, l, q1) == ComparisonRest(num, scope, t, Binop(Infix(op), l, r), q)
  {
    TailIs(num, scope, t, op, q1 + 1, r, q);
    hide Assignment, CompareTail, OpText, LookingAt, SkipSpace, OpRank;
  }

  lemma TailIs(num: Numbers, scope: seq<string>, t: string, op: BinOp, p: nat, r: Expr, q: nat)
    requires OpRank(op) == 4 && p + |OpText(op)| < |t| && LookingAt(t, p, OpText(op)) && t[p + |OpText(op)|] == ' '
    requires Assignment(num, scope, t, p + |OpText(op)|) == Got(r, q)
    ensures CompareTail(num, scope, t, p) == AnOp(op, r, q)
  {
    CompareAt(t, p, op);
    hide Assignment, CompareOp, OpText, LookingAt;
  }

  lemma SequenceStep(num: Numbers, scope: seq<string>, t: string, p: nat, l: Expr, q1: nat, r: Expr, q: nat)
    requires Reads(num, scope, t, p, l, q1, 0) && LookingAt(t, q1, ", ")
    requires Reads(num, scope, t, q1 + 2, r, q, 1)
    ensures Reads(num, scope, t, p, Sequence(l, r), q, 0)
  {
    WordChars(t, q1, ", ");
    Operand(num, scope, t, q1 + 2, r, q, 1);
    hide Conditional;
    RestOfSpace(num, scope, t, Sequence(l, r), q, 0);
  }

  lemma CondStep(num: Numbers, scope: seq<string>, t: string, p: nat, c: Expr, q1: nat, a: Expr, q2: nat, b: Expr, q: nat)
    requires Reads(num, scope, t, p, c, q1, 2) && LookingAt(t, q1, " ? ")
    requires Reads(num, scope, t, q1 + 3, a, q2, 1) && LookingAt(t, q2, " : ")
    requires Reads(num, scope, t, q2 + 3, b, q, 1)
    ensures Reads(num, scope, t, p, Cond(c, a, b), q, 1)
  {
    WordChars(t, q1, " ? ");
    WordChars(t, q2, " : ");
    assert SkipSpace(t, q1) == q1 + 1 && SkipSpace(t, q2) == q2 + 1;
    hide LookingAt, SkipSpace, Unassigned;
    Operand(num, scope, t, p, c, q1, 2);
    Operand(num, scope, t, q1 + 3, a, q2, 1);
    Operand(num, scope, t, q2 + 3, b, q, 1);
    SpaceTwice(t, q);
    BranchesRead(num, scope, t, p, c, q1, a, q2, b, SkipSpace(t, q));
  }

  lemma BranchesRead(num: Numbers, scope: seq<string>, t: string, p: nat, c: Expr, q1: nat, a: Expr, q2: nat, b: Expr, s: nat)
    requires p <= |t| && q1 + 2 < |t| && q2 + 2 < |t| && Disjunction(num, scope, t, p) == Got(c, q1 + 1)
    requires SkipSpace(t, q1 + 1) == q1 + 1 && t[q1 + 1] == '?' && Conditional(num, scope, t, q1 + 2) == Got(a, q2 + 1)
    requires SkipSpace(t, q2 + 1) == q2 + 1 && t[q2 + 1] == ':' && Conditional(num, scope, t, q2 + 2) == Got(b, s)
    ensures Conditional(num, scope, t, p) == Got(Cond(c, a, b), s)
  {
    hide Disjunction, SkipSpace;
    assert BothBranches(num, scope, t, q1 + 2) == Two(a, b, s);
  }

  lemma AssignStep(num: Numbers, scope: seq<string>, t: string, p: nat, x: string, e: Expr, q: nat)
    requires IsIdentifier(x) && LookingAt(t, p, x) && LookingAt(t, p + |x|, " = ")
    requires Reads(num, scope, t, p + |x| + 3, e, q, 5)
    ensures Reads(num, scope, t, p, Assign(x, e), q, 5)
  {
    var k := p + |x|;
    WordChars(t, k, " = ");
    NameStands(t, p, x);
    Operand(num, scope, t, k + 3, e, q, 5);
    assert SkipSpace(t, k) == k + 1;
    NotLooking(t, k + 1, "+=");
    NotLooking(t, k + 1, "-=");
    hide SkipSpace, Sum;
    assert AfterName(num, scope, t, p, k) == Got(Assign(x, e), SkipSpace(t, q));
  }

  lemma UpdateStep(num: Numbers, scope: seq<string>, t: string, p: nat, x: string, op: BinOp, e: Expr, q: nat)
    requires (op == Add || (op == Sub && x in scope)) && IsIdentifier(x) && LookingAt(t, p, x)
    requires LookingAt(t, p + |x|, if op == Add then " += " else " -= ")
    requires Reads(num, scope, t, p + |x| + 4, e, q, 6) && Free(t, q, 5)
    ensures Reads(num, scope, t, p, Update(x, op, e), q, 5)
  {
    hide *;
    var k := p + |x|;
    UpdateStands(t, k, op);
    NameStands(t, p, x);
    SumOperand(num, scope, t, k + 4, e, q);
    UpdateRead(num, scope, t, p, x, op, e, SkipSpace(t, q));
    NamedReads(num, scope, t, p, k, Update(x, op, e), q);
  }

  lemma SumOperand(num: Numbers, scope: seq<string>, t: string, p: nat, e: Expr, q: nat)
    requires Reads(num, scope, t, p, e, q, 6) && Free(t, q, 5)
    ensures p < q <= |t| && (p > 0 && t[p - 1] == ' ' ==> Sum(num, scope, t, p - 1) == Got(e, SkipSpace(t, q)))
  {
    Operand(num, scope, t, p, e, q, 6);
  }

  /** A name that nothing continues. */
  lemma NameStands(t: string, p: nat, x: string)
    requires IsIdentifier(x) && LookingAt(t, p, x) && (p + |x| == |t| || !IsIdentPart(t[p + |x|]))
    ensures p < p + |x| <= |t| && IdentEnd(t, p) == p + |x| && t[p..p + |x|] == x && Begins(t, p) && IsIdentStart(t[p])
    ensures t[p] !in "+-!~"
  {
    IdentAt(t, p, x);
    CharAt(t, p, x, 0);
  }

  lemma UpdateStands(t: string, k: nat, op: BinOp)
    requires LookingAt(t, k, if op == Add then " += " else " -= ")
    ensures k + 3 < |t| && SkipSpace(t, k) == k + 1 && !IsIdentPart(t[k]) && t[k + 3] == ' '
    ensures LookingAt(t, k + 1, if op == Add then "+=" else "-=")
    ensures op != Add ==> !LookingAt(t, k + 1, "+=")
  {
    if op == Add { SignedStands(t, k, "+="); }
    else {
      SignedStands(t, k, "-=");
      NotLooking(t, k + 1, "+=");
    }
  }

  lemma SignedStands(t: string, k: nat, w: string)
    requires |w| == 2 && !IsSpace(w[0]) && LookingAt(t, k, " " + w + " ")
    ensures k + 3 < |t| && SkipSpace(t, k) == k + 1 && LookingAt(t, k + 1, w) && t[k + 1] == w[0]
    ensures t[k] == ' ' && t[k + 3] == ' '
  {
    assert " " + w + " " == " " + (w + " ");
    Pieces(t, k, " ", w, " ");
    CharAt(t, k, " ", 0);
    CharAt(t, k + 1, w, 0);
    CharAt(t, k + 3, " ", 0);
  }

  lemma UpdateRead(num: Numbers, scope: seq<string>, t: string, p: nat, x: string, op: BinOp, e: Expr, s: nat)
    requires op == Add || (op == Sub && x in scope)
    requires x != "" && p + |x| + 3 < |t| && t[p..p + |x|] == x && SkipSpace(t, p + |x|) == p + |x| + 1
    requires LookingAt(t, p + |x| + 1, if op == Add then "+=" else "-=")
    requires op != Add ==> !LookingAt(t, p + |x| + 1, "+=")
    requires Sum(num, scope, t, p + |x| + 3) == Got(e, s)
    ensures AfterName(num, scope, t, p, p + |x|) == Got(Update(x, op, e), s)
  {
    hide Sum, SkipSpace, LookingAt;
  }

  /** An assignment of either kind. */
  lemma NamedReads(num: Numbers, scope: seq<string>, t: string, p: nat, k: nat, e: Expr, q: nat)
    requires p < k < q <= |t| && IdentEnd(t, p) == k && Begins(t, p)
    requires AfterName(num, scope, t, p, k) == Got(e, SkipSpace(t, q))
    ensures Reads(num, scope, t, p, e, q, 5)
  {
    hide AfterName, Sum, IdentEnd;
  }

  lemma SignStep(num: Numbers, scope: seq<string>, t: string, p: nat, op: Op1, e: Expr, q: nat)
    requires !op.Member? && op != Prefix(ToNumber) && LookingAt(t, p, SignText(op))
    requires Reads(num, scope, t, p + 1, e, q, 8)
    ensures Reads(num, scope, t, p, Unop(op, e), q, 8)
  {
    WordChars(t, p, SignText(op));
    hide Postfix;
  }

  /** One suffix after an operand. */
  lemma SuffixStep(num: Numbers, scope: seq<string>, t: string, p: nat, o: Expr, q1: nat, suffix: Suffix, s: nat, q: nat)
    requires Reads(num, scope, t, p, o, q1, 9) && q1 < q <= |t| && s <= |t| && !IsSpace(t[q1])
    requires OneSuffix(num, scope, t, q1) == More(suffix, s) && SkipSpace(t, q) == SkipSpace(t, s)
    ensures Reads(num, scope, t, p, Attach(o, suffix), q, 9)
  {
    assert SkipSpace(t, q1) == q1;
    hide *;
    RestOfSpace(num, scope, t, Attach(o, suffix), q, 9);
    RestOfSpace(num, scope, t, Attach(o, suffix), s, 9);
    SuffixTaken(num, scope, t, o, q1, suffix, s);
    ReadsOn(num, scope, t, p, o, q1, Attach(o, suffix), q, 9);
  }

  lemma SuffixTaken(num: Numbers, scope: seq<string>, t: string, o: Expr, q1: nat, suffix: Suffix, s: nat)
    requires q1 < |t| && s <= |t| && SkipSpace(t, q1) == q1 && OneSuffix(num, scope, t, q1) == More(suffix, s)
    ensures Rest(num, scope, t, o, q1, 9) == Rest(num, scope, t, Attach(o, suffix), s, 9)
  {
    hide OneSuffix, SkipSpace, Attach;
  }

  lemma IndexStep(num: Numbers, scope: seq<string>, t: string, p: nat, o: Expr, q1: nat, i: Expr, q2: nat)
    requires Reads(num, scope, t, p, o, q1, 9) && Looking(t, q1, '[')
    requires Reads(num, scope, t, q1 + 1, i, q2, 0) && Looking(t, q2, ']')
    ensures Reads(num, scope, t, p, Binop(Index, o, i), q2 + 1, 9)
  {
    Operand(num, scope, t, q1 + 1, i, q2, 0);
    hide Comma, Postfix, PostfixRest;
    assert OneSuffix(num, scope, t, q1) == More(Subscript(i), q2 + 1);
    hide OneSuffix, Reads, Level, Rest;
    SuffixStep(num, scope, t, p, o, q1, Subscript(i), q2 + 1, q2 + 1);
  }

  lemma MemberStep(num: Numbers, scope: seq<string>, t: string, p: nat, o: Expr, q1: nat, name: string)
    requires Reads(num, scope, t, p, o, q1, 9) && Looking(t, q1, '.') && IsIdentifier(name) && LookingAt(t, q1 + 1, name)
    requires var q := q1 + 1 + |name|; (q == |t| || !IsIdentPart(t[q])) && !Looking(t, SkipSpace(t, q), '(')
    ensures Reads(num, scope, t, p, Unop(Member(name), o), q1 + 1 + |name|, 9)
  {
    hide *;
    var q := q1 + 1 + |name|;
    Within(num, scope, t, p, o, q1, 9);
    NameStands(t, q1 + 1, name);
    Dotted(t, q1);
    BeginsHere(t, q1 + 1);
    SpaceTwice(t, q);
    AttachIs(o, name);
    PropertySuffix(num, scope, t, q1, q);
    SuffixStep(num, scope, t, p, o, q1, Property(name), SkipSpace(t, q), q);
  }

  lemma Dotted(t: string, p: nat)
    requires Looking(t, p, '.')
    ensures p < |t| && !IsSpace(t[p])
  {
  }

  lemma AttachIs(o: Expr, name: string)
    ensures Attach(o, Property(name)) == Unop(Member(name), o)
  {
  }

  lemma BeginsHere(t: string, p: nat)
    requires Begins(t, p)
    ensures p <= |t| && SkipSpace(t, p) == p
  {
  }

  lemma PropertySuffix(num: Numbers, scope: seq<string>, t: string, p: nat, q: nat)
    requires Looking(t, p, '.') && p + 1 < q <= |t| && SkipSpace(t, p + 1) == p + 1 && IdentEnd(t, p + 1) == q
    requires !Looking(t, SkipSpace(t, q), '(')
    ensures OneSuffix(num, scope, t, p) == More(Property(t[p + 1..q]), SkipSpace(t, q))
  {
    hide SkipSpace, IdentEnd, ArgumentList, Comma;
  }

  lemma MethodSuffix(num: Numbers, scope: seq<string>, t: string, p: nat, k: nat, args: Args, q: nat)
    requires Looking(t, p, '.') && p + 1 < k < |t| && SkipSpace(t, p + 1) == p + 1 && IdentEnd(t, p + 1) == k
    requires SkipSpace(t, k) == k && t[k] == '(' && ArgumentList(num, scope, t, k + 1) == GotArgs(args, q)
    ensures OneSuffix(num, scope, t, p) == More(Method(t[p + 1..k], args), q)
  {
    hide SkipSpace, IdentEnd, ArgumentList, Comma;
  }

  lemma ApplyStep(num: Numbers, scope: seq<string>, t: string, p: nat, fn: Expr, q1: nat, args: Args, q: nat)
    requires Reads(num, scope, t, p, fn, q1, 9) && Looking(t, q1, '(')
    requires ArgumentList(num, scope, t, q1 + 1) == GotArgs(args, q)
    ensures q <= |t| && Reads(num, scope, t, p, Apply(fn, args), q, 9)
  {
    hide Postfix, PostfixRest, ArgumentList;
    assert OneSuffix(num, scope, t, q1) == More(Arguments(args), q);
    hide OneSuffix, Reads, Level, Rest;
    SuffixStep(num, scope, t, p, fn, q1, Arguments(args), q, q);
  }

  lemma InvokeStep(num: Numbers, scope: seq<string>, t: string, p: nat, o: Expr, q1: nat, name: string, args: Args, q: nat)
    requires Reads(num, scope, t, p, o, q1, 9) && Looking(t, q1, '.') && IsIdentifier(name) && LookingAt(t, q1 + 1, name)
    requires Looking(t, q1 + 1 + |name|, '(') && ArgumentList(num, scope, t, q1 + 2 + |name|) == GotArgs(args, q)
    ensures q <= |t| && Reads(num, scope, t, p, Invoke(o, name, args), q, 9)
  {
    hide *;
    var k := q1 + 1 + |name|;
    Opening(t, k);
    Within(num, scope, t, p, o, q1, 9);
    NameStands(t, q1 + 1, name);
    Dotted(t, q1);
    BeginsHere(t, q1 + 1);
    ArgumentsEnd(num, scope, t, k + 1);
    MethodIs(o, name, args);
    MethodSuffix(num, scope, t, q1, k, args, q);
    SuffixStep(num, scope, t, p, o, q1, Method(name, args), q, q);
  }

  lemma Opening(t: string, k: nat)
    requires Looking(t, k, '(')
    ensures k < |t| && t[k] == '(' && SkipSpace(t, k) == k && !IsIdentPart(t[k])
  {
  }

  lemma ArgumentsEnd(num: Numbers, scope: seq<string>, t: string, p: nat)
    requires p <= |t|
    ensures ArgumentList(num, scope, t, p).GotArgs? ==> p <= ArgumentList(num, scope, t, p).p <= |t|
  {
    hide ArgumentList;
  }

  lemma MethodIs(o: Expr, name: string, args: Args)
    ensures Attach(o, Method(name, args)) == Invoke(o, name, args)
  {
  }

  /** A primary that is no word. */
  lemma PrimaryStep(num: Numbers, scope: seq<string>, t: string, p: nat, e: Expr, q: nat)
    requires p < q <= |t| && Primary(num, scope, t, p) == Got(e, q) && Begins(t, p) && !IsIdentStart(t[p])
    requires t[p] !in "+-!~"
    ensures Reads(num, scope, t, p, e, q, 9)
  {
    hide Primary, PostfixRest;
  }

  /** A word, with its arguments when it is a conversion, that is not assigned to. */
  lemma WordStep(num: Numbers, scope: seq<string>, t: string, p: nat, x: string, e: Expr, s: nat, q: nat)
    requires IsIdentifier(x) && LookingAt(t, p, x) && (p + |x| == |t| || !IsIdentPart(t[p + |x|]))
    requires !Assigning(t, SkipSpace(t, p + |x|))
    requires Word(num, scope, t, x, p + |x|) == Got(e, s) && p < q <= |t| && SkipSpace(t, q) == SkipSpace(t, s)
    ensures Reads(num, scope, t, p, e, q, 9)
  {
    hide *;
    NameStands(t, p, x);
    WordEnds(num, scope, t, x, p + |x|);
    PrimaryIsWord(num, scope, t, p, p + |x|);
    NamedPrimary(num, scope, t, p, p + |x|, e, s, q);
  }

  lemma WordEnds(num: Numbers, scope: seq<string>, t: string, x: string, p: nat)
    requires p <= |t|
    ensures Word(num, scope, t, x, p).Got? ==> Word(num, scope, t, x, p).p <= |t|
  {
    hide Word;
  }

  lemma NamedPrimary(num: Numbers, scope: seq<string>, t: string, p: nat, k: nat, e: Expr, s: nat, q: nat)
    requires p < k <= |t| && IdentEnd(t, p) == k && Begins(t, p) && t[p] !in "+-!~" && !Assigning(t, SkipSpace(t, k))
    requires Primary(num, scope, t, p) == Got(e, s) && p < q <= |t| && s <= |t| && SkipSpace(t, q) == SkipSpace(t, s)
    ensures Reads(num, scope, t, p, e, q, 9)
  {
    hide Assigning, Primary, IdentEnd, SkipSpace;
    RestOfSpace(num, scope, t, e, q, 9);
    RestOfSpace(num, scope, t, e, s, 9);
    assert Postfix(num, scope, t, p) == PostfixRest(num, scope, t, e, s);
  }

  // ---- what leaves a tree alone ----

  /** A number is not followed by a dot, nor a property or `Number` by arguments. */
  predicate Fits(t: string, q: nat, e: Expr) {
    (IsNumeral(e) ==> !Looking(t, q, '.')) && (TakesArguments(e) ==> q <= |t| && !Looking(t, SkipSpace(t, q), '('))
  }

  lemma FreeFits(t: string, q: nat, k: nat, e: Expr)
    requires k < 9 && Free(t, q, k)
    ensures Fits(t, q, e)
  {
  }

  lemma FreeHere(t: string, q: nat, k: nat)
    requires q < |t| && t[q] in ")],.[(" && Onward(t[q]) <= k
    ensures Free(t, q, k)
  {
    NotLooking(t, q, "+=");
    NotLooking(t, q, "-=");
    assert SkipSpace(t, q) == q;
    hide SkipSpace, LookingAt, Onward;
  }

  lemma FreeOperator(t: string, q: nat, op: BinOp)
    requires LookingAt(t, q, Spaced(op))
    ensures Free(t, q, OpRank(op))
  {
    var w := OpText(op);
    OperatorStands(t, q, op);
    NotTaken(op);
    if |w| > 1 { CharAt(t, q + 1, w, 1); }
    hide OpText, OpRank, SkipSpace;
    NotAssigning(t, q + 1);
  }

  lemma NotAssigning(t: string, s: nat)
    requires s + 1 < |t| && (t[s] == '+' || t[s] == '-' ==> t[s + 1] != '=') && (t[s] == '=' ==> t[s + 1] == '=')
    ensures !Assigning(t, s)
  {
    WordChars(t, s, "+=");
    WordChars(t, s, "-=");
    hide LookingAt;
  }

  lemma NotTaken(op: BinOp)
    ensures OpText(op) != "" && Onward(OpText(op)[0]) <= OpRank(op)
    ensures |OpText(op)| == 1 ==> OpText(op)[0] != '='
    ensures |OpText(op)| > 1 ==> OpText(op)[1] in "=&|" && OpText(op)[0] != '+' && OpText(op)[0] != '-'
  {
  }

  // ---- printed texts ----

  /** A printed tree that is left alone is read as that tree, at the rank it was printed for. */
  lemma {:induction false} Shown(num: Numbers, scope: seq<string>, t: string, p: nat, e: Expr, k: nat)
    requires Printable(num, scope, e) && LookingAt(t, p, Show(e, k)) && k <= 9
    requires Free(t, p + |Show(e, k)|, k) && Fits(t, p + |Show(e, k)|, e)
    ensures Reads(num, scope, t, p, e, p + |Show(e, k)|, k)
    decreases e, 3
  {
    hide *;
    var q := p + |Show(e, k)|;
    ShowIs(e, k);
    if Rank(e) < k {
      Wrapped(num, scope, t, p, e);
      Down(num, scope, t, p, e, q, 9, k);
    } else {
      FreeAbove(t, q, k, Rank(e));
      Bared(num, scope, t, p, e);
      Down(num, scope, t, p, e, q, Rank(e), k);
    }
  }

  lemma ShowIs(e: Expr, k: nat)
    ensures Show(e, k) == if Rank(e) < k then Wrap(e) else Bare(e)
    ensures Wrap(e) == "(" + (Bare(e) + ")") && Rank(e) <= 9
  {
    hide Bare;
  }

  /** Where an operator, a comma or a bracket follows there is nothing more to ask. */
  lemma {:induction false} ShownBefore(num: Numbers, scope: seq<string>, t: string, p: nat, e: Expr, k: nat)
    requires Printable(num, scope, e) && LookingAt(t, p, Show(e, k)) && k < 9 && Free(t, p + |Show(e, k)|, k)
    ensures Reads(num, scope, t, p, e, p + |Show(e, k)|, k)
    decreases e, 4
  {
    hide *;
    FreeFits(t, p + |Show(e, k)|, k, e);
    Shown(num, scope, t, p, e, k);
  }

  lemma {:induction false} Wrapped(num: Numbers, scope: seq<string>, t: string, p: nat, e: Expr)
    requires Printable(num, scope, e) && LookingAt(t, p, Wrap(e))
    ensures Reads(num, scope, t, p, e, p + |Wrap(e)|, 9)
    decreases e, 2
  {
    hide *;
    ShowIs(e, 0);
    var q := p + 1 + |Bare(e)|;
    WrapStands(t, p, Bare(e));
    FreeHere(t, q, 0);
    FreeFits(t, q, 0, e);
    FreeAbove(t, q, 0, Rank(e));
    Bared(num, scope, t, p + 1, e);
    Down(num, scope, t, p + 1, e, q, Rank(e), 0);
    Enclosing(num, scope, t, p, e, q);
  }

  lemma WrapStands(t: string, p: nat, b: string)
    requires LookingAt(t, p, "(" + (b + ")"))
    ensures var q := p + 1 + |b|;
      Looking(t, p, '(') && LookingAt(t, p + 1, b) && Looking(t, q, ')') && q < |t| && t[q] in ")],.[(" && Onward(t[q]) <= 0
  {
    Split(t, p, "(", b + ")");
    Split(t, p + 1, b, ")");
    CharAt(t, p, "(", 0);
    CharAt(t, p + 1 + |b|, ")", 0);
  }

  lemma {:induction false} Bared(num: Numbers, scope: seq<string>, t: string, p: nat, e: Expr)
    requires Printable(num, scope, e) && LookingAt(t, p, Bare(e))
    requires Free(t, p + |Bare(e)|, Rank(e)) && Fits(t, p + |Bare(e)|, e)
    ensures Reads(num, scope, t, p, e, p + |Bare(e)|, Rank(e))
    decreases e, 1
  {
    hide Bare, Show, Printable, Free, Fits, Reads, LookingAt;
    match e
    case Lit(_) => BareLiteral(num, scope, t, p, e);
    case Name(_) => BareName(num, scope, t, p, e);
    case Global(_) => BareName(num, scope, t, p, e);
    case Assign(_, _) => BareAssign(num, scope, t, p, e);
    case Update(_, _, _) => BareUpdate(num, scope, t, p, e);
    case Sequence(_, _) => BareSequence(num, scope, t, p, e);
    case Cond(_, _, _) => BareCond(num, scope, t, p, e);
    case Binop(op, _, _) => if op.Infix? { BareInfix(num, scope, t, p, e); } else { BareIndex(num, scope, t, p, e); }
    case Unop(op, _) =>
      if op.Member? { BareMember(num, scope, t, p, e); }
      else if op == Prefix(ToNumber) { BareConversion(num, scope, t, p, e); }
      else { BareSign(num, scope, t, p, e); }
    case Apply(_, _) => BareApply(num, scope, t, p, e);
    case Invoke(_, _, _) => BareInvoke(num, scope, t, p, e);
  }

  lemma EdgeStops(t: string, q: nat, k: nat)
    requires Free(t, q, k)
    ensures q <= |t| && (q == |t| || !IsIdentPart(t[q])) && !Assigning(t, SkipSpace(t, q))
    ensures !Looking(t, q, '.') ==> NumberStops(t, q)
  {
    hide Assigning, SkipSpace;
  }

  lemma BareLiteral(num: Numbers, scope: seq<string>, t: string, p: nat, e: Expr)
    requires e.Lit? && Printable(num, scope, e) && LookingAt(t, p, Bare(e))
    requires Free(t, p + |Bare(e)|, 9) && Fits(t, p + |Bare(e)|, e)
    ensures Reads(num, scope, t, p, e, p + |Bare(e)|, Rank(e))
  {
    var w := Bare(e);
    hide LookingAt, Free, Reads;
    EdgeStops(t, p + |w|, 9);
    match e.lit
    case Number(s) => BareNumeral(num, scope, t, p, s);
    case Text(s) => BareText(num, scope, t, p, s);
    case _ =>
      hide Fits, SkipSpace, Assigning;
      WordLiteralIs(num, scope, t, e, p + |w|);
      CharAt(t, p, w, 0);
      WordStep(num, scope, t, p, w, e, p + |w|, p + |w|);
  }

  lemma WordLiteralIs(num: Numbers, scope: seq<string>, t: string, e: Expr, q: nat)
    requires e.Lit? && !e.lit.Number? && !e.lit.Text? && q <= |t|
    ensures IsIdentifier(Bare(e)) && Word(num, scope, t, Bare(e), q) == Got(e, q)
  {
  }

  lemma BareNumeral(num: Numbers, scope: seq<string>, t: string, p: nat, s: string)
    requires IsNumberText(num, s) && LookingAt(t, p, s) && NumberStops(t, p + |s|)
    ensures Reads(num, scope, t, p, Lit(Number(s)), p + |s|, 9)
  {
    hide NumberEnd, NumberStops, Reads;
    CharAt(t, p, s, 0);
    NumberAt(t, p, s);
    assert Primary(num, scope, t, p) == Got(Lit(Number(s)), p + |s|);
    PrimaryStep(num, scope, t, p, Lit(Number(s)), p + |s|);
  }

  lemma BareText(num: Numbers, scope: seq<string>, t: string, p: nat, s: string)
    requires LookingAt(t, p, LiteralText(Text(s)))
    ensures Reads(num, scope, t, p, Lit(Text(s)), p + |LiteralText(Text(s))|, 9)
  {
    hide Reads, Quoted, Primary;
    TextToken(num, scope, t, p, s);
    CharAt(t, p, LiteralText(Text(s)), 0);
    PrimaryStep(num, scope, t, p, Lit(Text(s)), p + |Quoted(s)| + 2);
  }

  lemma BareName(num: Numbers, scope: seq<string>, t: string, p: nat, e: Expr)
    requires (e.Name? || e.Global?) && Printable(num, scope, e) && LookingAt(t, p, Bare(e))
    requires Free(t, p + |Bare(e)|, 9) && Fits(t, p + |Bare(e)|, e)
    ensures Reads(num, scope, t, p, e, p + |Bare(e)|, Rank(e))
  {
    var q := p + |e.x|;
    hide LookingAt, Free, Reads;
    EdgeStops(t, q, 9);
    SpaceTwice(t, q);
    WordStep(num, scope, t, p, e.x, e, if e.Name? then q else SkipSpace(t, q), q);
  }

  lemma {:induction false} BareAssign(num: Numbers, scope: seq<string>, t: string, p: nat, e: Expr)
    requires e.Assign? && Printable(num, scope, e) && LookingAt(t, p, Bare(e)) && Free(t, p + |Bare(e)|, 5)
    ensures Reads(num, scope, t, p, e, p + |Bare(e)|, Rank(e))
    decreases e, 0
  {
    hide Show, LookingAt, Free, Reads, IsIdentifier;
    Pieces(t, p, e.x, " = ", Show(e.e, 5));
    ShownBefore(num, scope, t, p + |e.x| + 3, e.e, 5);
    AssignStep(num, scope, t, p, e.x, e.e, p + |Bare(e)|);
  }

  lemma {:induction false} BareUpdate(num: Numbers, scope: seq<string>, t: string, p: nat, e: Expr)
    requires e.Update? && Printable(num, scope, e) && LookingAt(t, p, Bare(e)) && Free(t, p + |Bare(e)|, 5)
    ensures Reads(num, scope, t, p, e, p + |Bare(e)|, Rank(e))
    decreases e, 0
  {
    hide *;
    UpdateParts(num, scope, e);
    var w, q := if e.bop == Add then " += " else " -= ", p + |Bare(e)|;
    Pieces(t, p, e.x, w, Show(e.e, 6));
    FreeAbove(t, q, 5, 6);
    ShownBefore(num, scope, t, p + |e.x| + 4, e.e, 6);
    UpdateStep(num, scope, t, p, e.x, e.bop, e.e, q);
  }

  lemma UpdateParts(num: Numbers, scope: seq<string>, e: Expr)
    requires e.Update? && Printable(num, scope, e)
    ensures Bare(e) == e.x + ((if e.bop == Add then " += " else " -= ") + Show(e.e, 6)) && Rank(e) == 5
    ensures IsIdentifier(e.x) && (e.bop == Add || (e.bop == Sub && e.x in scope)) && Printable(num, scope, e.e)
  {
    hide Show, IsIdentifier;
  }

  lemma {:induction false} BareSequence(num: Numbers, scope: seq<string>, t: string, p: nat, e: Expr)
    requires e.Sequence? && Printable(num, scope, e) && LookingAt(t, p, Bare(e)) && Free(t, p + |Bare(e)|, 0)
    ensures Reads(num, scope, t, p, e, p + |Bare(e)|, Rank(e))
    decreases e, 0
  {
    hide Show, LookingAt, Reads;
    var q1, q := p + |Show(e.l, 0)|, p + |Bare(e)|;
    Pieces(t, p, Show(e.l, 0), ", ", Show(e.r, 1));
    FreeHere(t, q1, 0);
    FreeAbove(t, q, 0, 1);
    hide Free;
    ShownBefore(num, scope, t, p, e.l, 0);
    ShownBefore(num, scope, t, q1 + 2, e.r, 1);
    SequenceStep(num, scope, t, p, e.l, q1, e.r, q);
  }

  lemma {:induction false} BareCond(num: Numbers, scope: seq<string>, t: string, p: nat, e: Expr)
    requires e.Cond? && Printable(num, scope, e) && LookingAt(t, p, Bare(e)) && Free(t, p + |Bare(e)|, 1)
    ensures Reads(num, scope, t, p, e, p + |Bare(e)|, Rank(e))
    decreases e, 0
  {
    hide *;
    BranchParts(num, scope, e);
    var q1 := p + |Show(e.c, 2)|;
    var q2 := q1 + 3 + |Show(e.t, 1)|;
    Pieces(t, p, Show(e.c, 2), " ? ", Show(e.t, 1) + (" : " + Show(e.f, 1)));
    Pieces(t, q1 + 3, Show(e.t, 1), " : ", Show(e.f, 1));
    CharAt(t, q1, " ? ", 1);
    CharAt(t, q2, " : ", 1);
    FreeMark(t, q1, 2);
    FreeMark(t, q2, 1);
    ShownBefore(num, scope, t, p, e.c, 2);
    ShownBefore(num, scope, t, q1 + 3, e.t, 1);
    ShownBefore(num, scope, t, q2 + 3, e.f, 1);
    CondStep(num, scope, t, p, e.c, q1, e.t, q2, e.f, p + |Bare(e)|);
  }

  lemma BranchParts(num: Numbers, scope: seq<string>, e: Expr)
    requires e.Cond? && Printable(num, scope, e)
    ensures Bare(e) == Show(e.c, 2) + (" ? " + (Show(e.t, 1) + (" : " + Show(e.f, 1)))) && Rank(e) == 1
    ensures |Bare(e)| == |Show(e.c, 2)| + 3 + |Show(e.t, 1)| + 3 + |Show(e.f, 1)|
    ensures Printable(num, scope, e.c) && Printable(num, scope, e.t) && Printable(num, scope, e.f)
  {
    hide Show;
  }

  lemma FreeMark(t: string, q: nat, k: nat)
    requires q + 1 < |t| && t[q] == ' ' && ((t[q + 1] == '?' && k == 2) || (t[q + 1] == ':' && k == 1))
    ensures Free(t, q, k)
  {
    assert SkipSpace(t, q) == q + 1;
    NotLooking(t, q + 1, "+=");
    NotLooking(t, q + 1, "-=");
    hide LookingAt;
  }

  lemma {:induction false} BareInfix(num: Numbers, scope: seq<string>, t: string, p: nat, e: Expr)
    requires e.Binop? && e.op2.Infix? && Printable(num, scope, e) && LookingAt(t, p, Bare(e))
    requires Free(t, p + |Bare(e)|, Rank(e))
    ensures Reads(num, scope, t, p, e, p + |Bare(e)|, Rank(e))
    decreases e, 0
  {
    hide *;
    OperandParts(num, scope, e);
    var k, w := OpRank(e.op2.bop), Spaced(e.op2.bop);
    var q1 := p + |Show(e.l, k)|;
    Pieces(t, p, Show(e.l, k), w, Show(e.r, k + 1));
    FreeOperator(t, q1, e.op2.bop);
    FreeAbove(t, p + |Bare(e)|, k, k + 1);
    ShownBefore(num, scope, t, p, e.l, k);
    ShownBefore(num, scope, t, q1 + |w|, e.r, k + 1);
    InfixStep(num, scope, t, p, e.l, e.op2.bop, q1, e.r, p + |Bare(e)|);
  }

  lemma OperandParts(num: Numbers, scope: seq<string>, e: Expr)
    requires e.Binop? && e.op2.Infix? && Printable(num, scope, e)
    ensures Rank(e) == OpRank(e.op2.bop) < 8 && Spaced(e.op2.bop) != ""
    ensures Bare(e) == Show(e.l, Rank(e)) + (Spaced(e.op2.bop) + Show(e.r, Rank(e) + 1))
    ensures |Bare(e)| == |Show(e.l, Rank(e))| + |Spaced(e.op2.bop)| + |Show(e.r, Rank(e) + 1)|
    ensures Printable(num, scope, e.l) && Printable(num, scope, e.r)
  {
    hide Show;
  }

  lemma {:induction false} BareIndex(num: Numbers, scope: seq<string>, t: string, p: nat, e: Expr)
    requires e.Binop? && e.op2.Index? && Printable(num, scope, e) && LookingAt(t, p, Bare(e))
    ensures Reads(num, scope, t, p, e, p + |Bare(e)|, Rank(e))
    decreases e, 0
  {
    hide Show, LookingAt, Reads;
    var q1 := p + |Show(e.l, 9)|;
    var q2 := q1 + 1 + |Show(e.r, 0)|;
    Pieces(t, p, Show(e.l, 9), "[", Show(e.r, 0) + "]");
    Split(t, q1 + 1, Show(e.r, 0), "]");
    CharAt(t, q2, "]", 0);
    FreeHere(t, q1, 9);
    FreeHere(t, q2, 0);
    FitsBefore(t, q1, e.l);
    hide Free, Fits;
    Shown(num, scope, t, p, e.l, 9);
    ShownBefore(num, scope, t, q1 + 1, e.r, 0);
    IndexStep(num, scope, t, p, e.l, q1, e.r, q2);
  }

  lemma FitsBefore(t: string, q: nat, e: Expr)
    requires Looking(t, q, '[')
    ensures Fits(t, q, e)
  {
  }

  /** The operand of a dot. */
  lemma {:induction false} ShownReceiver(num: Numbers, scope: seq<string>, t: string, p: nat, e: Expr)
    requires Printable(num, scope, e) && LookingAt(t, p, Receiver(e)) && Looking(t, p + |Receiver(e)|, '.')
    ensures Reads(num, scope, t, p, e, p + |Receiver(e)|, 9)
    decreases e, 4
  {
    hide *;
    ReceiverIs(e);
    FitsDot(t, p + |Receiver(e)|, e);
    if IsNumeral(e) { Wrapped(num, scope, t, p, e); } else { Shown(num, scope, t, p, e, 9); }
  }

  lemma ReceiverIs(e: Expr)
    ensures Receiver(e) == if IsNumeral(e) then Wrap(e) else Show(e, 9)
    ensures Callee(e) == if TakesArguments(e) then Wrap(e) else Show(e, 9)
  {
    hide Bare, Show, Wrap;
  }

  lemma FitsDot(t: string, q: nat, e: Expr)
    requires Looking(t, q, '.')
    ensures Free(t, q, 9) && (!IsNumeral(e) ==> Fits(t, q, e))
  {
    FreeHere(t, q, 9);
  }

  lemma FitsOpening(t: string, q: nat, e: Expr)
    requires Looking(t, q, '(')
    ensures Free(t, q, 9) && (!TakesArguments(e) ==> Fits(t, q, e))
  {
    FreeHere(t, q, 9);
  }

  /** The operand of arguments. */
  lemma {:induction false} ShownCallee(num: Numbers, scope: seq<string>, t: string, p: nat, e: Expr)
    requires Printable(num, scope, e) && LookingAt(t, p, Callee(e)) && Looking(t, p + |Callee(e)|, '(')
    ensures Reads(num, scope, t, p, e, p + |Callee(e)|, 9)
    decreases e, 4
  {
    hide *;
    ReceiverIs(e);
    FitsOpening(t, p + |Callee(e)|, e);
    if TakesArguments(e) { Wrapped(num, scope, t, p, e); } else { Shown(num, scope, t, p, e, 9); }
  }

  lemma {:induction false} BareMember(num: Numbers, scope: seq<string>, t: string, p: nat, e: Expr)
    requires e.Unop? && e.op1.Member? && Printable(num, scope, e) && LookingAt(t, p, Bare(e))
    requires Free(t, p + |Bare(e)|, 9) && Fits(t, p + |Bare(e)|, e)
    ensures Reads(num, scope, t, p, e, p + |Bare(e)|, Rank(e))
    decreases e, 0
  {
    hide Receiver, LookingAt, Free, Reads, IsIdentifier;
    var q1 := p + |Receiver(e.e)|;
    Pieces(t, p, Receiver(e.e), ".", e.op1.name);
    EdgeStops(t, p + |Bare(e)|, 9);
    ShownReceiver(num, scope, t, p, e.e);
    MemberStep(num, scope, t, p, e.e, q1, e.op1.name);
  }

  lemma {:induction false} BareSign(num: Numbers, scope: seq<string>, t: string, p: nat, e: Expr)
    requires e.Unop? && !e.op1.Member? && e.op1 != Prefix(ToNumber) && Printable(num, scope, e)
    requires LookingAt(t, p, Bare(e)) && Free(t, p + |Bare(e)|, 8)
    ensures Reads(num, scope, t, p, e, p + |Bare(e)|, Rank(e))
    decreases e, 0
  {
    hide Show, LookingAt, Free, Reads;
    Split(t, p, SignText(e.op1), Show(e.e, 8));
    ShownBefore(num, scope, t, p + 1, e.e, 8);
    SignStep(num, scope, t, p, e.op1, e.e, p + |Bare(e)|);
  }

  lemma {:induction false} BareConversion(num: Numbers, scope: seq<string>, t: string, p: nat, e: Expr)
    requires e.Unop? && e.op1 == Prefix(ToNumber) && Printable(num, scope, e) && LookingAt(t, p, Bare(e))
    ensures Reads(num, scope, t, p, e, p + |Bare(e)|, Rank(e))
    decreases e, 0
  {
    hide Show, LookingAt, Reads;
    var k := p + 6;
    var q := k + 1 + |Show(e.e, 0)|;
    Pieces(t, p, "Number", "(", Show(e.e, 0) + ")");
    WrapStands(t, k, Show(e.e, 0));
    FreeHere(t, q, 0);
    hide Free;
    ShownBefore(num, scope, t, k + 1, e.e, 0);
    Enclosing(num, scope, t, k, e.e, q);
    ConversionStep(num, scope, t, p, e.e, q + 1);
  }

  lemma ConversionStep(num: Numbers, scope: seq<string>, t: string, p: nat, e: Expr, q: nat)
    requires LookingAt(t, p, "Number") && Looking(t, p + 6, '(') && Enclosed(num, scope, t, p + 7) == Got(e, q)
    requires p + 6 < q <= |t|
    ensures Reads(num, scope, t, p, Unop(Prefix(ToNumber), e), q, 9)
  {
    hide Enclosed, Reads, LookingAt;
    var k := p + 6;
    NotLooking(t, k, "+=");
    NotLooking(t, k, "-=");
    assert Word(num, scope, t, "Number", k) == Got(Unop(Prefix(ToNumber), e), q);
    WordStep(num, scope, t, p, "Number", Unop(Prefix(ToNumber), e), q, q);
  }

  lemma {:induction false} BareApply(num: Numbers, scope: seq<string>, t: string, p: nat, e: Expr)
    requires e.Apply? && Printable(num, scope, e) && LookingAt(t, p, Bare(e))
    ensures Reads(num, scope, t, p, e, p + |Bare(e)|, Rank(e))
    decreases e, 0
  {
    hide Callee, ShowArgs, LookingAt, Reads;
    var q1 := p + |Callee(e.fn)|;
    Pieces(t, p, Callee(e.fn), "(", ShowArgs(e.args) + ")");
    ShownCallee(num, scope, t, p, e.fn);
    ShownArgs(num, scope, t, q1 + 1, e.args);
    ApplyStep(num, scope, t, p, e.fn, q1, e.args, p + |Bare(e)|);
  }

  lemma {:induction false} BareInvoke(num: Numbers, scope: seq<string>, t: string, p: nat, e: Expr)
    requires e.Invoke? && Printable(num, scope, e) && LookingAt(t, p, Bare(e))
    ensures Reads(num, scope, t, p, e, p + |Bare(e)|, Rank(e))
    decreases e, 0
  {
    hide *;
    CallParts(num, scope, e);
    var q1 := p + |Receiver(e.o)|;
    MethodText(t, p, Receiver(e.o), e.name, ShowArgs(e.args));
    ShownReceiver(num, scope, t, p, e.o);
    ShownArgs(num, scope, t, q1 + 2 + |e.name|, e.args);
    InvokeStep(num, scope, t, p, e.o, q1, e.name, e.args, p + |Bare(e)|);
  }

  lemma CallParts(num: Numbers, scope: seq<string>, e: Expr)
    requires e.Invoke? && Printable(num, scope, e)
    ensures Bare(e) == Receiver(e.o) + ("." + (e.name + ("(" + (ShowArgs(e.args) + ")")))) && Rank(e) == 9
    ensures |Bare(e)| == |Receiver(e.o)| + |e.name| + |ShowArgs(e.args)| + 3
    ensures Printable(num, scope, e.o) && AllPrintable(num, scope, e.args) && IsIdentifier(e.name)
  {
    hide Receiver, ShowArgs, IsIdentifier;
  }

  lemma {:induction false} ShownArgs(num: Numbers, scope: seq<string>, t: string, p: nat, args: Args)
    requires AllPrintable(num, scope, args) && LookingAt(t, p, ShowArgs(args) + ")")
    ensures ArgumentList(num, scope, t, p) == GotArgs(args, p + |ShowArgs(args)| + 1)
    decreases args, 1
  {
    var q := p + |ShowArgs(args)|;
    CharAt(t, p, ShowArgs(args) + ")", |ShowArgs(args)|);
    Split(t, p, ShowArgs(args), ")");
    if args.Snoc? {
      hide ShowArgs, LookingAt, ArgumentList;
      ShownSome(num, scope, t, p, args);
      assert ArgumentsRest(num, scope, t, args, q) == GotArgs(args, q + 1);
    }
  }

  lemma {:induction false} ShownSome(num: Numbers, scope: seq<string>, t: string, p: nat, args: Args)
    requires args.Snoc? && AllPrintable(num, scope, args) && LookingAt(t, p, ShowArgs(args))
    requires var q := p + |ShowArgs(args)|; q < |t| && t[q] in ",)"
    ensures ArgumentList(num, scope, t, p) == ArgumentsRest(num, scope, t, args, p + |ShowArgs(args)|)
    decreases args, 0
  {
    hide *;
    SomeParts(num, scope, args);
    var q := p + |ShowArgs(args)|;
    FreeComma(t, q);
    if args.init.NoArgs? {
      ShownBefore(num, scope, t, p, args.last, 1);
      FirstArg(num, scope, t, p, args.last, q);
    } else {
      var q1 := p + |ShowArgs(args.init)|;
      Pieces(t, p, ShowArgs(args.init), ", ", Show(args.last, 1));
      ShownSome(num, scope, t, p, args.init);
      ShownBefore(num, scope, t, q1 + 2, args.last, 1);
      NextArg(num, scope, t, args.init, q1, args.last, q);
    }
  }

  lemma SomeParts(num: Numbers, scope: seq<string>, args: Args)
    requires args.Snoc? && AllPrintable(num, scope, args)
    ensures ShowArgs(args) == if args.init.NoArgs? then Show(args.last, 1) else ShowArgs(args.init) + (", " + Show(args.last, 1))
    ensures AllPrintable(num, scope, args.init) && Printable(num, scope, args.last)
  {
    hide Show;
  }

  lemma FreeComma(t: string, q: nat)
    requires q < |t| && t[q] in ",)"
    ensures Free(t, q, 1)
  {
    FreeHere(t, q, 1);
  }

  lemma FirstArg(num: Numbers, scope: seq<string>, t: string, p: nat, e: Expr, q: nat)
    requires Reads(num, scope, t, p, e, q, 1) && q < |t| && t[q] in ",)"
    ensures ArgumentList(num, scope, t, p) == ArgumentsRest(num, scope, t, Snoc(NoArgs, e), q)
  {
    hide Conditional, ArgumentsRest;
  }

  lemma NextArg(num: Numbers, scope: seq<string>, t: string, args: Args, q1: nat, e: Expr, q: nat)
    requires LookingAt(t, q1, ", ") && Reads(num, scope, t, q1 + 2, e, q, 1) && q < |t| && t[q] in ",)"
    ensures ArgumentsRest(num, scope, t, args, q1) == ArgumentsRest(num, scope, t, Snoc(args, e), q)
  {
    WordChars(t, q1, ", ");
    Operand(num, scope, t, q1 + 2, e, q, 1);
    hide Conditional, LookingAt;
  }

  /** Reading the print with no needless parentheses gives the tree back. */
  lemma ShownReads(num: Numbers, scope: seq<string>, e: Expr)
    requires Printable(num, scope, e)
    ensures Whole(num, scope, Show(e, 0)) == Some(e)
  {
    hide *;
    var t := Show(e, 0);
    AllOf(t);
    FreeEnd(t, 0);
    ShownBefore(num, scope, t, 0, e, 0);
    ReadsWhole(num, scope, t, e);
  }

  lemma AllOf(t: string)
    ensures LookingAt(t, 0, t)
  {
    assert t[0..|t|] == t;
  }

  lemma FreeEnd(t: string, k: nat)
    ensures Free(t, |t|, k)
  {
  }

  lemma ReadsWhole(num: Numbers, scope: seq<string>, t: string, e: Expr)
    requires Reads(num, scope, t, 0, e, |t|, 0)
    ensures Whole(num, scope, t) == Some(e)
  {
    Operand(num, scope, t, 0, e, |t|, 0);
    hide Comma;
  }

  /** The print of a tree that is all ASCII is read back from its bytes too. */
  lemma ShownReadsFull(num: Numbers, scope: seq<string>, e: Expr)
    requires Printable(num, scope, e) && Utf8.Ascii(Show(e, 0))
    ensures Full(num, scope, Show(e, 0)) == Some(e)
  {
    hide *;
    ShownReads(num, scope, e);
    Utf8.AsReadSame(Show(e, 0));
    FullIsWhole(num, scope, Show(e, 0));
  }

  lemma FullIsWhole(num: Numbers, scope: seq<string>, text: string)
    requires Utf8.AsRead(text) == text
    ensures Full(num, scope, text) == Whole(num, scope, text)
  {
  }

  // ---- operators in a row ----

  function Chained(l: Expr, op1: BinOp, m: Expr, op2: BinOp, r: Expr): string {
    Show(l, 9) + (Spaced(op1) + (Show(m, 9) + (Spaced(op2) + Show(r, 9))))
  }

  /** Of two operators in a row the first goes first, unless the second holds tighter. */
  lemma Chain(num: Numbers, scope: seq<string>, l: Expr, op1: BinOp, m: Expr, op2: BinOp, r: Expr)
    requires Printable(num, scope, l) && Printable(num, scope, m) && Printable(num, scope, r)
    ensures Whole(num, scope, Chained(l, op1, m, op2, r)) ==
      Some(if OpRank(op1) >= OpRank(op2) then Binop(Infix(op2), Binop(Infix(op1), l, m), r)
           else Binop(Infix(op1), l, Binop(Infix(op2), m, r)))
  {
    hide *;
    var t := Chained(l, op1, m, op2, r);
    ChainIs(l, op1, m, op2, r);
    var q1, p2, q2, p3 := Row(t, Show(l, 9), Spaced(op1), Show(m, 9), Spaced(op2), Show(r, 9));
    FreeOperator(t, q1, op1);
    FreeOperator(t, q2, op2);
    FreeEnd(t, 0);
    Ranked(op1);
    Ranked(op2);
    OperandShown(num, scope, t, 0, l, q1, OpRank(op1));
    OperandShown(num, scope, t, p2, m, q2, OpRank(op2));
    OperandShown(num, scope, t, p3, r, |t|, 0);
    if OpRank(op1) >= OpRank(op2) { FirstFirst(num, scope, t, l, op1, q1, m, q2, op2, r); }
    else { SecondFirst(num, scope, t, l, op1, q1, m, q2, op2, r); }
  }

  lemma OperandShown(num: Numbers, scope: seq<string>, t: string, p: nat, e: Expr, q: nat, k: nat)
    requires Printable(num, scope, e) && LookingAt(t, p, Show(e, 9)) && q == p + |Show(e, 9)| && k < 9 && Free(t, q, k)
    ensures Reads(num, scope, t, p, e, q, 9)
  {
    hide *;
    FreeFits(t, q, k, e);
    FreeAbove(t, q, k, 9);
    Shown(num, scope, t, p, e, 9);
  }

  lemma ChainIs(l: Expr, op1: BinOp, m: Expr, op2: BinOp, r: Expr)
    ensures Chained(l, op1, m, op2, r) == Show(l, 9) + (Spaced(op1) + (Show(m, 9) + (Spaced(op2) + Show(r, 9))))
    ensures Spaced(op1) != "" && Spaced(op2) != ""
  {
    hide Show, OpText;
  }

  /** Five texts in a row. */
  lemma Row(t: string, a: string, w: string, b: string, v: string, c: string) returns (q1: nat, p2: nat, q2: nat, p3: nat)
    requires t == a + (w + (b + (v + c))) && w != "" && v != ""
    ensures q1 == |a| && p2 == q1 + |w| && q2 == p2 + |b| && p3 == q2 + |v| && p3 + |c| == |t|
    ensures LookingAt(t, 0, a) && LookingAt(t, q1, w) && LookingAt(t, p2, b) && LookingAt(t, q2, v) && LookingAt(t, p3, c)
  {
    AllOf(t);
    hide LookingAt;
    q1 := |a|;
    p2 := q1 + |w|;
    q2 := p2 + |b|;
    p3 := q2 + |v|;
    Pieces(t, 0, a, w, b + (v + c));
    Pieces(t, p2, b, v, c);
  }

  lemma FirstFirst(num: Numbers, scope: seq<string>, t: string, l: Expr, op1: BinOp, q1: nat, m: Expr, q2: nat, op2: BinOp,
                   r: Expr)
    requires 2 <= OpRank(op2) <= OpRank(op1) <= 7
    requires LookingAt(t, q1, Spaced(op1)) && LookingAt(t, q2, Spaced(op2)) && Free(t, |t|, 0)
    requires Free(t, q1, OpRank(op1)) && Free(t, q2, OpRank(op2))
    requires Reads(num, scope, t, 0, l, q1, 9) && Reads(num, scope, t, q1 + |Spaced(op1)|, m, q2, 9)
    requires Reads(num, scope, t, q2 + |Spaced(op2)|, r, |t|, 9)
    ensures Whole(num, scope, t) == Some(Binop(Infix(op2), Binop(Infix(op1), l, m), r))
  {
    hide *;
    var k1, k2, e := OpRank(op1), OpRank(op2), Binop(Infix(op1), l, m);
    FreeAbove(t, q2, k2, k1);
    FreeAbove(t, q2, k2, k1 + 1);
    FreeAbove(t, |t|, 0, k2);
    FreeAbove(t, |t|, 0, k2 + 1);
    Down(num, scope, t, 0, l, q1, 9, k1);
    Down(num, scope, t, q1 + |Spaced(op1)|, m, q2, 9, k1 + 1);
    InfixStep(num, scope, t, 0, l, op1, q1, m, q2);
    Down(num, scope, t, 0, e, q2, k1, k2);
    Down(num, scope, t, q2 + |Spaced(op2)|, r, |t|, 9, k2 + 1);
    InfixStep(num, scope, t, 0, e, op2, q2, r, |t|);
    Down(num, scope, t, 0, Binop(Infix(op2), e, r), |t|, k2, 0);
    ReadsWhole(num, scope, t, Binop(Infix(op2), e, r));
  }

  lemma SecondFirst(num: Numbers, scope: seq<string>, t: string, l: Expr, op1: BinOp, q1: nat, m: Expr, q2: nat, op2: BinOp,
                    r: Expr)
    requires 2 <= OpRank(op1) < OpRank(op2) <= 7
    requires LookingAt(t, q1, Spaced(op1)) && LookingAt(t, q2, Spaced(op2)) && Free(t, |t|, 0)
    requires Free(t, q1, OpRank(op1)) && Free(t, q2, OpRank(op2))
    requires Reads(num, scope, t, 0, l, q1, 9) && Reads(num, scope, t, q1 + |Spaced(op1)|, m, q2, 9)
    requires Reads(num, scope, t, q2 + |Spaced(op2)|, r, |t|, 9)
    ensures Whole(num, scope, t) == Some(Binop(Infix(op1), l, Binop(Infix(op2), m, r)))
  {
    hide *;
    var k1, k2, p2, e := OpRank(op1), OpRank(op2), q1 + |Spaced(op1)|, Binop(Infix(op2), m, r);
    FreeAbove(t, |t|, 0, k1);
    FreeAbove(t, |t|, 0, k1 + 1);
    FreeAbove(t, |t|, 0, k2);
    FreeAbove(t, |t|, 0, k2 + 1);
    Down(num, scope, t, p2, m, q2, 9, k2);
    Down(num, scope, t, q2 + |Spaced(op2)|, r, |t|, 9, k2 + 1);
    InfixStep(num, scope, t, p2, m, op2, q2, r, |t|);
    Down(num, scope, t, p2, e, |t|, k2, k1 + 1);
    Down(num, scope, t, 0, l, q1, 9, k1);
    InfixStep(num, scope, t, 0, l, op1, q1, e, |t|);
    Down(num, scope, t, 0, Binop(Infix(op1), l, e), |t|, k1, 0);
    ReadsWhole(num, scope, t, Binop(Infix(op1), l, e));
  }

  /** A sign goes before any operator after its operand. */
  lemma SignFirst(num: Numbers, scope: seq<string>, sign: Op1, l: Expr, op: BinOp, r: Expr)
    requires sign in {Plus, Prefix(Neg), Prefix(Not), Prefix(BitNot)} && Printable(num, scope, l) && Printable(num, scope, r)
    ensures Whole(num, scope, SignText(sign) + (Show(l, 9) + (Spaced(op) + Show(r, 9)))) == Some(Binop(Infix(op), Unop(sign, l), r))
  {
    hide *;
    var t := SignText(sign) + (Show(l, 9) + (Spaced(op) + Show(r, 9)));
    var q1 := SignStands(t, sign, l, op, r);
    var k, e := OpRank(op), Unop(sign, l);
    Ranked(op);
    FreeOperator(t, q1, op);
    FreeAbove(t, q1, k, 8);
    FreeEnd(t, 0);
    FreeAbove(t, |t|, 0, k);
    FreeAbove(t, |t|, 0, k + 1);
    OperandShown(num, scope, t, 1, l, q1, k);
    OperandShown(num, scope, t, q1 + |Spaced(op)|, r, |t|, 0);
    Down(num, scope, t, 1, l, q1, 9, 8);
    SignStep(num, scope, t, 0, sign, l, q1);
    Down(num, scope, t, 0, e, q1, 8, k);
    Down(num, scope, t, q1 + |Spaced(op)|, r, |t|, 9, k + 1);
    InfixStep(num, scope, t, 0, e, op, q1, r, |t|);
    Down(num, scope, t, 0, Binop(Infix(op), e, r), |t|, k, 0);
    ReadsWhole(num, scope, t, Binop(Infix(op), e, r));
  }

  lemma SignStands(t: string, sign: Op1, l: Expr, op: BinOp, r: Expr) returns (q1: nat)
    requires sign in {Plus, Prefix(Neg), Prefix(Not), Prefix(BitNot)}
    requires t == SignText(sign) + (Show(l, 9) + (Spaced(op) + Show(r, 9)))
    ensures q1 == 1 + |Show(l, 9)| && LookingAt(t, 0, SignText(sign)) && LookingAt(t, 1, Show(l, 9))
    ensures LookingAt(t, q1, Spaced(op)) && LookingAt(t, q1 + |Spaced(op)|, Show(r, 9))
    ensures q1 + |Spaced(op)| + |Show(r, 9)| == |t|
  {
    AllOf(t);
    hide Show, LookingAt, OpText;
    q1 := 1 + |Show(l, 9)|;
    Split(t, 0, SignText(sign), Show(l, 9) + (Spaced(op) + Show(r, 9)));
    Pieces(t, 1, Show(l, 9), Spaced(op), Show(r, 9));
  }

  // ---- what is refused ----

  /** A broken operand breaks every rank below it. */
  lemma {:induction false} FailsDown(num: Numbers, scope: seq<string>, t: string, k: nat)
    requires k <= 6 && t != "" && !IsSpace(t[0]) && Unassigned(t, 0) && Level(num, scope, t, 0, k) == Fail
    ensures Whole(num, scope, t) == None
    decreases k
  {
    if k > 0 {
      assert SkipSpace(t, 0) == 0;
      hide SkipSpace, Level, Whole;
      FailStep(num, scope, t, k - 1);
      FailsDown(num, scope, t, k - 1);
    }
  }

  lemma FailStep(num: Numbers, scope: seq<string>, t: string, k: nat)
    requires k < 6 && t != "" && SkipSpace(t, 0) == 0 && Unassigned(t, 0) && Level(num, scope, t, 0, k + 1) == Fail
    ensures Level(num, scope, t, 0, k) == Fail
  {
    hide SkipSpace;
    if k == 5 {
      assert Assignment(num, scope, t, 0) == Sum(num, scope, t, 0);
    } else {
      hide Assignment, Sum;
    }
  }

  /** Two signs of one kind in a row are refused after an operand, as are the steps `x++` and `x--` in expressions. */
  lemma DoubledRefused(num: Numbers, scope: seq<string>, l: Expr, sign: char, more: string)
    requires Printable(num, scope, l) && (sign == '+' || sign == '-')
    ensures Whole(num, scope, Show(l, 6) + (" " + ([sign, sign] + more))) == None
  {
    hide *;
    var t, q := Show(l, 6) + (" " + ([sign, sign] + more)), |Show(l, 6)|;
    SignsStand(t, Show(l, 6), sign, more);
    ShownBefore(num, scope, t, 0, l, 6);
    SumFails(num, scope, t, l, q);
    FailsDown(num, scope, t, 6);
  }

  lemma SignsStand(t: string, a: string, sign: char, more: string)
    requires t == a + (" " + ([sign, sign] + more)) && (sign == '+' || sign == '-')
    ensures LookingAt(t, 0, a) && Free(t, |a|, 6)
    ensures var q := |a|; SkipSpace(t, q) == q + 1 && q + 2 < |t| && t[q + 1] == t[q + 2] == sign
  {
    var q := |a|;
    assert t[0..q] == a && t[q] == ' ' && t[q + 1] == sign && t[q + 2] == sign;
    assert SkipSpace(t, q) == q + 1;
    NotAssigning(t, q + 1);
    hide LookingAt, SkipSpace, Assigning;
  }

  lemma SumFails(num: Numbers, scope: seq<string>, t: string, l: Expr, q: nat)
    requires Reads(num, scope, t, 0, l, q, 6) && SkipSpace(t, q) == q + 1 && q + 2 < |t|
    requires t[q + 1] == t[q + 2] && (t[q + 1] == '+' || t[q + 1] == '-')
    ensures Level(num, scope, t, 0, 6) == Fail && t != "" && !IsSpace(t[0]) && Unassigned(t, 0)
  {
    hide SkipSpace, Term, Unassigned;
  }

  /** `x -= e` is refused where `x` is not local. */
  lemma DecrementRefused(num: Numbers, scope: seq<string>, x: string, more: string)
    requires IsIdentifier(x) && x !in scope
    ensures Whole(num, scope, x + (" -=" + more)) == None
  {
    hide *;
    var t := x + (" -=" + more);
    DecrementStands(t, x, more);
    NameStands(t, 0, x);
    DecrementFails(num, scope, t, x);
    RestFails(num, scope, t);
  }

  lemma DecrementStands(t: string, x: string, more: string)
    requires t == x + (" -=" + more)
    ensures LookingAt(t, 0, x) && |x| < |t| && !IsIdentPart(t[|x|]) && SkipSpace(t, |x|) == |x| + 1
    ensures LookingAt(t, |x| + 1, "-=") && !LookingAt(t, |x| + 1, "+=")
  {
    var q := |x|;
    assert t[0..q] == x && t[q] == ' ' && t[q + 1] == '-' && t[q + 2] == '=';
    WordChars(t, q + 1, "-=");
    WordChars(t, q + 1, "+=");
    hide LookingAt;
  }

  lemma DecrementFails(num: Numbers, scope: seq<string>, t: string, x: string)
    requires x != "" && x !in scope && |x| < |t| && t[0..0 + |x|] == x && IdentEnd(t, 0) == |x| && Begins(t, 0)
    requires SkipSpace(t, |x|) == |x| + 1 && LookingAt(t, |x| + 1, "-=") && !LookingAt(t, |x| + 1, "+=")
    ensures Assignment(num, scope, t, 0) == Fail
  {
    assert SkipSpace(t, 0) == 0;
    hide SkipSpace, LookingAt, IdentEnd, Sum;
    assert AfterName(num, scope, t, 0, |x|) == Fail;
  }

  lemma RestFails(num: Numbers, scope: seq<string>, t: string)
    requires Assignment(num, scope, t, 0) == Fail
    ensures Whole(num, scope, t) == None
  {
    hide Assignment;
    assert Comparison(num, scope, t, 0) == Fail;
    assert Disjunction(num, scope, t, 0) == Fail;
    assert Conditional(num, scope, t, 0) == Fail;
  }

  // ---- texts and their trees ----

  function Of(op: BinOp, l: Expr, r: Expr): Expr {
    Binop(Infix(op), l, r)
  }

  const A := Name("a")
  const B := Name("b")
  const C := Name("c")

  lemma NameShown(x: string, k: nat)
    requires k <= 9
    ensures Show(Name(x), k) == x
  {
  }

  lemma ChainSeen(num: Numbers, op1: BinOp, op2: BinOp, text: string)
    requires text == "a" + (Spaced(op1) + ("b" + (Spaced(op2) + "c")))
    ensures Whole(num, [], text) ==
      Some(if OpRank(op1) >= OpRank(op2) then Of(op2, Of(op1, A, B), C) else Of(op1, A, Of(op2, B, C)))
  {
    NameShown("a", 9);
    NameShown("b", 9);
    NameShown("c", 9);
    hide Show, OpRank, Spaced, Whole;
    Chain(num, [], A, op1, B, op2, C);
  }

  /** Operators of one rank go from left to right, all comparisons alike. */
  lemma LeftSeen(num: Numbers)
    ensures Whole(num, [], "a - b - c") == Some(Of(Sub, Of(Sub, A, B), C))
    ensures Whole(num, [], "a / b * c") == Some(Of(Mul, Of(Div, A, B), C))
    ensures Whole(num, [], "a == b < c") == Some(Of(Lt, Of(Eq, A, B), C))
  {
    hide Whole;
    ChainSeen(num, Sub, Sub, "a - b - c");
    ChainSeen(num, Div, Mul, "a / b * c");
    ChainSeen(num, Eq, Lt, "a == b < c");
  }

  /** Products go before sums, sums before comparisons, comparisons before `&&`, and that before `||`. */
  lemma RanksSeen(num: Numbers)
    ensures Whole(num, [], "a + b * c") == Some(Of(Add, A, Of(Mul, B, C)))
    ensures Whole(num, [], "a < b + c") == Some(Of(Lt, A, Of(Add, B, C)))
    ensures Whole(num, [], "a && b < c") == Some(Of(And, A, Of(Lt, B, C)))
    ensures Whole(num, [], "a || b && c") == Some(Of(Or, A, Of(And, B, C)))
  {
    hide Whole;
    ChainSeen(num, Add, Mul, "a + b * c");
    ChainSeen(num, Lt, Add, "a < b + c");
    ChainSeen(num, And, Lt, "a && b < c");
    ChainSeen(num, Or, And, "a || b && c");
  }

  lemma TextSeen(num: Numbers, e: Expr, text: string)
    requires Printable(num, [], e) && Bare(e) == text
    ensures Whole(num, [], text) == Some(e)
  {
    ShownReads(num, [], e);
  }

  lemma BranchText(t: Expr, f: Expr, text: string)
    requires Show(f, 1) == text && Show(A, 2) == Show(t, 2) == "a" && Show(B, 1) == "b"
    ensures Bare(Cond(t, B, f)) == "a ? b : " + text
  {
    hide Show;
  }

  /** Conditionals nest to the right. */
  lemma ConditionalsSeen(num: Numbers)
    ensures Whole(num, [], "a ? b : c ? a : b") == Some(Cond(A, B, Cond(C, A, B)))
  {
    var e := Cond(C, A, B);
    NamesShown();
    LooseShown(e);
    hide Show, Whole;
    assert Bare(e) == "c ? a : b";
    BranchText(A, e, "c ? a : b");
    hide Bare;
    TextSeen(num, Cond(A, B, e), "a ? b : c ? a : b");
  }

  /** A comma separates more than they do. */
  lemma CommasSeen(num: Numbers)
    ensures Whole(num, [], "a, b ? c : a") == Some(Sequence(A, Cond(B, C, A)))
  {
    var f := Cond(B, C, A);
    NamesShown();
    LooseShown(f);
    hide Show, Whole;
    assert Bare(f) == "b ? c : a";
    TextSeen(num, Sequence(A, f), "a, b ? c : a");
  }

  lemma NamesShown()
    ensures forall k: nat :: k <= 9 ==> Show(A, k) == "a" && Show(B, k) == "b" && Show(C, k) == "c"
  {
  }

  lemma LooseShown(e: Expr)
    ensures e.Cond? ==> Show(e, 1) == Bare(e)
    ensures e.Assign? ==> Show(e, 4) == Bare(e)
    ensures e.Unop? && !e.op1.Member? ==> Show(e, 7) == Bare(e)
    ensures Rank(e) == 9 ==> Show(e, 8) == Bare(e)
    ensures Rank(e) < 5 ==> Show(e, 5) == "(" + (Bare(e) + ")")
  {
    hide Bare;
  }

  /** A suffix binds tighter than a sign, and a sign tighter than an operator. */
  lemma SignsSeen(num: Numbers)
    ensures Whole(num, [], "-a.b * c") == Some(Of(Mul, Unop(Prefix(Neg), Unop(Member("b"), A)), C))
  {
    var m := Unop(Member("b"), A);
    var s := Unop(Prefix(Neg), m);
    NamesShown();
    LooseShown(m);
    LooseShown(s);
    hide Show, Whole;
    assert Bare(m) == "a.b" && Bare(s) == "-a.b";
    TextSeen(num, Of(Mul, s, C), "-a.b * c");
  }

  /** An assignment binds tighter than a comparison. */
  lemma AssignmentsSeen(num: Numbers)
    ensures Whole(num, [], "a = b < c") == Some(Of(Lt, Assign("a", B), C))
    ensures Whole(num, [], "a = (b < c)") == Some(Assign("a", Of(Lt, B, C)))
  {
    var g, f := Assign("a", B), Of(Lt, B, C);
    NamesShown();
    LooseShown(g);
    LooseShown(f);
    hide Show, Whole;
    assert Bare(g) == "a = b" && Bare(f) == "b < c";
    TextSeen(num, Of(Lt, g, C), "a = b < c");
    TextSeen(num, Assign("a", f), "a = (b < c)");
  }
}
