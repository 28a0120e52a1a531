/** Compound updates as expressions: what the reader makes of their text. */
module UpdateTexts {
  import opened Values
  import opened Syntax
  import opened Texts
  import opened Lexer
  import opened Grammar
  import opened Printer
  import opened Updates
  import opened Utf8
  import Literals
  import Radix

  lemma {:induction false} BlankSkipped(t: string, p: nat, w: string)
    requires LookingAt(t, p, w) && Blank(w) && p + |w| < |t| && !IsSpace(t[p + |w|])
    ensures SkipSpace(t, p) == p + |w|
    decreases |w|
  {
    if w != "" {
      CharAt(t, p, w, 0);
      assert w == [w[0]] + w[1..];
      Split(t, p, [w[0]], w[1..]);
      BlankSkipped(t, p + 1, w[1..]);
    }
  }

  lemma DigitsDecimal(digits: string)
    requires Radix.AllDigits(digits, 10)
    ensures forall i :: 0 <= i < |digits| ==> IsDigit(digits[i])
  {
    forall i | 0 <= i < |digits| ensures IsDigit(digits[i]) { assert Radix.IsDigit(digits[i], 10); }
  }

  lemma {:induction false} DigitsToEnd(t: string, p: nat)
    requires p <= |t| && forall i :: p <= i < |t| ==> IsDigit(t[i])
    ensures SkipDigits(t, p) == |t|
    decreases |t| - p
  {
    if p < |t| { DigitsToEnd(t, p + 1); }
  }

  lemma DigitsRead(num: Numbers, scope: seq<string>, t: string, p: nat, digits: string)
    requires LookingAt(t, p, digits) && p + |digits| == |t| && digits != "" && Radix.AllDigits(digits, 10) && num(digits).Some?
    ensures Factor(num, scope, t, p) == Got(Lit(Number(digits)), |t|)
  {
    DigitsDecimal(digits);
    forall i | p <= i < |t| ensures IsDigit(t[i]) { CharAt(t, p, digits, i - p); }
    DigitsToEnd(t, p);
    assert t[p..|t|] == digits;
    assert NumberEnd(t, p) == |t|;
    assert Primary(num, scope, t, p) == Got(Lit(Number(digits)), |t|);
    PrimaryToFactor(num, scope, t, p, Lit(Number(digits)), |t|);
  }

  lemma NumeralReads(num: Numbers, scope: seq<string>, t: string, p: nat, b: Bump)
    requires b.Compound? && WellSpelled(b) && num(b.digits).Some?
    requires LookingAt(t, p, b.sign + b.digits) && p + |b.sign + b.digits| == |t|
    ensures Factor(num, scope, t, p) == Got(Operand(b), |t|)
  {
    Split(t, p, b.sign, b.digits);
    DigitsRead(num, scope, t, p + |b.sign|, b.digits);
    if b.sign != "" { CharAt(t, p, b.sign, 0); }
  }

  /** White space before a factor does not count. */
  lemma FactorAfterBlank(num: Numbers, scope: seq<string>, t: string, p: nat, q: nat)
    requires p <= |t| && SkipSpace(t, p) == q && SkipSpace(t, q) == q
    ensures Factor(num, scope, t, p) == Factor(num, scope, t, q)
  {
    hide SkipSpace;
  }

  lemma OperandReads(num: Numbers, scope: seq<string>, t: string, p: nat, w: string, b: Bump)
    requires b.Compound? && WellSpelled(b) && num(b.digits).Some? && Blank(w)
    requires LookingAt(t, p, w + (b.sign + b.digits)) && p + |w + (b.sign + b.digits)| == |t|
    ensures Sum(num, scope, t, p) == Got(Operand(b), |t|)
  {
    var n := b.sign + b.digits;
    var q := p + |w|;
    Split(t, p, w, n);
    NumeralStarts(b);
    CharAt(t, q, n, 0);
    BlankSkipped(t, p, w);
    NumeralReads(num, scope, t, q, b);
    FactorAfterBlank(num, scope, t, p, q);
    FactorToTerm(num, scope, t, p, Operand(b), |t|);
    TermToSum(num, scope, t, p, Operand(b), |t|);
  }

  lemma NumeralStarts(b: Bump)
    requires b.Compound? && WellSpelled(b)
    ensures var n := b.sign + b.digits; n != "" && !IsSpace(n[0])
  {
    DigitsDecimal(b.digits);
    var n := b.sign + b.digits;
    assert n[0] == if b.sign == "" then b.digits[0] else b.sign[0];
  }

  lemma JoinedAscii(b: Bump, w1: string, w2: string)
    requires b.Compound? && WellSpelled(b) && Blank(w1) && Blank(w2)
    ensures Ascii(Joined(b, w1, w2))
  {
    Literals.IdentifierAscii(b.x);
    DigitsDecimal(b.digits);
    var n := b.sign + b.digits;
    AsciiJoin(b.sign, b.digits);
    AsciiJoin(w2, n);
    AsciiJoin(Operator(b.up), w2 + n);
    AsciiJoin(w1, Operator(b.up) + (w2 + n));
    AsciiJoin(b.x, w1 + (Operator(b.up) + (w2 + n)));
  }

  lemma AsciiJoin(a: string, b: string)
    requires Ascii(a) && Ascii(b)
    ensures Ascii(a + b)
  {
  }

  /** With blanks between its tokens, a compound update is read as its general form. */
  lemma GeneralText(num: Numbers, scope: seq<string>, b: Bump, w1: string, w2: string)
    requires b.Compound? && WellSpelled(b) && Blank(w1) && Blank(w2) && num(b.digits).Some? && b.x in scope
    ensures Full(num, scope, Joined(b, w1, w2)) == Some(General(b))
  {
    var t := Joined(b, w1, w2);
    JoinedAscii(b, w1, w2);
    AsReadSame(t);
    Literals.Itself(t);
    UpdateReads(num, scope, t, b, w1, w2);
    WholeAssignment(num, scope, t, General(b));
  }

  lemma UpdateReads(num: Numbers, scope: seq<string>, t: string, b: Bump, w1: string, w2: string)
    requires b.Compound? && WellSpelled(b) && Blank(w1) && Blank(w2) && num(b.digits).Some? && b.x in scope
    requires t == Joined(b, w1, w2) && LookingAt(t, 0, t)
    ensures Assignment(num, scope, t, 0) == Got(General(b), |t|)
  {
    hide LookingAt, Sum, Assignment, IsIdentifier, Numeral, Operand, SkipSpace, IdentEnd, Joined, Blank;
    var x, op := b.x, Operator(b.up);
    var k := |x|;
    var q := k + |w1|;
    TokensStand(t, b, w1, w2);
    CharAt(t, q, op, 0);
    AfterWord(t, k, w1, op);
    IdentAt(t, 0, x);
    BlankSkipped(t, k, w1);
    OperandReads(num, scope, t, q + 2, w2, b);
    NameStarts(x);
    AssignmentOf(num, scope, t, k, q, b.x, b.up, Operand(b));
  }

  lemma TokensStand(t: string, b: Bump, w1: string, w2: string)
    requires b.Compound? && t == Joined(b, w1, w2) && LookingAt(t, 0, t)
    ensures var k := |b.x|; var q := k + |w1|; var n := w2 + (b.sign + b.digits);
      && LookingAt(t, 0, b.x) && LookingAt(t, k, w1) && LookingAt(t, q, Operator(b.up)) && LookingAt(t, q + 2, n)
      && q + 2 + |n| == |t|
  {
    hide LookingAt;
    var x, op, n := b.x, Operator(b.up), w2 + (b.sign + b.digits);
    Split(t, 0, x, w1 + (op + n));
    Split(t, |x|, w1, op + n);
    Split(t, |x| + |w1|, op, n);
  }

  /** A name, an operator after blanks, and a sum to the end. */
  lemma AssignmentOf(num: Numbers, scope: seq<string>, t: string, k: nat, q: nat, x: string, up: bool, e: Expr)
    requires 0 < k <= q && q + 2 <= |t| && IdentEnd(t, 0) == k && SkipSpace(t, 0) == 0 && t[0..k] == x && SkipSpace(t, k) == q
    requires LookingAt(t, q, Operator(up)) && x in scope && Sum(num, scope, t, q + 2) == Got(e, |t|)
    ensures Assignment(num, scope, t, 0) == Got(Update(x, if up then Add else Sub, e), |t|)
  {
    hide Sum, IdentEnd, SkipSpace;
    CharAt(t, q, Operator(up), 0);
    if !up { NotLooking(t, q, "+="); }
    assert AfterName(num, scope, t, 0, k) == Got(Update(x, if up then Add else Sub, e), |t|);
  }

  lemma NameStarts(x: string)
    requires IsIdentifier(x)
    ensures x != ""
  {
  }

  /** The name ends where blanks or the operator begin. */
  lemma AfterWord(t: string, k: nat, w: string, op: string)
    requires LookingAt(t, k, w) && LookingAt(t, k + |w|, op) && Blank(w) && (op == "+=" || op == "-=")
    ensures k < |t| && !IsIdentPart(t[k])
  {
    if w == "" { CharAt(t, k, op, 0); } else { CharAt(t, k, w, 0); }
  }
}
