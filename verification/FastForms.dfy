/** Where the fast forms of the engine are exact: increments, and integer arithmetic. */
module FastForms {
  import opened Values
  import opened Bytecode
  import opened Syntax
  import opened CodeGen
  import opened Reference
  import opened StmtSimulation
  import Lexer
  import Texts
  import Radix
  import Updates
  import UpdateForms
  import UpdateTexts

  // ---- strength reduction ----

  /** Results too large for a word are boxed. */
  ghost predicate Boxes(h: Host) {
    forall n: int :: !FitsI32(n) ==> h.widen(n).Float?
  }

  /** The host reads digits as the number they are, and negates boxed integers exactly. */
  ghost predicate ExactHost(h: Host) {
    && Boxes(h)
    && (forall s :: s != "" && Radix.AllDigits(s, 10) ==> h.number(s) == Some(FromExact(h, Radix.Magnitude(s, 10))))
    && (forall n: int, w :: !FitsI32(n) ==> h.slowUnary(Neg, h.widen(n), w) == Ok(FromExact(h, 0 - n), w))
  }

  /** The constant in the general form of an update. */
  function OperandOf(b: Updates.Bump): int
    requires Updates.WellSpelled(b)
  {
    if b.Step? then 1 else Updates.Constant(b.sign, b.digits)
  }

  lemma OperandValue(h: Host, b: Updates.Bump, scope: seq<string>, env: Env)
    requires ExactHost(h) && Updates.WellSpelled(b)
    ensures FitsI32(OperandOf(b)) && EvalExpr(h, Updates.Operand(b), scope, env) == Val(Int(OperandOf(b)), env)
    ensures Updates.Amount(b) == if b.up then OperandOf(b) else 0 - OperandOf(b)
  {
    if b.Step? {
      OneIs();
      NumeralValue(h, "1", scope, env);
    } else {
      hide EvalExpr, Unary;
      NumeralValue(h, b.digits, scope, env);
      SignedValue(h, b.sign, Lit(Number(b.digits)), Radix.Magnitude(b.digits, 10), scope, env);
    }
  }

  lemma OneIs()
    ensures Radix.AllDigits("1", 10) && Radix.Magnitude("1", 10) == 1
  {
    assert "1"[..0] == "" && Radix.Magnitude("", 10) == 0;
    assert Radix.IsDigit('1', 10);
  }

  lemma NumeralValue(h: Host, digits: string, scope: seq<string>, env: Env)
    requires ExactHost(h) && digits != "" && Radix.AllDigits(digits, 10)
    ensures EvalExpr(h, Lit(Number(digits)), scope, env) == Val(FromExact(h, Radix.Magnitude(digits, 10)), env)
  {
    hide Radix.Magnitude, Radix.AllDigits;
    assert h.number(digits) == Some(FromExact(h, Radix.Magnitude(digits, 10)));
  }

  /** A signed numeral whose value fits is that integer. */
  lemma SignedValue(h: Host, sign: string, e: Expr, m: nat, scope: seq<string>, env: Env)
    requires ExactHost(h) && EvalExpr(h, e, scope, env) == Val(FromExact(h, m), env) && (sign == "" || sign == "+" || sign == "-")
    requires FitsI32(if sign == "-" then 0 - m else m)
    ensures EvalExpr(h, Signed(sign, e), scope, env) == Val(Int(if sign == "-" then 0 - m else m), env)
  {
    if sign == "-" {
      var k: int := m;
      assert Unary(h, Neg, FromExact(h, k), env.world) == Ok(Int(0 - k), env.world);
    }
  }

  function Signed(sign: string, e: Expr): Expr {
    if sign == "-" then Unop(Prefix(Neg), e) else if sign == "+" then Unop(Plus, e) else e
  }

  /** An increment by `amount` and adding or subtracting `k`, of the same residue. */
  lemma IncrementIsUpdate(h: Host, x: string, op: BinOp, e: Expr, k: i32, amount: int, n: i32, scope: seq<string>, env: Env)
    requires Boxes(h) && x in scope && Lookup(env, x) == Int(n) && EvalExpr(h, e, scope, env) == Val(Int(k), env)
    requires (op == Add && amount == k) || (op == Sub && amount == 0 - k)
    ensures Bumped(h, x, Wrap32(amount), env) == Discard(EvalExpr(h, Update(x, op, e), scope, env)) <==> FitsI32(n + amount)
  {
    hide Increment, Binary, EvalExpr, Bumped;
    var exact: int := n + amount;
    var w := Wrap32(amount);
    WrapCongruent(n + w, exact);
    BumpedTo(h, x, w, n, env);
    UpdatedTo(h, x, op, e, k, n, scope, env);
    var fast := env.locals[x := Int(Wrap32(exact))];
    var slow := env.locals[x := FromExact(h, exact)];
    assert fast[x] == Int(Wrap32(exact)) && slow[x] == FromExact(h, exact);
  }

  lemma BumpedTo(h: Host, x: string, w: i32, n: i32, env: Env)
    requires Lookup(env, x) == Int(n)
    ensures Bumped(h, x, w, env) == Next(env.(locals := env.locals[x := Int(Wrap32(n + w))]))
  {
  }

  lemma UpdatedTo(h: Host, x: string, op: BinOp, e: Expr, k: i32, n: i32, scope: seq<string>, env: Env)
    requires x in scope && Lookup(env, x) == Int(n) && EvalExpr(h, e, scope, env) == Val(Int(k), env)
    requires op == Add || op == Sub
    ensures Discard(EvalExpr(h, Update(x, op, e), scope, env))
      == Next(env.(locals := env.locals[x := FromExact(h, if op == Add then n + k else n - k)]))
  {
    assert Binary(h, op, Int(n), Int(k), env.world) == Ok(FromExact(h, if op == Add then n + k else n - k), env.world);
  }

  /** For every update text that the compiler turns into one increment, and a local that holds an integer: the
      increment does what loading, adding or subtracting and storing do if and only if the exact result fits 32 bits. */
  lemma StrengthReduction(h: Host, update: string, b: Updates.Bump, n: i32, scope: seq<string>, env: Env)
    requires ExactHost(h) && Updates.Spells(update, b) && b.x in scope && Lookup(env, b.x) == Int(n)
    ensures EvalUpdate(h, update, scope, env) == Discard(EvalExpr(h, Updates.General(b), scope, env))
      <==> FitsI32(n + Updates.Amount(b))
  {
    hide EvalUpdate, IncrementForm, Bumped, Updates.Operand, ExactHost;
    IndexOfFirst(scope, b.x);
    UpdateMeans(h, update, scope, env);
    UpdateForms.Recognised(update, b, scope);
    OperandValue(h, b, scope, env);
    HostBoxes(h);
    IncrementIsUpdate(h, b.x, if b.up then Add else Sub, Updates.Operand(b), OperandOf(b), Updates.Amount(b), n, scope, env);
  }

  lemma HostBoxes(h: Host)
    requires ExactHost(h)
    ensures Boxes(h)
  {
  }

  /** For `x += N` and `x -= N` the general form is what the text itself means as an expression. */
  lemma StrengthReductionText(h: Host, update: string, b: Updates.Bump, w1: string, w2: string, n: i32, scope: seq<string>,
                              env: Env)
    requires ExactHost(h) && b.Compound? && Updates.Spells(update, b) && Lexer.Blank(w1) && Lexer.Blank(w2)
    requires Texts.Trim(update) == Updates.Joined(b, w1, w2) && b.x in scope && Lookup(env, b.x) == Int(n)
    ensures EvalUpdate(h, update, scope, env) == Discard(EvalText(h, Texts.Trim(update), scope, env))
      <==> FitsI32(n + Updates.Amount(b))
  {
    StrengthReduction(h, update, b, n, scope, env);
    assert h.number(b.digits).Some?;
    UpdateTexts.GeneralText(h.number, scope, b, w1, w2);
  }

  /** Wrapping depends only on the residue. */
  lemma WrapCongruent(a: int, b: int)
    requires (a - b) % 0x1_0000_0000 == 0
    ensures Wrap32(a) == Wrap32(b)
  {
  }

  // ---- integer fast paths against doubles ----

  /** An integral double: the integers, and the zero with a minus sign. */
  datatype Double = Whole(n: int) | MinusZero

  /** What double arithmetic gives for integer operands whose exact result is an integer. */
  function DoubleResult(op: BinOp, a: int, b: int): Double
    requires op in {Add, Sub, Mul, Div, Mod}
    requires op in {Div, Mod} ==> b != 0
  {
    if op == Add then Whole(a + b)
    else if op == Sub then Whole(a - b)
    else if op == Mul then if a * b == 0 && (a < 0 || b < 0) then MinusZero else Whole(a * b)
    else if op == Div then if a == 0 && b < 0 then MinusZero else Whole(TruncDiv(a, b))
    else if TruncRem(a, b) == 0 && a < 0 then MinusZero
    else Whole(TruncRem(a, b))
  }

  /** The word or box of a double. */
  function ToValue(h: Host, minusZero: Value, d: Double): Value {
    if d.MinusZero? then minusZero else FromExact(h, d.n)
  }

  /** Each integer fast path gives the double result if and only if that result is not minus zero. */
  lemma FastPathExact(h: Host, minusZero: Value, op: BinOp, a: i32, b: i32, w: World)
    requires minusZero.Float? && op in {Add, Sub, Mul, Div, Mod}
    requires op in {Div, Mod} ==> b != 0 && !(a == -0x8000_0000 && b == -1)
    requires op == Div ==> TruncRem(a, b) == 0
    ensures IntBinary(h, op, a, b, w) == Ok(ToValue(h, minusZero, DoubleResult(op, a, b)), w)
            <==> DoubleResult(op, a, b) != MinusZero
  {
    if op == Div {
      DivExactFits(a, b);
      if a == 0 { assert TruncDiv(a, b) == 0; }
    } else if op == Mod {
      RemFits(a, b);
    }
  }

  lemma NegateExact(h: Host, minusZero: Value, n: i32, w: World)
    requires minusZero.Float?
    ensures Unary(h, Neg, Int(n), w) == Ok(ToValue(h, minusZero, if n == 0 then MinusZero else Whole(0 - n)), w) <==> n != 0
  {
  }

  /** The only integer operands on which the machine panics. */
  lemma PanicsOnlyAtMinimum(h: Host, op: BinOp, a: i32, b: i32, w: World)
    ensures Binary(h, op, Int(a), Int(b), w) == Panic <==> (op == Div || op == Mod) && a == -0x8000_0000 && b == -1
  {
  }
}
