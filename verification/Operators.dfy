/** Laws of the operators on integers and truth values, told by their answers alone (src/vm.rs). */
module Operators {
  import opened Values
  import opened Arithmetic

  // ---- comparisons ----

  /** The comparison of two integers answers `true`. */
  predicate Holds(h: Host, op: BinOp, a: i32, b: i32, w: World) {
    Binary(h, op, Int(a), Int(b), w) == Ok(Bool(true), w)
  }

  predicate Fails(h: Host, op: BinOp, a: i32, b: i32, w: World) {
    Binary(h, op, Int(a), Int(b), w) == Ok(Bool(false), w)
  }

  predicate Compares(op: BinOp) {
    op in {Eq, Neq, StrictEq, StrictNeq, Lt, Gt, Le, Ge}
  }

  lemma AlwaysAnswers(h: Host, op: BinOp, a: i32, b: i32, w: World)
    requires Compares(op)
    ensures Holds(h, op, a, b, w) || Fails(h, op, a, b, w)
  {
  }

  /** `a` is less than `b` exactly when something positive is missing. */
  lemma LessIs(h: Host, a: i32, b: i32, w: World)
    ensures Holds(h, Lt, a, b, w) <==> exists k: nat :: Missing(a, k, b)
  {
    var x: int, y: int := a, b;
    if x < y { assert Missing(a, y - x, b); }
  }

  predicate Missing(a: int, k: nat, b: int) {
    k > 0 && a + k == b
  }

  /** Exactly one of `a < b`, `a === b` and `b < a`. */
  lemma Trichotomy(h: Host, a: i32, b: i32, w: World)
    ensures Holds(h, Lt, a, b, w) || Holds(h, StrictEq, a, b, w) || Holds(h, Lt, b, a, w)
    ensures !(Holds(h, Lt, a, b, w) && Holds(h, StrictEq, a, b, w))
    ensures !(Holds(h, Lt, a, b, w) && Holds(h, Lt, b, a, w))
    ensures Holds(h, StrictEq, a, b, w) <==> Int(a) == Int(b)
  {
  }

  /** The other comparisons by these two: `>` is `<` the other way round, `==` is `===`, and the rest are negations. */
  lemma OtherComparisons(h: Host, a: i32, b: i32, w: World)
    ensures Holds(h, Gt, a, b, w) <==> Holds(h, Lt, b, a, w)
    ensures Holds(h, Eq, a, b, w) <==> Holds(h, StrictEq, a, b, w)
    ensures Holds(h, Le, a, b, w) <==> Fails(h, Gt, a, b, w)
    ensures Holds(h, Ge, a, b, w) <==> Fails(h, Lt, a, b, w)
    ensures Holds(h, Neq, a, b, w) <==> Fails(h, Eq, a, b, w)
    ensures Holds(h, StrictNeq, a, b, w) <==> Fails(h, StrictEq, a, b, w)
  {
  }

  // ---- truth ----

  /** Everything a test takes for false; a double by the host's word. All objects are true. */
  lemma FalsyValues(h: Host, v: Value)
    ensures !Truthy(h, v) <==>
      v in {Undefined, Null, Bool(false), Int(0), Str("")} || (v.Float? && !h.nonZero(v.bits))
  {
  }

  /** `&&` and `||` answer one of their operands: the first that settles the matter, else the second. `!` turns one into
      the other. */
  lemma LogicalAnswers(h: Host, a: Value, b: Value, w: World)
    ensures Binary(h, And, a, b, w) == Ok(if Unary(h, Not, a, w) == Ok(Bool(true), w) then a else b, w)
    ensures Binary(h, Or, a, b, w) == Ok(if Unary(h, Not, a, w) == Ok(Bool(true), w) then b else a, w)
    ensures Truthy(h, Binary(h, And, a, b, w).v) <==> Truthy(h, a) && Truthy(h, b)
    ensures Truthy(h, Binary(h, Or, a, b, w).v) <==> Truthy(h, a) || Truthy(h, b)
    ensures Unary(h, Not, a, w) == Ok(Bool(true), w) <==> !Truthy(h, a)
  {
  }

  // ---- arithmetic ----

  /** `~n` is the number that gives -1 with `n`: all bits differ. */
  lemma BitNotIs(h: Host, n: i32, m: i32, w: World)
    ensures Unary(h, BitNot, Int(n), w) == Ok(Int(m), w) <==> n + m == -1
    ensures Unary(h, BitNot, Int(n), w).Ok? && Unary(h, BitNot, Unary(h, BitNot, Int(n), w).v, w) == Ok(Int(n), w)
  {
  }

  /** `a % b` is the number with the sign of `a`, smaller than `b`, that differs from `a` by a multiple of `b`. */
  lemma RemainderIs(h: Host, a: i32, b: i32, r: i32, w: World)
    requires b != 0 && !(a == -0x8000_0000 && b == -1)
    ensures Binary(h, Mod, Int(a), Int(b), w) == Ok(Int(r), w) <==> IsRemainder(a, b, r)
  {
    RemFits(a, b);
    RemainderOf(a, b);
    if IsRemainder(a, b, r) { OneRemainder(a, b, r, TruncRem(a, b)); }
  }

  ghost predicate IsRemainder(a: int, b: int, r: int) {
    && (exists q :: Gives(q, b, r, a))
    && Size(r) < Size(b)
    && (r > 0 ==> a > 0) && (r < 0 ==> a < 0)
  }

  predicate Gives(q: int, b: int, r: int, a: int) {
    q * b + r == a
  }

  function Size(n: int): nat {
    if n < 0 then -n else n
  }

  lemma RemainderOf(a: int, b: int)
    requires b != 0
    ensures IsRemainder(a, b, TruncRem(a, b)) && Gives(TruncDiv(a, b), b, TruncRem(a, b), a)
  {
    RemSign(a, b);
    Rem(a, b);
    hide TruncDiv, TruncRem;
    Restored(TruncDiv(a, b), b, TruncRem(a, b), a);
  }

  lemma Restored(q: int, b: int, r: int, a: int)
    requires r == a - b * q
    ensures Gives(q, b, r, a)
  {
  }

  lemma RemSign(a: int, b: int)
    requires b != 0
    ensures Size(TruncRem(a, b)) < Size(b) && (TruncRem(a, b) > 0 ==> a > 0) && (TruncRem(a, b) < 0 ==> a < 0)
  {
    var p, r := Euclid(Size(a), b);
    Rem(a, b);
    QuotientOf(a, b);
    hide TruncRem, TruncDiv;
    Products(a, b, p, TruncDiv(a, b));
    Sized(a, b, b * p, r, b * TruncDiv(a, b), TruncRem(a, b));
  }

  lemma Products(a: int, b: int, p: int, d: int)
    requires d == if a >= 0 then p else -p
    ensures b * d == if a >= 0 then b * p else -(b * p)
  {
  }

  lemma Sized(a: int, b: int, bp: int, r: int, bd: int, rem: int)
    requires Size(a) == bp + r && bp >= 0 && 0 <= r < Size(b) && bd == (if a >= 0 then bp else -bp) && rem == a - bd
    ensures Size(rem) < Size(b) && (rem > 0 ==> a > 0) && (rem < 0 ==> a < 0)
  {
  }

  lemma QuotientOf(a: int, b: int)
    requires b != 0
    ensures TruncDiv(a, b) == if a >= 0 then Size(a) / b else -(Size(a) / b)
  {
  }

  lemma Rem(a: int, b: int)
    requires b != 0
    ensures TruncRem(a, b) == a - b * TruncDiv(a, b)
  {
    hide TruncDiv;
  }

  lemma Euclid(m: nat, b: int) returns (p: int, r: int)
    requires b != 0
    ensures p == m / b && m == b * p + r && 0 <= r < Size(b) && b * p >= 0
  {
    p, r := m / b, m % b;
    NotNegative(b, p, m, r);
  }

  lemma NotNegative(b: int, p: int, m: nat, r: int)
    requires m == b * p + r && 0 <= r < Size(b)
    ensures b * p >= 0
  {
    if b * p < 0 { NearMultiple(p, b, b * p); }
  }

  lemma OneRemainder(a: int, b: int, r: int, s: int)
    requires b != 0 && IsRemainder(a, b, r) && IsRemainder(a, b, s)
    ensures r == s
  {
    var p :| Gives(p, b, r, a);
    var q :| Gives(q, b, s, a);
    Difference(q, p, b);
    NearMultiple(q - p, b, r - s);
  }

  lemma Difference(q: int, p: int, b: int)
    ensures (q - p) * b == q * b - p * b
  {
  }

  /** A multiple of `b` smaller than `b` is zero. */
  lemma NearMultiple(k: int, b: int, d: int)
    requires k * b == d && Size(d) < Size(b)
    ensures d == 0 && k == 0
  {
    if b > 0 {
      SmallMultiple(k, b);
    } else {
      Negated(k, b);
      SmallMultiple(-k, -b);
    }
  }

  /** An integer quotient is the number that gives `a` back exactly, and there is one only when `b` divides `a`. */
  lemma QuotientIs(h: Host, a: i32, b: i32, q: i32, w: World)
    requires b != 0 && !(a == -0x8000_0000 && b == -1) && !h.quotient(a, b).Int?
    ensures Binary(h, Div, Int(a), Int(b), w) == Ok(Int(q), w) <==> a == q * b
  {
    DivAnswers(h, a, b, w);
    Divides(a, b, q);
    hide *;
  }

  lemma DivAnswers(h: Host, a: i32, b: i32, w: World)
    requires b != 0 && !(a == -0x8000_0000 && b == -1)
    ensures FitsI32(TruncDiv(a, b))
    ensures Binary(h, Div, Int(a), Int(b), w) == Ok(if TruncRem(a, b) == 0 then Int(TruncDiv(a, b)) else h.quotient(a, b), w)
  {
    DivExactFits(a, b);
    hide TruncDiv, TruncRem;
  }

  lemma Divides(a: int, b: int, q: int)
    requires b != 0
    ensures TruncRem(a, b) == 0 && TruncDiv(a, b) == q <==> a == q * b
  {
    RemainderOf(a, b);
    hide TruncDiv, TruncRem;
    if a == q * b {
      assert Gives(q, b, 0, a);
      OneRemainder(a, b, 0, TruncRem(a, b));
      OneQuotient(q, TruncDiv(a, b), b, a);
    }
  }

  lemma Negated(k: int, b: int)
    ensures -k * -b == k * b
  {
  }

  lemma OneQuotient(q: int, d: int, b: int, a: int)
    requires b != 0 && q * b == a == d * b
    ensures q == d
  {
    Difference(q, d, b);
    NearMultiple(q - d, b, 0);
  }

  /** By zero the answers are the host's: its quotient, and its not-a-number for the remainder. */
  lemma ZeroDivisor(h: Host, a: i32, w: World)
    ensures Binary(h, Div, Int(a), Int(0), w) == Ok(h.quotient(a, 0), w)
    ensures Binary(h, Mod, Int(a), Int(0), w) == Ok(h.notANumber, w)
  {
  }

  /** The conversion to a number leaves an integer, and what is not an integer goes to the host with its operator, its
      operands in order and the world. */
  lemma OtherOperands(h: Host, op: BinOp, a: Value, b: Value, u: UnOp, v: Value, n: i32, w: World)
    ensures Unary(h, ToNumber, Int(n), w) == Ok(Int(n), w)
    ensures !op.And? && !op.Or? && !(a.Int? && b.Int?) ==> Binary(h, op, a, b, w) == h.slowBinary(op, a, b, w)
    ensures !u.Not? && !v.Int? ==> Unary(h, u, v, w) == h.slowUnary(u, v, w)
    ensures !v.Int? ==> Increment(h, v, n, w) == h.slowIncrement(v, n, w)
  {
  }

  // ---- globals ----

  /** A global that was stored is what is loaded, whatever builtin has its name; a name without binding is the builtin. */
  lemma GlobalsAreOwn(h: Host, x: string, v: Value, y: string, w: World)
    ensures var w1 := w.(globals := w.globals[x := v]);
      && LoadGlobal(h, x, w1) == (v, w1)
      && (y != x && y in w.globals ==> LoadGlobal(h, y, w1) == (w.globals[y], w1))
    ensures x !in w.globals ==> LoadGlobal(h, x, w) == h.builtin(x, w)
  {
  }
}
