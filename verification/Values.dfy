/** Script values, the host world and the operators of the virtual machine (src/value.rs, src/vm.rs, src/evals.rs). */
module Values {
  import opened Arithmetic

  datatype Option<+T> = None | Some(value: T)

  const TWO_TO_32: int := 0x1_0000_0000

  type i32 = n: int | -0x8000_0000 <= n < 0x8000_0000

  type byte = n: int | 0 <= n < 256

  /** Strings and boxed doubles are taken by content; a double is its 64-bit pattern. */
  datatype Value =
    | Undefined
    | Null
    | Bool(b: bool)
    | Int(n: i32)
    | Float(bits: nat)
    | Str(s: string)
    | Obj(id: nat)

  /** The global object's own bindings, and a number standing for the rest of the host state. */
  datatype World = World(globals: map<string, Value>, heap: nat)

  datatype BinOp =
    | Add | Sub | Mul | Div | Mod
    | Eq | Neq | StrictEq | StrictNeq | Lt | Gt | Le | Ge
    | And | Or

  datatype UnOp = Neg | Not | BitNot | ToNumber

  /** What one operation does: a value, an error value that ends the run, or an arithmetic panic. */
  datatype Outcome =
    | Ok(v: Value, w: World)
    | Throw(v: Value, w: World)
    | Panic

  /** Everything the engine takes from code outside this model. */
  datatype Host = Host(
    number: string -> Option<Value>,
    nonZero: nat -> bool,
    widen: int -> Value,
    quotient: (i32, i32) -> Value,
    notANumber: Value,
    slowBinary: (BinOp, Value, Value, World) -> Outcome,
    slowUnary: (UnOp, Value, World) -> Outcome,
    slowIncrement: (Value, i32, World) -> Outcome,
    builtin: (string, World) -> (Value, World),
    getProp: (Value, Value, World) -> Outcome,
    getElem: (Value, Value, World) -> Outcome,
    call: (Value, Option<Value>, seq<Value>, World) -> Outcome
  )

  predicate FitsI32(n: int) {
    -0x8000_0000 <= n < 0x8000_0000
  }

  /** The value of a 32-bit two's-complement word after wrapping. */
  function Wrap32(n: int): (r: i32)
    ensures (n - r) % 0x1_0000_0000 == 0
    ensures FitsI32(n) ==> r == n
  {
    var m := n % 0x1_0000_0000;
    if m >= 0x8000_0000 then m - 0x1_0000_0000 else m
  }

  /** Division rounding toward zero, as on machine integers. */
  function TruncDiv(a: int, b: int): int
    requires b != 0
  {
    if a >= 0 then a / b else -((-a) / b)
  }

  /** Remainder with the sign of the dividend. */
  function TruncRem(a: int, b: int): int
    requires b != 0
  {
    a - b * TruncDiv(a, b)
  }

  function Truthy(h: Host, v: Value): bool {
    match v
    case Undefined => false
    case Null => false
    case Bool(b) => b
    case Int(n) => n != 0
    case Float(bits) => h.nonZero(bits)
    case Str(s) => s != ""
    case Obj(_) => true
  }

  /** An exact integer result: kept as a word when it fits, boxed as a double otherwise. */
  function FromExact(h: Host, n: int): Value {
    if FitsI32(n) then Int(n) else h.widen(n)
  }

  function IntBinary(h: Host, op: BinOp, a: i32, b: i32, w: World): Outcome
    requires !op.And? && !op.Or?
  {
    match op
    case Add => Ok(FromExact(h, a + b), w)
    case Sub => Ok(FromExact(h, a - b), w)
    case Mul => Ok(FromExact(h, a * b), w)
    case Div =>
      if b == 0 then Ok(h.quotient(a, b), w)
      else if a == -0x8000_0000 && b == -1 then Panic
      else if TruncRem(a, b) == 0 then DivExactFits(a, b); Ok(Int(TruncDiv(a, b)), w)
      else Ok(h.quotient(a, b), w)
    case Mod =>
      if b == 0 then Ok(h.notANumber, w)
      else if a == -0x8000_0000 && b == -1 then Panic
      else RemFits(a, b); Ok(Int(TruncRem(a, b)), w)
    case Eq => Ok(Bool(a == b), w)
    case Neq => Ok(Bool(a != b), w)
    case StrictEq => Ok(Bool(a == b), w)
    case StrictNeq => Ok(Bool(a != b), w)
    case Lt => Ok(Bool(a < b), w)
    case Gt => Ok(Bool(a > b), w)
    case Le => Ok(Bool(a <= b), w)
    case Ge => Ok(Bool(a >= b), w)
  }

  /** `a op b` on two popped operands, `b` the one on top. */
  function Binary(h: Host, op: BinOp, a: Value, b: Value, w: World): Outcome {
    if op == And then Ok(if Truthy(h, a) then b else a, w)
    else if op == Or then Ok(if Truthy(h, a) then a else b, w)
    else if a.Int? && b.Int? then IntBinary(h, op, a.n, b.n, w)
    else h.slowBinary(op, a, b, w)
  }

  function Unary(h: Host, op: UnOp, v: Value, w: World): Outcome {
    if op == Not then Ok(Bool(!Truthy(h, v)), w)
    else if v.Int? then
      var n: int := v.n;
      match op
      case Neg => Ok(FromExact(h, -n), w)
      case BitNot => Ok(Int(-n - 1), w)
      case _ => Ok(v, w)
    else h.slowUnary(op, v, w)
  }

  /** `IncLocal`: integers wrap at 32 bits, everything else goes through a double. */
  function Increment(h: Host, v: Value, amount: i32, w: World): Outcome {
    if v.Int? then Ok(Int(Wrap32(v.n + amount)), w) else h.slowIncrement(v, amount, w)
  }

  /** A global read: an own binding of the global object, or the builtin of that name. */
  function LoadGlobal(h: Host, name: string, w: World): (Value, World) {
    if name in w.globals then (w.globals[name], w) else h.builtin(name, w)
  }

  lemma DivExactFits(a: i32, b: i32)
    requires b != 0 && !(a == -0x8000_0000 && b == -1)
    ensures FitsI32(TruncDiv(a, b))
  {
    var n: int, d: int := a, b;
    var m := if n >= 0 then n else -n;
    if d > 0 { DivBounds(m, d); } else { DivNegative(m, d); DivBounds(m, -d); }
  }

  lemma RemFits(a: i32, b: i32)
    requires b != 0
    ensures FitsI32(TruncRem(a, b))
  {
    var n: int, d: int := a, b;
    var m := if n >= 0 then n else -n;
    var q := m / d;
    assert m == d * q + m % d;
    assert d * -q == -(d * q);
  }
}
