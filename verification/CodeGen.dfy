/** What the one-pass compiler emits for a tree: each construct extends the function built so far
    and then patches its own jumps (src/compiler.rs). */
module CodeGen {
  import opened Values
  import opened Bytecode
  import opened Syntax
  import opened Texts
  import opened Lexer
  import Grammar

  function Emit(f: Func, op: Op, a: nat): (r: Func) {
    f.(code := f.code + [Instr(op, a, 0)])
  }

  /** Points the jump at `at` to the current end of the code. */
  function Patch(f: Func, at: nat): (r: Func)
    ensures |r.code| == |f.code| && r.constants == f.constants && r.locals == f.locals
  {
    if at < |f.code| then f.(code := f.code[at := f.code[at].(a := |f.code|)]) else f
  }

  /** Patching touches nothing but the target of that one jump. */
  lemma PatchOnly(f: Func, at: nat, i: nat)
    requires at < |f.code| && i < |f.code|
    ensures Patch(f, at).code[i] == if i == at then Instr(f.code[i].op, |Patch(f, at).code|, f.code[i].b) else f.code[i]
  {
  }

  /** Loads a constant, sharing a pool entry that already holds it. */
  function EmitShared(f: Func, op: Op, v: Value): (r: Func) {
    var i := IndexOf(f.constants, v);
    Func(f.code + [Instr(op, i, 0)], if i < |f.constants| then f.constants else f.constants + [v], f.locals)
  }

  /** Loads a constant through a new pool entry. */
  function EmitFresh(f: Func, v: Value): (r: Func) {
    Func(f.code + [Instr(Const, |f.constants|, 0)], f.constants + [v], f.locals)
  }

  function LiteralValue(num: Grammar.Numbers, lit: Literal): Value {
    match lit
    case Number(lexeme) => var v := num(lexeme); if v.Some? then v.value else Undefined
    case Text(s) => Str(s)
    case True => Bool(true)
    case False => Bool(false)
    case NullWord => Null
    case UndefinedWord => Undefined
  }

  /** The literals are what the operators give: `!` answers with `true` and `false`, whatever it is applied to, and a test
      takes exactly the words, the empty string and numeric zeros for false. */
  lemma LiteralMeaning(h: Host, lit: Literal, v: Value, w: World)
    ensures Unary(h, Not, v, w) == Ok(LiteralValue(h.number, if Truthy(h, v) then False else True), w)
    ensures Truthy(h, LiteralValue(h.number, lit)) <==>
      (match lit
       case True => true
       case Text(s) => |s| > 0
       case Number(lexeme) => h.number(lexeme).Some? && Truthy(h, h.number(lexeme).value)
       case _ => false)
  {
  }

  /** Different literals that are not numbers have different values. */
  lemma LiteralsApart(num: Grammar.Numbers, a: Literal, b: Literal)
    requires !a.Number? && !b.Number?
    ensures LiteralValue(num, a) == LiteralValue(num, b) <==> a == b
  {
  }

  /** Strings, `undefined` and integers share pool entries; a boxed double is a new pointer and never equals one. */
  predicate SharesEntry(num: Grammar.Numbers, lit: Literal) {
    lit.Text? || lit.UndefinedWord? || (lit.Number? && LiteralValue(num, lit).Int?)
  }

  function EmitLiteral(num: Grammar.Numbers, f: Func, lit: Literal): (r: Func) {
    if SharesEntry(num, lit) then EmitShared(f, Const, LiteralValue(num, lit))
    else EmitFresh(f, LiteralValue(num, lit))
  }

  function EmitOp1(f: Func, op: Op1): (r: Func) {
    match op
    case Plus => f
    case Prefix(u) => Emit(f, Un(u), 0)
    case Member(name) => Emit(EmitShared(f, Const, Str(name)), GetProp, 0)
  }

  function Op2Code(op: Op2): Op {
    match op
    case Infix(b) => Bin(b)
    case Index => GetElem
  }

  /** Reads a variable: its slot when it is local here, the global of that name otherwise. */
  function EmitLoad(f: Func, x: string): (r: Func) {
    var slot := IndexOf(f.locals, x);
    if slot < |f.locals| then Emit(f, LoadLocal, slot) else EmitShared(f, LoadGlobal, Str(x))
  }

  /** Writes the value on top of the stack to a variable and leaves it there. */
  function EmitStore(f: Func, x: string): (r: Func) {
    var slot := IndexOf(f.locals, x);
    if slot < |f.locals| then Emit(Emit(Emit(f, Dup, 0), StoreLocal, slot), Drop, 0)
    else EmitShared(f, StoreGlobal, Str(x))
  }

  function CompileExpr(num: Grammar.Numbers, e: Expr, f: Func): (r: Func)
    ensures r.locals == f.locals
    decreases e
  {
    match e
    case Lit(lit) => EmitLiteral(num, f, lit)
    case Name(x) => EmitLoad(f, x)
    case Global(x) => EmitShared(f, LoadGlobal, Str(x))
    case Assign(x, e1) => EmitStore(CompileExpr(num, e1, f), x)
    case Update(x, op, e1) => EmitStore(Emit(CompileExpr(num, e1, EmitLoad(f, x)), Bin(op), 0), x)
    case Sequence(l, r) => CompileExpr(num, r, Emit(CompileExpr(num, l, f), Drop, 0))
    case Cond(c, a, b) =>
      var f1 := CompileExpr(num, c, f);
      var f2 := CompileExpr(num, a, Emit(f1, JumpIfFalse, 0));
      var f3 := Patch(Emit(f2, Jump, 0), |f1.code|);
      Patch(CompileExpr(num, b, f3), |f2.code|)
    case Binop(op, l, r) => Emit(CompileExpr(num, r, CompileExpr(num, l, f)), Op2Code(op), 0)
    case Unop(op, e1) => EmitOp1(CompileExpr(num, e1, f), op)
    case Apply(fn, args) => Emit(CompileArgs(num, args, CompileExpr(num, fn, f)), Op.Call, Count(args))
    case Invoke(o, name, args) =>
      var f1 := Emit(EmitShared(Emit(CompileExpr(num, o, f), Dup, 0), Const, Str(name)), GetProp, 0);
      Emit(CompileArgs(num, args, f1), CallMethod, Count(args))
  }

  function CompileArgs(num: Grammar.Numbers, args: Args, f: Func): (r: Func)
    ensures r.locals == f.locals
    decreases args
  {
    match args
    case NoArgs => f
    case Snoc(init, last) => CompileExpr(num, last, CompileArgs(num, init, f))
  }

  /** The code of a conditional after that of its test. */
  function BranchCode(num: Grammar.Numbers, a: Expr, b: Expr, f1: Func): Func {
    var f2 := CompileExpr(num, a, Emit(f1, JumpIfFalse, 0));
    var f3 := Patch(Emit(f2, Jump, 0), |f1.code|);
    Patch(CompileExpr(num, b, f3), |f2.code|)
  }

  /** The code of a suffix after that of its operand. */
  function SuffixCode(num: Grammar.Numbers, suffix: Suffix, f: Func): Func {
    match suffix
    case Property(name) => EmitOp1(f, Member(name))
    case Method(name, args) =>
      Emit(CompileArgs(num, args, Emit(EmitShared(Emit(f, Dup, 0), Const, Str(name)), GetProp, 0)), CallMethod, Count(args))
    case Subscript(i) => Emit(CompileExpr(num, i, f), GetElem, 0)
    case Arguments(args) => Emit(CompileArgs(num, args, f), Op.Call, Count(args))
  }

  lemma AttachCode(num: Grammar.Numbers, left: Expr, suffix: Suffix, f: Func)
    ensures CompileExpr(num, Attach(left, suffix), f) == SuffixCode(num, suffix, CompileExpr(num, left, f))
  {
    hide Emit, EmitShared, EmitOp1, EmitLoad, EmitStore, EmitLiteral, Patch, CompileArgs, Count;
  }

  function CompileText(num: Grammar.Numbers, text: string, f: Func): Option<Func> {
    match Grammar.Full(num, f.locals, text)
    case None => None
    case Some(e) => Some(CompileExpr(num, e, f))
  }

  function Declare(locals: seq<string>, name: string): (r: seq<string>)
    ensures IndexOf(r, name) == IndexOf(locals, name) < |r|
    ensures Distinct(locals) ==> Distinct(r)
    ensures |locals| <= |r| && forall i :: 0 <= i < |locals| ==> r[i] == locals[i]
  {
    if IndexOf(locals, name) < |locals| then locals
    else
      IndexOfAppended(locals, name);
      IndexOfFirst(locals, name);
      locals + [name]
  }

  lemma IndexOfAppended(s: seq<string>, x: string)
    requires IndexOf(s, x) == |s|
    ensures IndexOf(s + [x], x) == |s|
  {
    IndexOfFirst(s, x);
    IndexOfFirst(s + [x], x);
    assert (s + [x])[|s|] == x;
  }

  /** The two characters around the name in `i++`, `i--`, `++i`, `--i`, and what they add. */
  function StepAmount(mark: string): i32 {
    if mark == "++" then 1 else -1
  }

  predicate IsStep(mark: string) {
    mark == "++" || mark == "--"
  }

  function PostfixForm(u: string, locals: seq<string>): Option<(nat, i32)> {
    if |u| < 3 || !IsStep(u[|u| - 2..]) then None
    else LocalStep(Trim(u[..|u| - 2]), StepAmount(u[|u| - 2..]), locals)
  }

  function PrefixForm(u: string, locals: seq<string>): Option<(nat, i32)> {
    if |u| < 3 || !IsStep(u[..2]) then None
    else LocalStep(Trim(u[2..]), StepAmount(u[..2]), locals)
  }

  /** `i += N` (`sign` is `+`) or `i -= N` (`sign` is `-`) with a 32-bit decimal `N`; the negation wraps. */
  function CompoundForm(u: string, sign: char, locals: seq<string>): Option<(nat, i32)> {
    var k := FindPair(u, sign, '=');
    if k == |u| then None
    else
      match ParseI32(Trim(u[k + 2..]))
      case None => None
      case Some(n) => LocalStep(Trim(u[..k]), if sign == '-' then Wrap32(0 - n) else n, locals)
  }

  function LocalStep(name: string, amount: i32, locals: seq<string>): Option<(nat, i32)> {
    if IsLocal(name, locals) then Some((IndexOf(locals, name), amount)) else None
  }

  /** The slot and amount of an update the compiler turns into one `IncLocal`; the forms are tried in this order. */
  function IncrementForm(update: string, locals: seq<string>): (r: Option<(nat, i32)>)
    ensures r.Some? ==> r.value.0 < |locals|
  {
    var u := Trim(update);
    var a := PostfixForm(u, locals);
    if a.Some? then a else
    var b := PrefixForm(u, locals);
    if b.Some? then b else
    var c := CompoundForm(u, '+', locals);
    if c.Some? then c else CompoundForm(u, '-', locals)
  }

  predicate IsLocal(name: string, locals: seq<string>) {
    IsIdentifier(name) && IndexOf(locals, name) < |locals|
  }

  function CompileStmt(num: Grammar.Numbers, s: Stmt, f: Func): (r: Option<Func>)
    decreases s, 1
  {
    match s
    case Var(name) =>
      if IsIdentifier(name) then Some(f.(locals := Declare(f.locals, name))) else None
    case VarInit(name, text) =>
      if !IsIdentifier(name) then None
      else
        (match CompileText(num, text, f.(locals := Declare(f.locals, name)))
         case None => None
         case Some(f1) => Some(Emit(Emit(f1, StoreLocal, IndexOf(f.locals, name)), Drop, 0)))
    case ReturnVoid => Some(Emit(EmitShared(f, Const, Undefined), Return, 0))
    case ReturnText(text) =>
      (match CompileText(num, text, f)
       case None => None
       case Some(f1) => Some(Emit(f1, Return, 0)))
    case ExprStmt(text) => CompileDropped(num, text, f)
    case If(cond, thn, els) =>
      (match CompileText(num, cond, f)
       case None => None
       case Some(f1) =>
         match CompileStmts(num, thn, Emit(f1, JumpIfFalse, 0))
         case None => None
         case Some(f2) =>
           if els.NoElse? then Some(Patch(f2, |f1.code|))
           else
             match CompileStmts(num, els.body, Patch(Emit(f2, Jump, 0), |f1.code|))
             case None => None
             case Some(f3) => Some(Patch(f3, |f2.code|)))
    case For(init, _, _, _) =>
      match (if init.None? then Some(f) else CompileStmt(num, init.value, f))
      case None => None
      case Some(f0) => CompileLoop(num, s, f0)
  }

  /** The loop of a `for` after its initialiser: the one construct that jumps backward. */
  function CompileLoop(num: Grammar.Numbers, s: Stmt, f: Func): (r: Option<Func>)
    requires s.For?
    decreases s, 0
  {
    match (if s.test.None? then Some(f) else CompileText(num, s.test.value, f))
    case None => None
    case Some(f1) =>
      match CompileStmts(num, s.body, if s.test.None? then f1 else Emit(f1, JumpIfFalse, 0))
      case None => None
      case Some(f2) =>
        match (if s.update.None? then Some(f2) else CompileUpdate(num, s.update.value, f2))
        case None => None
        case Some(f3) =>
          var f4 := Emit(f3, Jump, |f.code|);
          Some(if s.test.None? then f4 else Patch(f4, |f1.code|))
  }

  /** The code up to the body of a loop: its test, when it has one. */
  function BodyStart(num: Grammar.Numbers, s: Stmt, f: Func): Func
    requires s.For? && (s.test.Some? ==> CompileText(num, s.test.value, f).Some?)
  {
    if s.test.None? then f else Emit(CompileText(num, s.test.value, f).value, JumpIfFalse, 0)
  }

  predicate BodyCompiles(num: Grammar.Numbers, s: Stmt, g: Func)
    requires s.For?
  {
    && CompileStmts(num, s.body, g).Some?
    && (s.update.Some? ==> CompileUpdate(num, s.update.value, CompileStmts(num, s.body, g).value).Some?)
  }

  /** The body of a loop and its update. */
  function BodyCode(num: Grammar.Numbers, s: Stmt, g: Func): Func
    requires s.For? && BodyCompiles(num, s, g)
  {
    var f2 := CompileStmts(num, s.body, g).value;
    if s.update.None? then f2 else CompileUpdate(num, s.update.value, f2).value
  }

  predicate LoopParts(num: Grammar.Numbers, s: Stmt, f: Func)
    requires s.For? && CompileLoop(num, s, f).Some?
  {
    && (s.test.Some? ==> CompileText(num, s.test.value, f).Some?)
    && var g := BodyStart(num, s, f);
    && BodyCompiles(num, s, g)
    && var f4 := Emit(BodyCode(num, s, g), Jump, |f.code|);
    && CompileLoop(num, s, f).value == if s.test.None? then f4 else Patch(f4, |CompileText(num, s.test.value, f).value.code|)
  }

  /** A loop is its test, its body and update, the jump back, and the patch that leads out of it. */
  lemma LoopIs(num: Grammar.Numbers, s: Stmt, f: Func)
    requires s.For? && CompileLoop(num, s, f).Some?
    ensures LoopParts(num, s, f)
  {
    hide CompileText, CompileStmts, CompileUpdate;
  }

  /** An expression whose value is thrown away. */
  function CompileDropped(num: Grammar.Numbers, text: string, f: Func): Option<Func> {
    match CompileText(num, text, f)
    case None => None
    case Some(f1) => Some(Emit(f1, Drop, 0))
  }

  function WithIncrement(f: Func, slot: nat, amount: i32): Func {
    f.(code := f.code + [Instr(IncLocal, slot, amount)])
  }

  function CompileUpdate(num: Grammar.Numbers, update: string, f: Func): Option<Func> {
    match IncrementForm(update, f.locals)
    case Some((slot, amount)) => Some(WithIncrement(f, slot, amount))
    case None => CompileDropped(num, Trim(update), f)
  }

  function CompileStmts(num: Grammar.Numbers, ss: seq<Stmt>, f: Func): (r: Option<Func>)
    decreases ss, 0
  {
    if ss == [] then Some(f)
    else
      match CompileStmt(num, ss[0], f)
      case None => None
      case Some(f1) => CompileStmts(num, ss[1..], f1)
  }

  function DeclareAll(locals: seq<string>, names: seq<string>): (r: seq<string>)
    ensures Distinct(locals) ==> Distinct(r)
    decreases names
  {
    if names == [] then locals else DeclareAll(Declare(locals, names[0]), names[1..])
  }

  /** A function body: parameters first, the statements, and a final `return undefined`. */
  function CompileBody(num: Grammar.Numbers, params: seq<string>, ss: seq<Stmt>): Option<Func> {
    match CompileStmts(num, ss, Func([], [], DeclareAll([], params)))
    case None => None
    case Some(f) => Some(Emit(EmitShared(f, Const, Undefined), Return, 0))
  }
}
