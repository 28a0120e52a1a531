/** The machine on compiled code does what the reference evaluator says, in any context. */
module Simulation {
  import opened Values
  import opened Bytecode
  import opened Syntax
  import opened Machine
  import opened CodeGen
  import opened Reference
  import Grammar

  /** `r` continues `f`: its code, pool and scope start with those of `f`. */
  ghost predicate Grows(f: Func, r: Func) {
    && |f.code| <= |r.code|
    && (forall i :: 0 <= i < |f.code| ==> r.code[i] == f.code[i])
    && PoolGrows(f, r)
  }

  ghost predicate PoolGrows(f: Func, r: Func) {
    && |f.constants| <= |r.constants|
    && (forall i :: 0 <= i < |f.constants| ==> r.constants[i] == f.constants[i])
    && |f.locals| <= |r.locals|
    && (forall i :: 0 <= i < |f.locals| ==> r.locals[i] == f.locals[i])
  }

  /** The finished function `F` contains the code of `g` from `lo` on, wherever that code is placed. */
  ghost predicate Covers(F: Func, g: Func, lo: nat) {
    && |g.code| <= |F.code|
    && (forall i :: lo <= i < |g.code| ==> F.code[i] == g.code[i])
    && PoolGrows(g, F)
    && Distinct(F.locals)
  }

  /** The local slots that hold `env`. */
  function Slots(names: seq<string>, env: Env): seq<Value> {
    seq(|names|, i requires 0 <= i < |names| => Lookup(env, names[i]))
  }

  /** The machine at `pc` with operand stack `st`, its locals and world being those of `env`. */
  function At(F: Func, pc: nat, st: seq<Value>, env: Env): Config {
    Running(State(pc, st, Slots(F.locals, env), env.world))
  }

  /** Where an evaluation leaves the machine: its value on top of `st` at `pc`, or stopped. */
  function Landing(F: Func, pc: nat, st: seq<Value>, r: Eval): Config {
    match r
    case Val(v, env) => At(F, pc, st + [v], env)
    case Stop(fin) => Halted(fin)
  }

  lemma {:induction false} ExprGrows(num: Grammar.Numbers, e: Expr, f: Func)
    ensures Grows(f, CompileExpr(num, e, f))
    decreases e, 1
  {
    match e
    case Lit(_) =>
    case Name(_) =>
    case Global(_) =>
    case Assign(_, e1) => ExprGrows(num, e1, f);
    case Update(_, _, _) => UpdateGrows(num, e, f);
    case Sequence(l, r) =>
      ExprGrows(num, l, f);
      ExprGrows(num, r, Emit(CompileExpr(num, l, f), Drop, 0));
    case Cond(_, _, _) => CondGrows(num, e, f);
    case Binop(_, l, r) =>
      ExprGrows(num, l, f);
      ExprGrows(num, r, CompileExpr(num, l, f));
    case Unop(_, e1) => ExprGrows(num, e1, f);
    case Apply(fn, args) =>
      ExprGrows(num, fn, f);
      ArgsGrow(num, args, CompileExpr(num, fn, f));
    case Invoke(_, _, _) => InvokeGrows(num, e, f);
  }

  lemma {:induction false} InvokeGrows(num: Grammar.Numbers, e: Expr, f: Func)
    requires e.Invoke?
    ensures Grows(f, CompileExpr(num, e, f))
    decreases e, 0
  {
    ExprGrows(num, e.o, f);
    ArgsGrow(num, e.args, Emit(EmitShared(Emit(CompileExpr(num, e.o, f), Dup, 0), Const, Str(e.name)), GetProp, 0));
  }

  lemma {:induction false} UpdateGrows(num: Grammar.Numbers, e: Expr, f: Func)
    requires e.Update?
    ensures Grows(f, CompileExpr(num, e, f))
    decreases e, 0
  {
    ExprGrows(num, e.e, EmitLoad(f, e.x));
  }

  lemma {:induction false} CondGrows(num: Grammar.Numbers, e: Expr, f: Func)
    requires e.Cond?
    ensures Grows(f, CompileExpr(num, e, f))
    decreases e, 0
  {
    var f1 := CompileExpr(num, e.c, f);
    ExprGrows(num, e.c, f);
    var f2 := CompileExpr(num, e.t, Emit(f1, JumpIfFalse, 0));
    ExprGrows(num, e.t, Emit(f1, JumpIfFalse, 0));
    ExprGrows(num, e.f, Patch(Emit(f2, Jump, 0), |f1.code|));
  }

  lemma {:induction false} ArgsGrow(num: Grammar.Numbers, args: Args, f: Func)
    ensures Grows(f, CompileArgs(num, args, f))
    decreases args, 0
  {
    match args
    case NoArgs =>
    case Snoc(init, last) =>
      ArgsGrow(num, init, f);
      ExprGrows(num, last, CompileArgs(num, init, f));
  }

  // ---- single instructions ----

  lemma DoOp2(h: Host, F: Func, c: Config, pc: nat, op: Op2, st: seq<Value>, a: Value, b: Value, env: Env)
    requires pc < |F.code| && F.code[pc] == Instr(Op2Code(op), 0, 0)
    requires Reaches(h, F, c, At(F, pc, st + [a] + [b], env))
    ensures Reaches(h, F, c, Landing(F, pc + 1, st, Lift(Apply2(h, op, a, b, env.world), env)))
  {
    Then(h, F, c, At(F, pc, st + [a] + [b], env).s);
    assert (st + [a] + [b])[..|st|] == st;
  }

  lemma DoOp1(h: Host, F: Func, c: Config, f: Func, op: Op1, st: seq<Value>, v: Value, env: Env)
    requires Covers(F, EmitOp1(f, op), |f.code|)
    requires Reaches(h, F, c, At(F, |f.code|, st + [v], env))
    ensures Reaches(h, F, c, Landing(F, |EmitOp1(f, op).code|, st, Lift(Apply1(h, op, v, env.world), env)))
  {
    var r, n := EmitOp1(f, op), |f.code|;
    match op
    case Plus =>
    case Prefix(_) =>
      assert F.code[n] == r.code[n];
      Then(h, F, c, At(F, n, st + [v], env).s);
      assert (st + [v])[..|st|] == st;
    case Member(name) =>
      assert F.code[n + 1] == r.code[n + 1];
      DoConst(h, F, c, f, EmitShared(f, Const, Str(name)), Str(name), st + [v], env);
      DoGet(h, F, c, n + 1, st, v, Str(name), env);
  }

  lemma DoDrop(h: Host, F: Func, c: Config, pc: nat, st: seq<Value>, v: Value, env: Env)
    requires pc < |F.code| && F.code[pc].op == Drop
    requires Reaches(h, F, c, At(F, pc, st + [v], env))
    ensures Reaches(h, F, c, At(F, pc + 1, st, env))
  {
    Then(h, F, c, At(F, pc, st + [v], env).s);
    assert (st + [v])[..|st|] == st;
  }

  lemma DoJump(h: Host, F: Func, c: Config, pc: nat, st: seq<Value>, env: Env)
    requires pc < |F.code| && F.code[pc].op == Jump
    requires Reaches(h, F, c, At(F, pc, st, env))
    ensures Reaches(h, F, c, At(F, F.code[pc].a, st, env))
  {
    Then(h, F, c, At(F, pc, st, env).s);
  }

  lemma DoBranch(h: Host, F: Func, c: Config, pc: nat, st: seq<Value>, v: Value, env: Env)
    requires pc < |F.code| && F.code[pc].op == JumpIfFalse
    requires Reaches(h, F, c, At(F, pc, st + [v], env))
    ensures Reaches(h, F, c, At(F, if Truthy(h, v) then pc + 1 else F.code[pc].a, st, env))
  {
    Then(h, F, c, At(F, pc, st + [v], env).s);
    assert (st + [v])[..|st|] == st;
  }

  lemma DoDup(h: Host, F: Func, c: Config, pc: nat, st: seq<Value>, v: Value, env: Env)
    requires pc < |F.code| && F.code[pc].op == Dup
    requires Reaches(h, F, c, At(F, pc, st + [v], env))
    ensures Reaches(h, F, c, At(F, pc + 1, st + [v] + [v], env))
  {
    Then(h, F, c, At(F, pc, st + [v], env).s);
  }

  lemma DoGet(h: Host, F: Func, c: Config, pc: nat, st: seq<Value>, o: Value, k: Value, env: Env)
    requires pc < |F.code| && F.code[pc].op == GetProp
    requires Reaches(h, F, c, At(F, pc, st + [o] + [k], env))
    ensures Reaches(h, F, c, Landing(F, pc + 1, st, Lift(h.getProp(o, k, env.world), env)))
  {
    Then(h, F, c, At(F, pc, st + [o] + [k], env).s);
    assert (st + [o] + [k])[..|st|] == st;
  }

  lemma DoCall(h: Host, F: Func, c: Config, pc: nat, st: seq<Value>, g: Value, vs: seq<Value>, env: Env)
    requires pc < |F.code| && F.code[pc] == Instr(Op.Call, |vs|, 0)
    requires Reaches(h, F, c, At(F, pc, st + [g] + vs, env))
    ensures Reaches(h, F, c, Landing(F, pc + 1, st, Lift(h.call(g, None, vs, env.world), env)))
  {
    Then(h, F, c, At(F, pc, st + [g] + vs, env).s);
    var full := st + [g] + vs;
    assert full[..|st|] == st && full[|st| + 1..] == vs && full[|st|] == g;
  }

  lemma DoCallMethod(h: Host, F: Func, c: Config, pc: nat, st: seq<Value>, o: Value, g: Value, vs: seq<Value>, env: Env)
    requires pc < |F.code| && F.code[pc] == Instr(CallMethod, |vs|, 0)
    requires Reaches(h, F, c, At(F, pc, st + [o] + [g] + vs, env))
    ensures Reaches(h, F, c, Landing(F, pc + 1, st, Lift(h.call(g, Some(o), vs, env.world), env)))
  {
    Then(h, F, c, At(F, pc, st + [o] + [g] + vs, env).s);
    var full := st + [o] + [g] + vs;
    assert full[..|st|] == st && full[|st| + 2..] == vs && full[|st| + 1] == g && full[|st|] == o;
  }

  /** A constant load leaves the constant, whether its pool entry was found or added. */
  lemma DoConst(h: Host, F: Func, c: Config, f: Func, r: Func, v: Value, st: seq<Value>, env: Env)
    requires r == EmitShared(f, Const, v) || r == EmitFresh(f, v)
    requires Covers(F, r, |f.code|)
    requires Reaches(h, F, c, At(F, |f.code|, st, env))
    ensures Reaches(h, F, c, At(F, |r.code|, st + [v], env))
  {
    Then(h, F, c, At(F, |f.code|, st, env).s);
    assert F.code[|f.code|] == r.code[|f.code|];
    assert F.constants[r.code[|f.code|].a] == v;
  }

  lemma ScopeIndex(F: Func, f: Func, x: string)
    requires PoolGrows(f, F)
    ensures IndexOf(f.locals, x) < |f.locals| <==> x in f.locals
    ensures x in f.locals ==> F.locals[IndexOf(f.locals, x)] == x
  {
    IndexOfFirst(f.locals, x);
  }

  lemma DoLoadGlobal(h: Host, F: Func, c: Config, f: Func, x: string, st: seq<Value>, env: Env)
    requires Covers(F, EmitShared(f, LoadGlobal, Str(x)), |f.code|)
    requires Reaches(h, F, c, At(F, |f.code|, st, env))
    ensures Reaches(h, F, c, Landing(F, |EmitShared(f, LoadGlobal, Str(x)).code|, st, Read(h, x, [], env)))
  {
    var r := EmitShared(f, LoadGlobal, Str(x));
    assert F.code[|f.code|] == r.code[|f.code|];
    Then(h, F, c, At(F, |f.code|, st, env).s);
    assert F.constants[IndexOf(f.constants, Str(x))] == Str(x);
    var (v, w) := Values.LoadGlobal(h, x, env.world);
    assert Slots(F.locals, env) == Slots(F.locals, env.(world := w));
  }

  lemma DoLoad(h: Host, F: Func, c: Config, f: Func, x: string, st: seq<Value>, env: Env)
    requires Covers(F, EmitLoad(f, x), |f.code|)
    requires Reaches(h, F, c, At(F, |f.code|, st, env))
    ensures Reaches(h, F, c, Landing(F, |EmitLoad(f, x).code|, st, Read(h, x, f.locals, env)))
  {
    ScopeIndex(F, f, x);
    var r := EmitLoad(f, x);
    assert F.code[|f.code|] == r.code[|f.code|];
    Then(h, F, c, At(F, |f.code|, st, env).s);
    if x !in f.locals { DoLoadGlobal(h, F, c, f, x, st, env); }
  }

  /** Writing a local name writes its slot and no other. */
  lemma SlotsUpdate(names: seq<string>, k: nat, v: Value, env: Env)
    requires k < |names| && Distinct(names)
    ensures Slots(names, env)[k := v] == Slots(names, env.(locals := env.locals[names[k] := v]))
  {
  }

  lemma DoStoreLocal(h: Host, F: Func, c: Config, pc: nat, st: seq<Value>, v: Value, env: Env)
    requires pc < |F.code| && F.code[pc].op == StoreLocal && F.code[pc].a < |F.locals| && Distinct(F.locals)
    requires Reaches(h, F, c, At(F, pc, st + [v], env))
    ensures Reaches(h, F, c, At(F, pc + 1, st + [v], env.(locals := env.locals[F.locals[F.code[pc].a] := v])))
  {
    Then(h, F, c, At(F, pc, st + [v], env).s);
    SlotsUpdate(F.locals, F.code[pc].a, v, env);
  }

  lemma DoStore(h: Host, F: Func, c: Config, f: Func, x: string, st: seq<Value>, v: Value, env: Env)
    requires Covers(F, EmitStore(f, x), |f.code|)
    requires Reaches(h, F, c, At(F, |f.code|, st + [v], env))
    ensures Reaches(h, F, c, At(F, |EmitStore(f, x).code|, st + [v], Write(x, v, f.locals, env)))
  {
    hide Reaches;
    ScopeIndex(F, f, x);
    var r, n := EmitStore(f, x), |f.code|;
    if x in f.locals {
      assert forall i :: n <= i < n + 3 ==> F.code[i] == r.code[i];
      DoDup(h, F, c, n, st, v, env);
      DoStoreLocal(h, F, c, n + 1, st + [v], v, env);
      DoDrop(h, F, c, n + 2, st + [v], v, Write(x, v, f.locals, env));
    } else {
      assert F.code[n] == r.code[n];
      assert F.constants[IndexOf(f.constants, Str(x))] == Str(x);
      Then(h, F, c, At(F, n, st + [v], env).s);
      assert Slots(F.locals, env) == Slots(F.locals, Write(x, v, f.locals, env));
    }
  }

  // ---- expressions ----

  /** Expression compilation preserves meaning in any context: the code for `e`, inside any finished function and
      started with any operand stack, leaves the reference value on top, the rest of the stack untouched, and the
      reference effect on locals and globals; or it ends the run as the reference says. */
  lemma {:induction false} SimExpr(h: Host, F: Func, c: Config, e: Expr, f: Func, st: seq<Value>, env: Env)
    requires Covers(F, CompileExpr(h.number, e, f), |f.code|)
    requires Reaches(h, F, c, At(F, |f.code|, st, env))
    ensures Reaches(h, F, c, Landing(F, |CompileExpr(h.number, e, f).code|, st, EvalExpr(h, e, f.locals, env)))
    decreases e, 1
  {
    ExprGrows(h.number, e, f);
    match e
    case Lit(lit) => DoConst(h, F, c, f, EmitLiteral(h.number, f, lit), LiteralValue(h.number, lit), st, env);
    case Name(x) => DoLoad(h, F, c, f, x, st, env);
    case Global(x) => DoLoadGlobal(h, F, c, f, x, st, env);
    case Assign(x, e1) => SimAssign(h, F, c, e, f, st, env);
    case Update(_, _, _) => SimUpdate(h, F, c, e, f, st, env);
    case Sequence(_, _) => SimSequence(h, F, c, e, f, st, env);
    case Cond(_, _, _) => SimCond(h, F, c, e, f, st, env);
    case Binop(_, _, _) => SimBinop(h, F, c, e, f, st, env);
    case Unop(op, e1) =>
      ExprGrows(h.number, e1, f);
      SimExpr(h, F, c, e1, f, st, env);
      match EvalExpr(h, e1, f.locals, env) {
      case Stop(_) =>
      case Val(v, env1) => DoOp1(h, F, c, CompileExpr(h.number, e1, f), op, st, v, env1);
      }
    case Apply(_, _) => SimApply(h, F, c, e, f, st, env);
    case Invoke(_, _, _) => SimInvoke(h, F, c, e, f, st, env);
  }

  lemma {:induction false} SimAssign(h: Host, F: Func, c: Config, e: Expr, f: Func, st: seq<Value>, env: Env)
    requires e.Assign? && Covers(F, CompileExpr(h.number, e, f), |f.code|)
    requires Reaches(h, F, c, At(F, |f.code|, st, env))
    ensures Reaches(h, F, c, Landing(F, |CompileExpr(h.number, e, f).code|, st, EvalExpr(h, e, f.locals, env)))
    decreases e, 0
  {
    ExprGrows(h.number, e.e, f);
    SimExpr(h, F, c, e.e, f, st, env);
    match EvalExpr(h, e.e, f.locals, env) {
    case Stop(_) =>
    case Val(v, env1) => DoStore(h, F, c, CompileExpr(h.number, e.e, f), e.x, st, v, env1);
    }
  }

  lemma {:induction false} SimUpdate(h: Host, F: Func, c: Config, e: Expr, f: Func, st: seq<Value>, env: Env)
    requires e.Update? && Covers(F, CompileExpr(h.number, e, f), |f.code|)
    requires Reaches(h, F, c, At(F, |f.code|, st, env))
    ensures Reaches(h, F, c, Landing(F, |CompileExpr(h.number, e, f).code|, st, EvalExpr(h, e, f.locals, env)))
    decreases e, 0
  {
    var f1, f2 := UpdateCovered(h.number, F, e, f);
    hide CompileExpr, Covers, Reaches, Slots, EmitLoad, EmitStore;
    DoLoad(h, F, c, f, e.x, st, env);
    var Val(a, env1) := Read(h, e.x, f.locals, env);
    SimExpr(h, F, c, e.e, f1, st + [a], env1);
    match EvalExpr(h, e.e, f.locals, env1) {
    case Stop(_) =>
    case Val(b, env2) =>
      DoOp2(h, F, c, |f2.code|, Infix(e.bop), st, a, b, env2);
      match Lift(Binary(h, e.bop, a, b, env2.world), env2) {
      case Stop(_) =>
      case Val(v, env3) => DoStore(h, F, c, Emit(f2, Bin(e.bop), 0), e.x, st, v, env3);
      }
    }
  }

  lemma UpdateCovered(num: Grammar.Numbers, F: Func, e: Expr, f: Func) returns (f1: Func, f2: Func)
    requires e.Update? && Covers(F, CompileExpr(num, e, f), |f.code|)
    ensures f1 == EmitLoad(f, e.x) && Covers(F, f1, |f.code|) && f1.locals == f.locals
    ensures f2 == CompileExpr(num, e.e, f1) && Covers(F, f2, |f1.code|) && f2.locals == f.locals
    ensures CompileExpr(num, e, f) == EmitStore(Emit(f2, Bin(e.bop), 0), e.x)
    ensures Covers(F, CompileExpr(num, e, f), |f2.code| + 1)
    ensures |f2.code| < |F.code| && F.code[|f2.code|] == Instr(Bin(e.bop), 0, 0)
  {
    f1 := EmitLoad(f, e.x);
    f2 := CompileExpr(num, e.e, f1);
    assert CompileExpr(num, e, f) == EmitStore(Emit(f2, Bin(e.bop), 0), e.x);
    hide CompileExpr;
    ExprGrows(num, e.e, f1);
  }

  lemma {:induction false} SimSequence(h: Host, F: Func, c: Config, e: Expr, f: Func, st: seq<Value>, env: Env)
    requires e.Sequence? && Covers(F, CompileExpr(h.number, e, f), |f.code|)
    requires Reaches(h, F, c, At(F, |f.code|, st, env))
    ensures Reaches(h, F, c, Landing(F, |CompileExpr(h.number, e, f).code|, st, EvalExpr(h, e, f.locals, env)))
    decreases e, 0
  {
    var f1 := CompileExpr(h.number, e.l, f);
    ExprGrows(h.number, e.l, f);
    ExprGrows(h.number, e.r, Emit(f1, Drop, 0));
    SimExpr(h, F, c, e.l, f, st, env);
    match EvalExpr(h, e.l, f.locals, env) {
    case Stop(_) =>
    case Val(v, env1) =>
      DoDrop(h, F, c, |f1.code|, st, v, env1);
      SimExpr(h, F, c, e.r, Emit(f1, Drop, 0), st, env1);
    }
  }

  lemma {:induction false} SimCond(h: Host, F: Func, c: Config, e: Expr, f: Func, st: seq<Value>, env: Env)
    requires e.Cond? && Covers(F, CompileExpr(h.number, e, f), |f.code|)
    requires Reaches(h, F, c, At(F, |f.code|, st, env))
    ensures Reaches(h, F, c, Landing(F, |CompileExpr(h.number, e, f).code|, st, EvalExpr(h, e, f.locals, env)))
    decreases e, 0
  {
    var f1, f2, f3, f4 := CondCovered(h.number, F, e, f);
    hide CompileExpr, Covers, Reaches, Slots;
    SimExpr(h, F, c, e.c, f, st, env);
    match EvalExpr(h, e.c, f.locals, env) {
    case Stop(_) =>
    case Val(v, env1) =>
      DoBranch(h, F, c, |f1.code|, st, v, env1);
      if Truthy(h, v) {
        SimExpr(h, F, c, e.t, Emit(f1, JumpIfFalse, 0), st, env1);
        match EvalExpr(h, e.t, f.locals, env1) {
        case Stop(_) =>
        case Val(u, env2) => DoJump(h, F, c, |f2.code|, st + [u], env2);
        }
      } else {
        SimExpr(h, F, c, e.f, f3, st, env1);
      }
    }
  }

  /** The parts of a conditional, as they stand in a finished function. */
  lemma CondCovered(num: Grammar.Numbers, F: Func, e: Expr, f: Func) returns (f1: Func, f2: Func, f3: Func, f4: Func)
    requires e.Cond? && Covers(F, CompileExpr(num, e, f), |f.code|)
    ensures f1 == CompileExpr(num, e.c, f) && Covers(F, f1, |f.code|)
    ensures f2 == CompileExpr(num, e.t, Emit(f1, JumpIfFalse, 0)) && Covers(F, f2, |f1.code| + 1)
    ensures f3 == Patch(Emit(f2, Jump, 0), |f1.code|) && |f3.code| == |f2.code| + 1
    ensures f4 == CompileExpr(num, e.f, f3) && Covers(F, f4, |f3.code|)
    ensures |CompileExpr(num, e, f).code| == |f4.code|
    ensures |f1.code| < |f2.code| < |F.code|
    ensures F.code[|f1.code|] == Instr(JumpIfFalse, |f3.code|, 0) && F.code[|f2.code|] == Instr(Jump, |f4.code|, 0)
  {
    f1 := CompileExpr(num, e.c, f);
    f2 := CompileExpr(num, e.t, Emit(f1, JumpIfFalse, 0));
    f3 := Patch(Emit(f2, Jump, 0), |f1.code|);
    f4 := CompileExpr(num, e.f, f3);
    assert CompileExpr(num, e, f) == Patch(f4, |f2.code|);
    hide CompileExpr, Covers, Grows, Patch;
    ExprGrows(num, e.c, f);
    ExprGrows(num, e.t, Emit(f1, JumpIfFalse, 0));
    ExprGrows(num, e.f, f3);
    BranchesCovered(F, f, f1, f2, f4);
  }

  /** A test, a branch, and the other branch, with their jumps patched. */
  lemma BranchesCovered(F: Func, f: Func, f1: Func, f2: Func, f4: Func)
    requires Grows(f, f1) && Grows(Emit(f1, JumpIfFalse, 0), f2) && Grows(Patch(Emit(f2, Jump, 0), |f1.code|), f4)
    requires Covers(F, Patch(f4, |f2.code|), |f.code|)
    ensures Covers(F, f1, |f.code|) && Covers(F, f2, |f1.code| + 1) && Covers(F, f4, |f2.code| + 1)
    ensures |f1.code| < |f2.code| < |f4.code| && |f2.code| < |F.code|
    ensures |Patch(Emit(f2, Jump, 0), |f1.code|).code| == |f2.code| + 1 && |Patch(f4, |f2.code|).code| == |f4.code|
    ensures F.code[|f1.code|] == Instr(JumpIfFalse, |f2.code| + 1, 0) && F.code[|f2.code|] == Instr(Jump, |f4.code|, 0)
  {
    var f3, r := Patch(Emit(f2, Jump, 0), |f1.code|), Patch(f4, |f2.code|);
    assert f2.code[|f1.code|] == Emit(f1, JumpIfFalse, 0).code[|f1.code|] == Instr(JumpIfFalse, 0, 0);
    assert r.code[|f1.code|] == f4.code[|f1.code|] == f3.code[|f1.code|];
    assert f4.code[|f2.code|] == f3.code[|f2.code|];
    forall i | 0 <= i < |f1.code| ensures r.code[i] == f1.code[i] {
      assert f2.code[i] == Emit(f1, JumpIfFalse, 0).code[i];
      assert f4.code[i] == f3.code[i];
    }
    forall i | |f1.code| < i < |f2.code| ensures r.code[i] == f2.code[i] {
      assert f4.code[i] == f3.code[i];
    }
  }

  /** A test and one branch. */
  lemma BranchCovered(F: Func, f: Func, f1: Func, f2: Func)
    requires Grows(f, f1) && Grows(Emit(f1, JumpIfFalse, 0), f2) && Covers(F, Patch(f2, |f1.code|), |f.code|)
    ensures Covers(F, f1, |f.code|) && Covers(F, f2, |f1.code| + 1)
    ensures |f1.code| < |f2.code| <= |F.code| && |Patch(f2, |f1.code|).code| == |f2.code|
    ensures F.code[|f1.code|] == Instr(JumpIfFalse, |f2.code|, 0)
  {
    var r := Patch(f2, |f1.code|);
    assert f2.code[|f1.code|] == Emit(f1, JumpIfFalse, 0).code[|f1.code|] == Instr(JumpIfFalse, 0, 0);
    assert F.code[|f1.code|] == r.code[|f1.code|];
    forall i | 0 <= i < |f1.code| ensures r.code[i] == f1.code[i] {
      assert f2.code[i] == Emit(f1, JumpIfFalse, 0).code[i];
    }
  }

  lemma {:induction false} SimBinop(h: Host, F: Func, c: Config, e: Expr, f: Func, st: seq<Value>, env: Env)
    requires e.Binop? && Covers(F, CompileExpr(h.number, e, f), |f.code|)
    requires Reaches(h, F, c, At(F, |f.code|, st, env))
    ensures Reaches(h, F, c, Landing(F, |CompileExpr(h.number, e, f).code|, st, EvalExpr(h, e, f.locals, env)))
    decreases e, 0
  {
    var f1 := CompileExpr(h.number, e.l, f);
    ExprGrows(h.number, e.l, f);
    ExprGrows(h.number, e.r, f1);
    SimExpr(h, F, c, e.l, f, st, env);
    match EvalExpr(h, e.l, f.locals, env) {
    case Stop(_) =>
    case Val(a, env1) =>
      SimExpr(h, F, c, e.r, f1, st + [a], env1);
      match EvalExpr(h, e.r, f.locals, env1) {
      case Stop(_) =>
      case Val(b, env2) => DoOp2(h, F, c, |CompileExpr(h.number, e.r, f1).code|, e.op2, st, a, b, env2);
      }
    }
  }

  lemma {:induction false} SimApply(h: Host, F: Func, c: Config, e: Expr, f: Func, st: seq<Value>, env: Env)
    requires e.Apply? && Covers(F, CompileExpr(h.number, e, f), |f.code|)
    requires Reaches(h, F, c, At(F, |f.code|, st, env))
    ensures Reaches(h, F, c, Landing(F, |CompileExpr(h.number, e, f).code|, st, EvalExpr(h, e, f.locals, env)))
    decreases e, 0
  {
    var f1 := CompileExpr(h.number, e.fn, f);
    ExprGrows(h.number, e.fn, f);
    ArgsGrow(h.number, e.args, f1);
    SimExpr(h, F, c, e.fn, f, st, env);
    match EvalExpr(h, e.fn, f.locals, env) {
    case Stop(_) =>
    case Val(g, env1) =>
      SimArgs(h, F, c, e.args, f1, st + [g], env1);
      match EvalAll(h, e.args, f.locals, env1) {
      case StopArgs(_) =>
      case Vals(vs, env2) => DoCall(h, F, c, |CompileArgs(h.number, e.args, f1).code|, st, g, vs, env2);
      }
    }
  }

  lemma {:induction false} SimInvoke(h: Host, F: Func, c: Config, e: Expr, f: Func, st: seq<Value>, env: Env)
    requires e.Invoke? && Covers(F, CompileExpr(h.number, e, f), |f.code|)
    requires Reaches(h, F, c, At(F, |f.code|, st, env))
    ensures Reaches(h, F, c, Landing(F, |CompileExpr(h.number, e, f).code|, st, EvalExpr(h, e, f.locals, env)))
    decreases e, 0
  {
    var f1, f3, f4 := InvokeCovered(h.number, F, e, f);
    hide CompileExpr, CompileArgs, Covers, Reaches, Slots, EvalAll;
    SimExpr(h, F, c, e.o, f, st, env);
    match EvalExpr(h, e.o, f.locals, env) {
    case Stop(_) =>
    case Val(v, env1) =>
      DoMethod(h, F, c, f1, e.name, st, v, env1);
      match Lift(h.getProp(v, Str(e.name), env1.world), env1) {
      case Stop(_) =>
      case Val(g, env2) =>
        SimArgs(h, F, c, e.args, f3, st + [v] + [g], env2);
        match EvalAll(h, e.args, f.locals, env2) {
        case StopArgs(_) =>
        case Vals(vs, env3) => DoCallMethod(h, F, c, |f4.code|, st, v, g, vs, env3);
        }
      }
    }
  }

  /** The receiver below its method. */
  function Method(f1: Func, name: string): Func {
    Emit(EmitShared(Emit(f1, Dup, 0), Const, Str(name)), GetProp, 0)
  }

  lemma InvokeCovered(num: Grammar.Numbers, F: Func, e: Expr, f: Func) returns (f1: Func, f3: Func, f4: Func)
    requires e.Invoke? && Covers(F, CompileExpr(num, e, f), |f.code|)
    ensures f1 == CompileExpr(num, e.o, f) && Covers(F, f1, |f.code|)
    ensures f3 == Method(f1, e.name) && Covers(F, f3, |f1.code|) && f3.locals == f.locals
    ensures f4 == CompileArgs(num, e.args, f3) && Covers(F, f4, |f3.code|)
    ensures |CompileExpr(num, e, f).code| == |f4.code| + 1
    ensures |f4.code| < |F.code| && F.code[|f4.code|] == Instr(CallMethod, Count(e.args), 0)
  {
    f1 := CompileExpr(num, e.o, f);
    f3 := Method(f1, e.name);
    f4 := CompileArgs(num, e.args, f3);
    assert CompileExpr(num, e, f) == Emit(f4, CallMethod, Count(e.args));
    hide CompileExpr, CompileArgs;
    ExprGrows(num, e.o, f);
    ArgsGrow(num, e.args, f3);
  }

  lemma DoMethod(h: Host, F: Func, c: Config, f1: Func, name: string, st: seq<Value>, v: Value, env: Env)
    requires Covers(F, Method(f1, name), |f1.code|)
    requires Reaches(h, F, c, At(F, |f1.code|, st + [v], env))
    ensures Reaches(h, F, c, Landing(F, |Method(f1, name).code|, st + [v], Lift(h.getProp(v, Str(name), env.world), env)))
  {
    hide Reaches, Slots;
    var f2 := EmitShared(Emit(f1, Dup, 0), Const, Str(name));
    assert F.code[|f1.code|] == Method(f1, name).code[|f1.code|];
    assert F.code[|f2.code|] == Method(f1, name).code[|f2.code|];
    DoDup(h, F, c, |f1.code|, st, v, env);
    DoConst(h, F, c, Emit(f1, Dup, 0), f2, Str(name), st + [v] + [v], env);
    DoGet(h, F, c, |f2.code|, st + [v], v, Str(name), env);
  }

  lemma {:induction false} SimArgs(h: Host, F: Func, c: Config, args: Args, f: Func, st: seq<Value>, env: Env)
    requires Covers(F, CompileArgs(h.number, args, f), |f.code|)
    requires Reaches(h, F, c, At(F, |f.code|, st, env))
    ensures var r := EvalAll(h, args, f.locals, env);
      && (r.Vals? ==> |r.vs| == Count(args)
                      && Reaches(h, F, c, At(F, |CompileArgs(h.number, args, f).code|, st + r.vs, r.env)))
      && (r.StopArgs? ==> Reaches(h, F, c, Halted(r.fin)))
    decreases args, 0
  {
    match args
    case NoArgs => assert st + [] == st;
    case Snoc(init, last) =>
      var f1 := CompileArgs(h.number, init, f);
      ArgsGrow(h.number, init, f);
      ExprGrows(h.number, last, f1);
      SimArgs(h, F, c, init, f, st, env);
      match EvalAll(h, init, f.locals, env) {
      case StopArgs(_) =>
      case Vals(vs, env1) =>
        SimExpr(h, F, c, last, f1, st + vs, env1);
        match EvalExpr(h, last, f.locals, env1) {
        case Stop(_) =>
        case Val(v, env2) => assert st + vs + [v] == st + (vs + [v]);
        }
      }
  }
}
