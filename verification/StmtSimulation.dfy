/** Statement compilation preserves meaning, ends and divergence included. */
module StmtSimulation {
  import opened Values
  import opened Bytecode
  import opened Syntax
  import opened Machine
  import opened CodeGen
  import opened Reference
  import opened Simulation
  import Grammar
  import Texts
  import Updates
  import UpdateForms

  // ---- compilation only appends, and declares the names the text declares ----

  lemma TextGrows(num: Grammar.Numbers, text: string, f: Func)
    requires CompileText(num, text, f).Some?
    ensures Grows(f, CompileText(num, text, f).value) && CompileText(num, text, f).value.locals == f.locals
  {
    ExprGrows(num, Grammar.Full(num, f.locals, text).value, f);
  }

  lemma {:induction false} StmtGrows(num: Grammar.Numbers, s: Stmt, f: Func)
    requires CompileStmt(num, s, f).Some?
    ensures Grows(f, CompileStmt(num, s, f).value)
    ensures CompileStmt(num, s, f).value.locals == ScopeAfter(s, f.locals)
    decreases s, 1
  {
    match s
    case Var(_) =>
    case VarInit(name, text) => TextGrows(num, text, f.(locals := Declare(f.locals, name)));
    case ReturnVoid =>
    case ReturnText(text) => TextGrows(num, text, f);
    case ExprStmt(text) => TextGrows(num, text, f);
    case If(_, _, _) => IfGrows(num, s, f);
    case For(init, _, _, _) =>
      if init.None? {
        LoopGrows(num, s, f);
      } else {
        StmtGrows(num, init.value, f);
        LoopGrows(num, s, CompileStmt(num, init.value, f).value);
      }
  }

  lemma {:induction false} IfGrows(num: Grammar.Numbers, s: Stmt, f: Func)
    requires s.If? && CompileStmt(num, s, f).Some?
    ensures Grows(f, CompileStmt(num, s, f).value)
    ensures CompileStmt(num, s, f).value.locals == ScopeAfter(s, f.locals)
    decreases s, 0
  {
    TextGrows(num, s.cond, f);
    var f1 := CompileText(num, s.cond, f).value;
    StmtsGrow(num, s.thn, Emit(f1, JumpIfFalse, 0));
    if s.els.Else? {
      var f2 := CompileStmts(num, s.thn, Emit(f1, JumpIfFalse, 0)).value;
      StmtsGrow(num, s.els.body, Patch(Emit(f2, Jump, 0), |f1.code|));
    }
  }

  lemma {:induction false} LoopGrows(num: Grammar.Numbers, s: Stmt, f: Func)
    requires s.For? && CompileLoop(num, s, f).Some?
    ensures Grows(f, CompileLoop(num, s, f).value)
    ensures CompileLoop(num, s, f).value.locals == ScopeAfterAll(s.body, f.locals)
    decreases s, 0
  {
    var f1 := (if s.test.None? then Some(f) else CompileText(num, s.test.value, f)).value;
    if s.test.Some? { TextGrows(num, s.test.value, f); }
    var g1 := if s.test.None? then f1 else Emit(f1, JumpIfFalse, 0);
    StmtsGrow(num, s.body, g1);
    var f2 := CompileStmts(num, s.body, g1).value;
    if s.update.Some? { UpdateTextGrows(num, s.update.value, f2); }
  }

  lemma UpdateTextGrows(num: Grammar.Numbers, update: string, f: Func)
    requires CompileUpdate(num, update, f).Some?
    ensures Grows(f, CompileUpdate(num, update, f).value) && CompileUpdate(num, update, f).value.locals == f.locals
  {
    if IncrementForm(update, f.locals).None? { TextGrows(num, Texts.Trim(update), f); }
  }

  lemma {:induction false} StmtsGrow(num: Grammar.Numbers, ss: seq<Stmt>, f: Func)
    requires CompileStmts(num, ss, f).Some?
    ensures Grows(f, CompileStmts(num, ss, f).value)
    ensures CompileStmts(num, ss, f).value.locals == ScopeAfterAll(ss, f.locals)
    decreases ss, 0
  {
    if ss != [] {
      StmtGrows(num, ss[0], f);
      StmtsGrow(num, ss[1..], CompileStmt(num, ss[0], f).value);
    }
  }

  // ---- simulation ----

  /** The run from `c` does what `x` says: it goes on at `pc` in the new environment, it ends as `x` ends,
      or, when the loops used up `fuel` rounds, it is still running after `fuel` instructions. */
  ghost predicate Follows(h: Host, F: Func, c: Config, pc: nat, st: seq<Value>, x: Exit, fuel: nat) {
    match x
    case Next(env) => Reaches(h, F, c, At(F, pc, st, env))
    case Done(fin) => Reaches(h, F, c, Halted(fin))
    case NoFuel => Survives(h, F, c, fuel)
  }

  lemma SimText(h: Host, F: Func, c: Config, text: string, f: Func, st: seq<Value>, env: Env)
    requires CompileText(h.number, text, f).Some?
    requires Covers(F, CompileText(h.number, text, f).value, |f.code|)
    requires Reaches(h, F, c, At(F, |f.code|, st, env))
    ensures Reaches(h, F, c, Landing(F, |CompileText(h.number, text, f).value.code|, st, EvalText(h, text, f.locals, env)))
  {
    SimExpr(h, F, c, Grammar.Full(h.number, f.locals, text).value, f, st, env);
  }

  lemma SimDropped(h: Host, F: Func, c: Config, text: string, f: Func, st: seq<Value>, env: Env, fuel: nat)
    requires CompileDropped(h.number, text, f).Some?
    requires Covers(F, CompileDropped(h.number, text, f).value, |f.code|)
    requires Reaches(h, F, c, At(F, |f.code|, st, env))
    ensures Follows(h, F, c, |CompileDropped(h.number, text, f).value.code|, st, Discard(EvalText(h, text, f.locals, env)), fuel)
  {
    TextGrows(h.number, text, f);
    SimText(h, F, c, text, f, st, env);
    match EvalText(h, text, f.locals, env)
    case Stop(_) =>
    case Val(v, env1) => DoDrop(h, F, c, |CompileText(h.number, text, f).value.code|, st, v, env1);
  }

  lemma DoReturn(h: Host, F: Func, c: Config, pc: nat, st: seq<Value>, v: Value, env: Env)
    requires pc < |F.code| && F.code[pc].op == Return
    requires Reaches(h, F, c, At(F, pc, st + [v], env))
    ensures Reaches(h, F, c, Halted(Returned(v, env.world)))
  {
    Then(h, F, c, At(F, pc, st + [v], env).s);
  }

  /** What an update means, told by the form in which the compiler recognises it. */
  lemma UpdateMeans(h: Host, update: string, scope: seq<string>, env: Env)
    ensures EvalUpdate(h, update, scope, env) ==
      match IncrementForm(update, scope)
      case Some((slot, amount)) => Bumped(h, scope[slot], amount, env)
      case None => Discard(EvalText(h, Texts.Trim(update), scope, env))
  {
    hide IncrementForm, EvalText, Bumped;
    if b :| Updates.Spells(update, b) && b.x in scope {
      IndexOfFirst(scope, b.x);
      UpdateForms.Recognised(update, b, scope);
      forall c | Updates.Spells(update, c) && c.x in scope
        ensures IncrementForm(update, scope) == Some((IndexOf(scope, c.x), Wrap32(Updates.Amount(c))))
      {
        IndexOfFirst(scope, c.x);
        UpdateForms.Recognised(update, c, scope);
      }
    } else if IncrementForm(update, scope).Some? {
      var b := UpdateForms.WhatIsRecognised(update, scope);
    }
  }

  lemma SimUpdateText(h: Host, F: Func, c: Config, update: string, f: Func, st: seq<Value>, env: Env, fuel: nat)
    requires CompileUpdate(h.number, update, f).Some?
    requires Covers(F, CompileUpdate(h.number, update, f).value, |f.code|)
    requires Reaches(h, F, c, At(F, |f.code|, st, env))
    ensures Follows(h, F, c, |CompileUpdate(h.number, update, f).value.code|, st, EvalUpdate(h, update, f.locals, env), fuel)
  {
    UpdateMeans(h, update, f.locals, env);
    hide EvalUpdate, IncrementForm, EvalText, CompileText, Reaches;
    match IncrementForm(update, f.locals)
    case None => SimDropped(h, F, c, Texts.Trim(update), f, st, env, fuel);
    case Some((slot, amount)) =>
      assert F.code[|f.code|] == CompileUpdate(h.number, update, f).value.code[|f.code|];
      DoIncrement(h, F, c, |f.code|, slot, amount, st, env, fuel);
  }

  lemma DoIncrement(h: Host, F: Func, c: Config, pc: nat, slot: nat, amount: i32, st: seq<Value>, env: Env, fuel: nat)
    requires pc < |F.code| && F.code[pc] == Instr(IncLocal, slot, amount) && slot < |F.locals| && Distinct(F.locals)
    requires Reaches(h, F, c, At(F, pc, st, env))
    ensures Follows(h, F, c, pc + 1, st, Bumped(h, F.locals[slot], amount, env), fuel)
  {
    hide Reaches, Increment;
    Then(h, F, c, At(F, pc, st, env).s);
    match Increment(h, Lookup(env, F.locals[slot]), amount, env.world)
    case Ok(v, w) =>
      SlotsUpdate(F.locals, slot, v, env.(world := w));
      assert Slots(F.locals, env.(world := w)) == Slots(F.locals, env);
    case Throw(_, _) =>
    case Panic =>
  }

  lemma {:induction false} SimStmt(h: Host, F: Func, c: Config, s: Stmt, f: Func, st: seq<Value>, env: Env, fuel: nat)
    requires CompileStmt(h.number, s, f).Some?
    requires Covers(F, CompileStmt(h.number, s, f).value, |f.code|)
    requires Reaches(h, F, c, At(F, |f.code|, st, env))
    ensures Follows(h, F, c, |CompileStmt(h.number, s, f).value.code|, st, EvalStmt(h, s, f.locals, env, fuel), fuel)
    decreases fuel, s, 4
  {
    hide Reaches, Slots, CompileText, EvalText, CompileLoop, EvalLoop, Covers;
    match s
    case Var(_) =>
    case VarInit(name, text) => SimVarInit(h, F, c, s, f, st, env, fuel);
    case ReturnVoid => SimReturnVoid(h, F, c, f, st, env);
    case ReturnText(text) => SimReturnText(h, F, c, text, f, st, env, fuel);
    case ExprStmt(text) => SimDropped(h, F, c, text, f, st, env, fuel);
    case If(_, _, _) => SimIf(h, F, c, s, f, st, env, fuel);
    case For(init, _, _, _) =>
      if init.None? { SimLoop(h, F, c, s, f, st, env, fuel); } else { SimFor(h, F, c, s, f, st, env, fuel); }
  }

  lemma SimReturnVoid(h: Host, F: Func, c: Config, f: Func, st: seq<Value>, env: Env)
    requires Covers(F, Emit(EmitShared(f, Const, Undefined), Return, 0), |f.code|)
    requires Reaches(h, F, c, At(F, |f.code|, st, env))
    ensures Reaches(h, F, c, Halted(Returned(Undefined, env.world)))
  {
    hide Reaches, Slots;
    assert F.code[|f.code| + 1] == Emit(EmitShared(f, Const, Undefined), Return, 0).code[|f.code| + 1];
    DoConst(h, F, c, f, EmitShared(f, Const, Undefined), Undefined, st, env);
    DoReturn(h, F, c, |f.code| + 1, st, Undefined, env);
  }

  lemma SimReturnText(h: Host, F: Func, c: Config, text: string, f: Func, st: seq<Value>, env: Env, fuel: nat)
    requires CompileText(h.number, text, f).Some?
    requires Covers(F, Emit(CompileText(h.number, text, f).value, Return, 0), |f.code|)
    requires Reaches(h, F, c, At(F, |f.code|, st, env))
    ensures match EvalText(h, text, f.locals, env)
      case Stop(fin) => Reaches(h, F, c, Halted(fin))
      case Val(v, env1) => Reaches(h, F, c, Halted(Returned(v, env1.world)))
  {
    hide Reaches, Slots, CompileText, EvalText;
    TextGrows(h.number, text, f);
    SimText(h, F, c, text, f, st, env);
    match EvalText(h, text, f.locals, env)
    case Stop(_) =>
    case Val(v, env1) => DoReturn(h, F, c, |CompileText(h.number, text, f).value.code|, st, v, env1);
  }

  /** A loop after its head. */
  lemma {:induction false} SimFor(h: Host, F: Func, c: Config, s: Stmt, f: Func, st: seq<Value>, env: Env, fuel: nat)
    requires s.For? && s.init.Some? && CompileStmt(h.number, s, f).Some?
    requires Covers(F, CompileStmt(h.number, s, f).value, |f.code|)
    requires Reaches(h, F, c, At(F, |f.code|, st, env))
    ensures Follows(h, F, c, |CompileStmt(h.number, s, f).value.code|, st, EvalStmt(h, s, f.locals, env, fuel), fuel)
    decreases fuel, s, 3
  {
    hide Reaches, Slots, CompileText, EvalText, CompileLoop, EvalLoop;
    var f0 := CompileStmt(h.number, s.init.value, f).value;
    StmtGrows(h.number, s.init.value, f);
    LoopGrows(h.number, s, f0);
    SimStmt(h, F, c, s.init.value, f, st, env, fuel);
    match EvalStmt(h, s.init.value, f.locals, env, fuel)
    case Next(env1) => SimLoop(h, F, c, s, f0, st, env1, fuel);
    case Done(_) =>
    case NoFuel =>
  }

  lemma SimVarInit(h: Host, F: Func, c: Config, s: Stmt, f: Func, st: seq<Value>, env: Env, fuel: nat)
    requires s.VarInit? && CompileStmt(h.number, s, f).Some?
    requires Covers(F, CompileStmt(h.number, s, f).value, |f.code|)
    requires Reaches(h, F, c, At(F, |f.code|, st, env))
    ensures Follows(h, F, c, |CompileStmt(h.number, s, f).value.code|, st, EvalStmt(h, s, f.locals, env, fuel), fuel)
  {
    hide Reaches, Slots, CompileText, EvalText;
    var g := f.(locals := Declare(f.locals, s.name));
    var f1 := CompileText(h.number, s.text, g).value;
    TextGrows(h.number, s.text, g);
    SimText(h, F, c, s.text, g, st, env);
    match EvalText(h, s.text, g.locals, env)
    case Stop(_) =>
    case Val(v, env1) =>
      var n := |f1.code|;
      var slot := IndexOf(f.locals, s.name);
      assert F.locals[slot] == g.locals[slot] == s.name;
      assert F.code[n] == Instr(StoreLocal, slot, 0) && F.code[n + 1] == Instr(Drop, 0, 0);
      DoStoreLocal(h, F, c, n, st, v, env1);
      DoDrop(h, F, c, n + 1, st, v, env1.(locals := env1.locals[s.name := v]));
  }

  lemma {:induction false} SimIf(h: Host, F: Func, c: Config, s: Stmt, f: Func, st: seq<Value>, env: Env, fuel: nat)
    requires s.If? && CompileStmt(h.number, s, f).Some?
    requires Covers(F, CompileStmt(h.number, s, f).value, |f.code|)
    requires Reaches(h, F, c, At(F, |f.code|, st, env))
    ensures Follows(h, F, c, |CompileStmt(h.number, s, f).value.code|, st, EvalStmt(h, s, f.locals, env, fuel), fuel)
    decreases fuel, s, 1
  {
    hide CompileText, CompileStmts, EvalText, EvalStmts, Reaches, Covers, Grows, Patch, Slots;
    var f1 := CompileText(h.number, s.cond, f).value;
    TextGrows(h.number, s.cond, f);
    var g1 := Emit(f1, JumpIfFalse, 0);
    var f2 := CompileStmts(h.number, s.thn, g1).value;
    StmtsGrow(h.number, s.thn, g1);
    var g2 := Patch(Emit(f2, Jump, 0), |f1.code|);
    if s.els.Else? {
      StmtsGrow(h.number, s.els.body, g2);
      BranchesCovered(F, f, f1, f2, CompileStmts(h.number, s.els.body, g2).value);
    } else {
      BranchCovered(F, f, f1, f2);
    }
    SimText(h, F, c, s.cond, f, st, env);
    match EvalText(h, s.cond, f.locals, env)
    case Stop(_) =>
    case Val(v, env1) =>
      DoBranch(h, F, c, |f1.code|, st, v, env1);
      if Truthy(h, v) {
        SimStmts(h, F, c, s.thn, g1, st, env1, fuel);
        match EvalStmts(h, s.thn, g1.locals, env1, fuel)
        case Next(env2) => if s.els.Else? { DoJump(h, F, c, |f2.code|, st, env2); }
        case Done(_) =>
        case NoFuel =>
      } else if s.els.Else? {
        SimStmts(h, F, c, s.els.body, g2, st, env1, fuel);
      }
  }

  /** The parts of a loop, as they stand in a finished function. */
  ghost predicate LoopStands(num: Grammar.Numbers, F: Func, s: Stmt, f: Func)
    requires s.For? && (s.test.Some? ==> CompileText(num, s.test.value, f).Some?) && BodyCompiles(num, s, BodyStart(num, s, f))
  {
    var g := BodyStart(num, s, f);
    var f2, f3 := CompileStmts(num, s.body, g).value, BodyCode(num, s, g);
    && g.locals == f.locals && Covers(F, f2, |g.code|) && Covers(F, f3, |f2.code|)
    && |f3.code| < |F.code| && F.code[|f3.code|] == Instr(Jump, |f.code|, 0)
    && (s.test.Some? ==>
         var f1 := CompileText(num, s.test.value, f).value;
         Covers(F, f1, |f.code|) && |f1.code| < |F.code| && F.code[|f1.code|] == Instr(JumpIfFalse, |f3.code| + 1, 0))
  }

  lemma LoopCovered(num: Grammar.Numbers, F: Func, s: Stmt, f: Func)
    requires s.For? && CompileLoop(num, s, f).Some? && Covers(F, CompileLoop(num, s, f).value, |f.code|)
    ensures LoopParts(num, s, f) && LoopStands(num, F, s, f)
    ensures |CompileLoop(num, s, f).value.code| == |BodyCode(num, s, BodyStart(num, s, f)).code| + 1
  {
    LoopIs(num, s, f);
    hide CompileLoop, CompileText, CompileStmts, CompileUpdate, Covers, Grows, Patch;
    var g := BodyStart(num, s, f);
    var f2, f3 := CompileStmts(num, s.body, g).value, BodyCode(num, s, g);
    StmtsGrow(num, s.body, g);
    if s.update.Some? { UpdateTextGrows(num, s.update.value, f2); } else { GrowsSelf(f2); }
    if s.test.Some? {
      var f1 := CompileText(num, s.test.value, f).value;
      TextGrows(num, s.test.value, f);
      RoundCovered(F, f, f1, f2, f3);
    } else {
      EndlessCovered(F, f, f2, f3);
    }
  }

  lemma GrowsSelf(f: Func)
    ensures Grows(f, f)
  {
  }

  lemma RoundCovered(F: Func, f: Func, f1: Func, f2: Func, f3: Func)
    requires Grows(f, f1) && Grows(Emit(f1, JumpIfFalse, 0), f2) && Grows(f2, f3)
    requires Covers(F, Patch(Emit(f3, Jump, |f.code|), |f1.code|), |f.code|)
    ensures Covers(F, f1, |f.code|) && Covers(F, f2, |f1.code| + 1) && Covers(F, f3, |f2.code|)
    ensures |Patch(Emit(f3, Jump, |f.code|), |f1.code|).code| == |f3.code| + 1
    ensures |f1.code| < |f3.code| < |F.code| && F.code[|f3.code|] == Instr(Jump, |f.code|, 0)
    ensures F.code[|f1.code|] == Instr(JumpIfFalse, |f3.code| + 1, 0)
  {
    var r := Patch(Emit(f3, Jump, |f.code|), |f1.code|);
    assert f3.code[|f1.code|] == f2.code[|f1.code|] == Emit(f1, JumpIfFalse, 0).code[|f1.code|];
    assert F.code[|f1.code|] == r.code[|f1.code|] && F.code[|f3.code|] == r.code[|f3.code|];
    forall i | 0 <= i < |f1.code| ensures r.code[i] == f1.code[i] {
      assert f3.code[i] == f2.code[i] == Emit(f1, JumpIfFalse, 0).code[i];
    }
    forall i | |f1.code| < i < |f2.code| ensures r.code[i] == f2.code[i] {
      assert f3.code[i] == f2.code[i];
    }
  }

  lemma EndlessCovered(F: Func, f: Func, f2: Func, f3: Func)
    requires Grows(f, f2) && Grows(f2, f3) && Covers(F, Emit(f3, Jump, |f.code|), |f.code|)
    ensures Covers(F, f2, |f.code|) && Covers(F, f3, |f2.code|)
    ensures |f3.code| < |F.code| && F.code[|f3.code|] == Instr(Jump, |f.code|, 0)
  {
    assert F.code[|f3.code|] == Emit(f3, Jump, |f.code|).code[|f3.code|];
    forall i | |f.code| <= i < |f2.code| ensures F.code[i] == f2.code[i] {
      assert f3.code[i] == f2.code[i] && F.code[i] == Emit(f3, Jump, |f.code|).code[i];
    }
  }

  /** One round of a loop: its test, its body and its update; `env` before, the exit after. */
  lemma {:induction false} SimLoop(h: Host, F: Func, c: Config, s: Stmt, f: Func, st: seq<Value>, env: Env, fuel: nat)
    requires s.For? && CompileLoop(h.number, s, f).Some?
    requires Covers(F, CompileLoop(h.number, s, f).value, |f.code|)
    requires Reaches(h, F, c, At(F, |f.code|, st, env))
    ensures Follows(h, F, c, |CompileLoop(h.number, s, f).value.code|, st, EvalLoop(h, s, f.locals, env, fuel), fuel)
    decreases fuel, s, 2
  {
    LoopCovered(h.number, F, s, f);
    hide CompileText, CompileStmts, CompileUpdate, EvalText, EvalStmts, Reaches, Covers, CompileLoop, Slots, BodyCode, BodyCompiles;
    var g := BodyStart(h.number, s, f);
    SimTest(h, F, c, s, f, BodyCode(h.number, s, g), st, env);
    var r := if s.test.None? then Val(Bool(true), env) else EvalText(h, s.test.value, f.locals, env);
    if r.Val? && Truthy(h, r.v) {
      if fuel == 0 {
        SurvivesAfter(h, F, c, At(F, |f.code|, st, env), 0);
      } else {
        SimRound(h, F, c, s, f, st, r.env, fuel);
      }
    }
  }

  /** The rest of a round: the body, the update, and the jump back. */
  lemma {:induction false} SimRound(h: Host, F: Func, c: Config, s: Stmt, f: Func, st: seq<Value>, env: Env, fuel: nat)
    requires s.For? && CompileLoop(h.number, s, f).Some? && fuel > 0
    requires Covers(F, CompileLoop(h.number, s, f).value, |f.code|)
    requires LoopParts(h.number, s, f) && LoopStands(h.number, F, s, f)
    requires Reaches(h, F, c, At(F, |BodyStart(h.number, s, f).code|, st, env))
    ensures Follows(h, F, c, |CompileLoop(h.number, s, f).value.code|, st,
      match EvalStmts(h, s.body, f.locals, env, fuel)
      case Done(fin) => Done(fin)
      case NoFuel => NoFuel
      case Next(env2) =>
        match (if s.update.None? then Next(env2)
               else EvalUpdate(h, s.update.value, ScopeAfterAll(s.body, f.locals), env2))
        case Next(env3) => EvalLoop(h, s, f.locals, env3, fuel - 1)
        case other => other, fuel)
    decreases fuel, s, 1
  {
    hide CompileText, CompileLoop, EvalStmts, EvalUpdate, Reaches, Covers, Slots;
    var g := BodyStart(h.number, s, f);
    SimStmts(h, F, c, s.body, g, st, env, fuel);
    var f2 := CompileStmts(h.number, s.body, g).value;
    StmtsGrow(h.number, s.body, g);
    hide CompileStmts, CompileUpdate;
    var x := EvalStmts(h, s.body, g.locals, env, fuel);
    if x.Next? {
      if s.update.Some? { SimUpdateText(h, F, c, s.update.value, f2, st, x.env, fuel); }
      var y := if s.update.None? then x else EvalUpdate(h, s.update.value, f2.locals, x.env);
      if y.Next? {
        SimNextRound(h, F, c, s, f, |BodyCode(h.number, s, g).code|, st, y.env, fuel);
      }
    }
  }

  /** The head of a round: into the body when the test holds, past the loop when it does not. */
  lemma SimTest(h: Host, F: Func, c: Config, s: Stmt, f: Func, f3: Func, st: seq<Value>, env: Env)
    requires s.For? && (s.test.Some? ==> CompileText(h.number, s.test.value, f).Some?)
    requires s.test.Some? ==>
      var f1 := CompileText(h.number, s.test.value, f).value;
      Covers(F, f1, |f.code|) && |f1.code| < |F.code| && F.code[|f1.code|] == Instr(JumpIfFalse, |f3.code| + 1, 0)
    requires Reaches(h, F, c, At(F, |f.code|, st, env))
    ensures s.test.Some? ==>
      match EvalText(h, s.test.value, f.locals, env)
      case Stop(fin) => Reaches(h, F, c, Halted(fin))
      case Val(v, env1) =>
        Reaches(h, F, c, At(F, if Truthy(h, v) then |CompileText(h.number, s.test.value, f).value.code| + 1
                               else |f3.code| + 1, st, env1))
  {
    if s.test.Some? {
      SimText(h, F, c, s.test.value, f, st, env);
      match EvalText(h, s.test.value, f.locals, env)
      case Stop(_) =>
      case Val(v, env1) => DoBranch(h, F, c, |CompileText(h.number, s.test.value, f).value.code|, st, v, env1);
    }
  }

  lemma {:induction false} SimNextRound(h: Host, F: Func, c: Config, s: Stmt, f: Func, pc: nat, st: seq<Value>, env: Env,
                                        fuel: nat)
    requires s.For? && CompileLoop(h.number, s, f).Some? && fuel > 0
    requires Covers(F, CompileLoop(h.number, s, f).value, |f.code|)
    requires pc < |F.code| && F.code[pc] == Instr(Jump, |f.code|, 0)
    requires Reaches(h, F, c, At(F, pc, st, env))
    ensures Follows(h, F, c, |CompileLoop(h.number, s, f).value.code|, st, EvalLoop(h, s, f.locals, env, fuel - 1), fuel)
    decreases fuel, s, 0
  {
    hide EvalLoop, CompileLoop, Covers;
    var d := At(F, |f.code|, st, env);
    DoJump(h, F, c, pc, st, env);
    Here(h, F, d);
    SimLoop(h, F, d, s, f, st, env, fuel - 1);
    JumpFollows(h, F, c, pc, |f.code|, st, env, |CompileLoop(h.number, s, f).value.code|,
                EvalLoop(h, s, f.locals, env, fuel - 1), fuel);
  }

  /** What follows after a jump follows before it, a step more of survival included. */
  lemma JumpFollows(h: Host, F: Func, c: Config, pc: nat, to: nat, st: seq<Value>, env: Env, end: nat, x: Exit, fuel: nat)
    requires fuel > 0 && pc < |F.code| && F.code[pc] == Instr(Jump, to, 0)
    requires Reaches(h, F, c, At(F, pc, st, env)) && Reaches(h, F, c, At(F, to, st, env))
    requires Follows(h, F, At(F, to, st, env), end, st, x, fuel - 1)
    ensures Follows(h, F, c, end, st, x, fuel)
  {
    hide Reaches, Slots;
    var d := At(F, to, st, env);
    match x
    case Next(env1) => Trans(h, F, c, d, At(F, end, st, env1));
    case Done(fin) => Trans(h, F, c, d, Halted(fin));
    case NoFuel =>
      assert Exec(h, F, At(F, pc, st, env), fuel) == Exec(h, F, d, fuel - 1);
      SurvivesAfter(h, F, c, At(F, pc, st, env), fuel);
  }

  lemma {:induction false} SimStmts(h: Host, F: Func, c: Config, ss: seq<Stmt>, f: Func, st: seq<Value>, env: Env, fuel: nat)
    requires CompileStmts(h.number, ss, f).Some?
    requires Covers(F, CompileStmts(h.number, ss, f).value, |f.code|)
    requires Reaches(h, F, c, At(F, |f.code|, st, env))
    ensures Follows(h, F, c, |CompileStmts(h.number, ss, f).value.code|, st, EvalStmts(h, ss, f.locals, env, fuel), fuel)
    decreases fuel, ss, 0
  {
    if ss != [] {
      var f1 := CompileStmt(h.number, ss[0], f).value;
      StmtGrows(h.number, ss[0], f);
      StmtsGrow(h.number, ss[1..], f1);
      SimStmt(h, F, c, ss[0], f, st, env, fuel);
      match EvalStmt(h, ss[0], f.locals, env, fuel)
      case Next(env1) => SimStmts(h, F, c, ss[1..], f1, st, env1, fuel);
      case Done(_) =>
      case NoFuel =>
    }
  }

  // ---- whole functions ----

  lemma BodyGrows(num: Grammar.Numbers, params: seq<string>, ss: seq<Stmt>)
    requires CompileBody(num, params, ss).Some?
    ensures CompileStmts(num, ss, Func([], [], DeclareAll([], params))).Some?
    ensures Covers(CompileBody(num, params, ss).value, CompileStmts(num, ss, Func([], [], DeclareAll([], params))).value, 0)
  {
    var f := Func([], [], DeclareAll([], params));
    StmtsGrow(num, ss, f);
    ScopeStaysDistinct(ss, f.locals);
  }

  lemma {:induction false} ScopeStaysDistinct(ss: seq<Stmt>, scope: seq<string>)
    requires Distinct(scope)
    ensures Distinct(ScopeAfterAll(ss, scope))
    decreases ss, 0
  {
    if ss != [] {
      OneScopeStaysDistinct(ss[0], scope);
      ScopeStaysDistinct(ss[1..], ScopeAfter(ss[0], scope));
    }
  }

  lemma {:induction false} OneScopeStaysDistinct(s: Stmt, scope: seq<string>)
    requires Distinct(scope)
    ensures Distinct(ScopeAfter(s, scope))
    decreases s, 1
  {
    match s
    case If(_, thn, els) =>
      ScopeStaysDistinct(thn, scope);
      if els.Else? { ScopeStaysDistinct(els.body, ScopeAfterAll(thn, scope)); }
    case For(init, _, body, _) =>
      if init.Some? { OneScopeStaysDistinct(init.value, scope); }
      ScopeStaysDistinct(body, if init.None? then scope else ScopeAfter(init.value, scope));
    case _ =>
  }

  /** Compiling a function preserves its meaning: started in any environment, the machine ends exactly as the
      reference evaluator ends, and while the evaluator wants more loop rounds the machine keeps running. */
  lemma BodyCorrect(h: Host, params: seq<string>, ss: seq<Stmt>, env: Env, fuel: nat)
    requires CompileBody(h.number, params, ss).Some?
    ensures var F := CompileBody(h.number, params, ss).value;
      match EvalBody(h, params, ss, env, fuel)
      case Done(fin) => Reaches(h, F, At(F, 0, [], env), Halted(fin))
      case NoFuel => Survives(h, F, At(F, 0, [], env), fuel)
      case Next(_) => false
  {
    var F := CompileBody(h.number, params, ss).value;
    var f := Func([], [], DeclareAll([], params));
    var c := At(F, 0, [], env);
    BodyGrows(h.number, params, ss);
    Here(h, F, c);
    SimStmts(h, F, c, ss, f, [], env, fuel);
    var r := CompileStmts(h.number, ss, f).value;
    match EvalStmts(h, ss, f.locals, env, fuel)
    case Next(env1) =>
      DoConst(h, F, c, r, EmitShared(r, Const, Undefined), Undefined, [], env1);
      DoReturn(h, F, c, |r.code| + 1, [], Undefined, env1);
    case Done(_) =>
    case NoFuel =>
  }

  /** The machine run and the reference run end together: one ends with `fin` if and only if the other does. */
  lemma SameEnds(h: Host, params: seq<string>, ss: seq<Stmt>, env: Env, fin: Final)
    requires CompileBody(h.number, params, ss).Some?
    ensures var F := CompileBody(h.number, params, ss).value;
      Reaches(h, F, At(F, 0, [], env), Halted(fin)) <==>
      exists fuel: nat :: EvalBody(h, params, ss, env, fuel) == Done(fin)
  {
    var F := CompileBody(h.number, params, ss).value;
    var c := At(F, 0, [], env);
    if Reaches(h, F, c, Halted(fin)) {
      var n: nat :| Exec(h, F, c, n) == Halted(fin);
      BodyCorrect(h, params, ss, env, n);
      match EvalBody(h, params, ss, env, n)
      case Done(other) => OneEnd(h, F, c, fin, other);
      case NoFuel =>
    }
    if fuel: nat :| EvalBody(h, params, ss, env, fuel) == Done(fin) {
      BodyCorrect(h, params, ss, env, fuel);
    }
  }
}
