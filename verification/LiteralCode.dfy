/** The code of two trees that differ only in string literals: as many instructions, and different constants. */
module LiteralCode {
  import opened Values
  import opened Bytecode
  import opened Syntax
  import opened CodeGen
  import opened Simulation
  import opened Utf8
  import opened Literals
  import Grammar
  import Printer

  /** Instruction `k` loads different constants in the two functions. */
  ghost predicate Differ(r: Func, s: Func, k: nat) {
    && k < |r.code| && k < |s.code| && r.code[k].op == Const && s.code[k].op == Const
    && r.code[k].a < |r.constants| && s.code[k].a < |s.constants|
    && r.constants[r.code[k].a] != s.constants[s.code[k].a]
  }

  /** Compilation went on from `f` to `r` without touching instruction `k`. */
  ghost predicate Kept(f: Func, r: Func, k: nat) {
    k < |f.code| <= |r.code| && r.code[k] == f.code[k] && PoolGrows(f, r)
  }

  lemma DifferStill(f: Func, g: Func, r: Func, s: Func, k: nat)
    requires Differ(f, g, k) && Kept(f, r, k) && Kept(g, s, k)
    ensures Differ(r, s, k)
  {
  }

  lemma KeptOn(f: Func, g: Func, r: Func, k: nat)
    requires Kept(f, g, k) && Kept(g, r, k)
    ensures Kept(f, r, k)
  {
  }

  lemma EmittedKept(f: Func, op: Op, a: nat, k: nat)
    requires k < |f.code|
    ensures Kept(f, Emit(f, op, a), k)
  {
  }

  lemma PatchedKept(f: Func, at: nat, k: nat)
    requires k < |f.code| && k != at
    ensures Kept(f, Patch(f, at), k)
  {
  }

  lemma StoredKept(f: Func, x: string, k: nat)
    requires k < |f.code|
    ensures Kept(f, EmitStore(f, x), k)
  {
  }

  lemma SharedKept(f: Func, op: Op, v: Value, k: nat)
    requires k < |f.code|
    ensures Kept(f, EmitShared(f, op, v), k)
  {
  }

  /** Two states of compilation side by side. */
  ghost predicate Level(f: Func, g: Func) {
    |f.code| == |g.code| && f.locals == g.locals
  }

  lemma LevelLoad(f: Func, g: Func, x: string)
    requires Level(f, g)
    ensures Level(EmitLoad(f, x), EmitLoad(g, x))
  {
  }

  lemma LevelStore(f: Func, g: Func, x: string)
    requires Level(f, g)
    ensures Level(EmitStore(f, x), EmitStore(g, x))
  {
  }

  lemma LevelLiteral(num: Grammar.Numbers, f: Func, g: Func, a: Literal, b: Literal)
    requires Level(f, g)
    ensures Level(EmitLiteral(num, f, a), EmitLiteral(num, g, b))
  {
  }

  lemma LevelOp1(f: Func, g: Func, op: Op1)
    requires Level(f, g)
    ensures Level(EmitOp1(f, op), EmitOp1(g, op))
  {
  }

  lemma {:induction false} SameLength(num: Grammar.Numbers, e: Expr, f: Func, g: Func)
    requires Level(f, g)
    ensures Level(CompileExpr(num, e, f), CompileExpr(num, Bytewise(e), g))
    decreases e
  {
    hide CompileArgs, BytewiseArgs, EmitLoad, EmitStore, EmitLiteral, EmitOp1;
    match e
    case Lit(lit) => LevelLiteral(num, f, g, lit, BytewiseLiteral(lit));
    case Name(x) => LevelLoad(f, g, x);
    case Global(_) =>
    case Assign(x, e1) =>
      SameLength(num, e1, f, g);
      LevelStore(CompileExpr(num, e1, f), CompileExpr(num, Bytewise(e1), g), x);
    case Update(x, op, e1) =>
      LevelLoad(f, g, x);
      SameLength(num, e1, EmitLoad(f, x), EmitLoad(g, x));
      LevelStore(Emit(CompileExpr(num, e1, EmitLoad(f, x)), Bin(op), 0),
                 Emit(CompileExpr(num, Bytewise(e1), EmitLoad(g, x)), Bin(op), 0), x);
    case Sequence(l, r) =>
      SameLength(num, l, f, g);
      SameLength(num, r, Emit(CompileExpr(num, l, f), Drop, 0), Emit(CompileExpr(num, Bytewise(l), g), Drop, 0));
    case Cond(_, _, _) => CondLength(num, e, f, g);
    case Binop(_, l, r) =>
      SameLength(num, l, f, g);
      SameLength(num, r, CompileExpr(num, l, f), CompileExpr(num, Bytewise(l), g));
    case Unop(op, e1) =>
      SameLength(num, e1, f, g);
      LevelOp1(CompileExpr(num, e1, f), CompileExpr(num, Bytewise(e1), g), op);
    case Apply(fn, args) =>
      SameLength(num, fn, f, g);
      SameLengthArgs(num, args, CompileExpr(num, fn, f), CompileExpr(num, Bytewise(fn), g));
    case Invoke(o, name, args) =>
      SameLength(num, o, f, g);
      SameLengthArgs(num, args, Receiver(CompileExpr(num, o, f), name), Receiver(CompileExpr(num, Bytewise(o), g), name));
  }

  /** A receiver kept under its method. */
  function Receiver(f: Func, name: string): Func {
    Emit(EmitShared(Emit(f, Dup, 0), Const, Str(name)), GetProp, 0)
  }

  lemma {:induction false} CondLength(num: Grammar.Numbers, e: Expr, f: Func, g: Func)
    requires e.Cond? && Level(f, g)
    ensures Level(CompileExpr(num, e, f), CompileExpr(num, Bytewise(e), g))
    decreases e, 0
  {
    var b := Bytewise(e);
    var f1, g1 := CompileExpr(num, e.c, f), CompileExpr(num, b.c, g);
    SameLength(num, e.c, f, g);
    var f2, g2 := CompileExpr(num, e.t, Emit(f1, JumpIfFalse, 0)), CompileExpr(num, b.t, Emit(g1, JumpIfFalse, 0));
    SameLength(num, e.t, Emit(f1, JumpIfFalse, 0), Emit(g1, JumpIfFalse, 0));
    SameLength(num, e.f, Patch(Emit(f2, Jump, 0), |f1.code|), Patch(Emit(g2, Jump, 0), |g1.code|));
  }

  lemma {:induction false} SameLengthArgs(num: Grammar.Numbers, args: Args, f: Func, g: Func)
    requires Level(f, g)
    ensures Level(CompileArgs(num, args, f), CompileArgs(num, BytewiseArgs(args), g))
    decreases args
  {
    if args.Snoc? {
      SameLengthArgs(num, args.init, f, g);
      SameLength(num, args.last, CompileArgs(num, args.init, f), CompileArgs(num, BytewiseArgs(args.init), g));
    }
  }

  /** A literal that is not ASCII makes an instruction load something else than the tree says. */
  lemma {:induction false} Apart(num: Grammar.Numbers, e: Expr, f: Func, g: Func) returns (k: nat)
    requires Level(f, g) && !AsciiLiterals(e)
    ensures Differ(CompileExpr(num, e, f), CompileExpr(num, Bytewise(e), g), k)
    decreases e, 1
  {
    match e
    case Lit(lit) =>
      AsReadSame(lit.s);
      k := |f.code|;
    case Assign(x, e1) =>
      k := Apart(num, e1, f, g);
      var r, s := CompileExpr(num, e1, f), CompileExpr(num, Bytewise(e1), g);
      StoredKept(r, x, k);
      StoredKept(s, x, k);
      DifferStill(r, s, EmitStore(r, x), EmitStore(s, x), k);
    case Update(_, _, _) => k := ApartUpdate(num, e, f, g);
    case Sequence(_, _) => k := ApartSequence(num, e, f, g);
    case Cond(_, _, _) => k := ApartCond(num, e, f, g);
    case Binop(_, _, _) => k := ApartBinop(num, e, f, g);
    case Unop(_, _) => k := ApartUnop(num, e, f, g);
    case Apply(_, _) => k := ApartApply(num, e, f, g);
    case Invoke(_, _, _) => k := ApartInvoke(num, e, f, g);
  }

  lemma {:induction false} ApartUpdate(num: Grammar.Numbers, e: Expr, f: Func, g: Func) returns (k: nat)
    requires e.Update? && Level(f, g) && !AsciiLiterals(e)
    ensures Differ(CompileExpr(num, e, f), CompileExpr(num, Bytewise(e), g), k)
    decreases e, 0
  {
    var f1, g1 := EmitLoad(f, e.x), EmitLoad(g, e.x);
    k := Apart(num, e.e, f1, g1);
    var r, s := CompileExpr(num, e.e, f1), CompileExpr(num, Bytewise(e.e), g1);
    var r1, s1 := Emit(r, Bin(e.bop), 0), Emit(s, Bin(e.bop), 0);
    StoredKept(r1, e.x, k);
    StoredKept(s1, e.x, k);
    DifferStill(r1, s1, EmitStore(r1, e.x), EmitStore(s1, e.x), k);
  }

  lemma {:induction false} ApartSequence(num: Grammar.Numbers, e: Expr, f: Func, g: Func) returns (k: nat)
    requires e.Sequence? && Level(f, g) && !AsciiLiterals(e)
    ensures Differ(CompileExpr(num, e, f), CompileExpr(num, Bytewise(e), g), k)
    decreases e, 0
  {
    var r, s := Emit(CompileExpr(num, e.l, f), Drop, 0), Emit(CompileExpr(num, Bytewise(e.l), g), Drop, 0);
    SameLength(num, e.l, f, g);
    if AsciiLiterals(e.l) {
      k := Apart(num, e.r, r, s);
    } else {
      k := Apart(num, e.l, f, g);
      ExprGrows(num, e.r, r);
      ExprGrows(num, Bytewise(e.r), s);
      DifferStill(r, s, CompileExpr(num, e.r, r), CompileExpr(num, Bytewise(e.r), s), k);
    }
  }

  lemma {:induction false} ApartBinop(num: Grammar.Numbers, e: Expr, f: Func, g: Func) returns (k: nat)
    requires e.Binop? && Level(f, g) && !AsciiLiterals(e)
    ensures Differ(CompileExpr(num, e, f), CompileExpr(num, Bytewise(e), g), k)
    decreases e, 0
  {
    var r, s := CompileExpr(num, e.l, f), CompileExpr(num, Bytewise(e.l), g);
    SameLength(num, e.l, f, g);
    ExprGrows(num, e.r, r);
    ExprGrows(num, Bytewise(e.r), s);
    if AsciiLiterals(e.l) {
      k := Apart(num, e.r, r, s);
    } else {
      k := Apart(num, e.l, f, g);
      DifferStill(r, s, CompileExpr(num, e.r, r), CompileExpr(num, Bytewise(e.r), s), k);
    }
  }

  lemma {:induction false} ApartUnop(num: Grammar.Numbers, e: Expr, f: Func, g: Func) returns (k: nat)
    requires e.Unop? && Level(f, g) && !AsciiLiterals(e)
    ensures Differ(CompileExpr(num, e, f), CompileExpr(num, Bytewise(e), g), k)
    decreases e, 0
  {
    k := Apart(num, e.e, f, g);
    if e.op1.Member? {
      SharedKept(CompileExpr(num, e.e, f), Const, Str(e.op1.name), k);
      SharedKept(CompileExpr(num, Bytewise(e.e), g), Const, Str(e.op1.name), k);
    }
  }

  lemma {:induction false} ApartApply(num: Grammar.Numbers, e: Expr, f: Func, g: Func) returns (k: nat)
    requires e.Apply? && Level(f, g) && !AsciiLiterals(e)
    ensures Differ(CompileExpr(num, e, f), CompileExpr(num, Bytewise(e), g), k)
    decreases e, 0
  {
    var r, s := CompileExpr(num, e.fn, f), CompileExpr(num, Bytewise(e.fn), g);
    SameLength(num, e.fn, f, g);
    if AsciiLiterals(e.fn) {
      k := ApartArgs(num, e.args, r, s);
    } else {
      k := Apart(num, e.fn, f, g);
      ArgsKeep(num, e.args, r, s, k);
    }
  }

  lemma {:induction false} ApartInvoke(num: Grammar.Numbers, e: Expr, f: Func, g: Func) returns (k: nat)
    requires e.Invoke? && Level(f, g) && !AsciiLiterals(e)
    ensures Differ(CompileExpr(num, e, f), CompileExpr(num, Bytewise(e), g), k)
    decreases e, 0
  {
    var r, s := CompileExpr(num, e.o, f), CompileExpr(num, Bytewise(e.o), g);
    var r1, s1 := Receiver(r, e.name), Receiver(s, e.name);
    SameLength(num, e.o, f, g);
    if AsciiLiterals(e.o) {
      k := ApartArgs(num, e.args, r1, s1);
    } else {
      k := Apart(num, e.o, f, g);
      ReceiverKept(r, e.name, k);
      ReceiverKept(s, e.name, k);
      DifferStill(r, s, r1, s1, k);
      ArgsKeep(num, e.args, r1, s1, k);
    }
  }

  lemma ReceiverKept(f: Func, name: string, k: nat)
    requires k < |f.code|
    ensures Kept(f, Receiver(f, name), k)
  {
    EmittedKept(f, Dup, 0, k);
    var f1 := Emit(f, Dup, 0);
    SharedKept(f1, Const, Str(name), k);
    EmittedKept(EmitShared(f1, Const, Str(name)), GetProp, 0, k);
  }

  lemma ArgsKeep(num: Grammar.Numbers, args: Args, r: Func, s: Func, k: nat)
    requires Differ(r, s, k)
    ensures Differ(CompileArgs(num, args, r), CompileArgs(num, BytewiseArgs(args), s), k)
  {
    ArgsGrow(num, args, r);
    ArgsGrow(num, BytewiseArgs(args), s);
    DifferStill(r, s, CompileArgs(num, args, r), CompileArgs(num, BytewiseArgs(args), s), k);
  }

  lemma {:induction false} ApartArgs(num: Grammar.Numbers, args: Args, f: Func, g: Func) returns (k: nat)
    requires Level(f, g) && !AsciiArgs(args)
    ensures Differ(CompileArgs(num, args, f), CompileArgs(num, BytewiseArgs(args), g), k)
    decreases args, 0
  {
    var r, s := CompileArgs(num, args.init, f), CompileArgs(num, BytewiseArgs(args.init), g);
    SameLengthArgs(num, args.init, f, g);
    if AsciiArgs(args.init) {
      k := Apart(num, args.last, r, s);
    } else {
      k := ApartArgs(num, args.init, f, g);
      ExprGrows(num, args.last, r);
      ExprGrows(num, Bytewise(args.last), s);
      DifferStill(r, s, CompileExpr(num, args.last, r), CompileExpr(num, Bytewise(args.last), s), k);
    }
  }

  /** What the second branch of a conditional leaves of the code before it, its own jumps apart. */
  lemma BranchesKeep(num: Grammar.Numbers, a: Expr, b: Expr, f1: Func, k: nat)
    requires k < |f1.code|
    ensures Kept(f1, BranchCode(num, a, b, f1), k)
  {
    var h := Emit(f1, JumpIfFalse, 0);
    EmittedKept(f1, JumpIfFalse, 0, k);
    ExprGrows(num, a, h);
    var f2 := CompileExpr(num, a, h);
    KeptOn(f1, h, f2, k);
    SecondKeeps(num, b, f2, |f1.code|, k);
    KeptOn(f1, f2, BranchCode(num, a, b, f1), k);
  }

  lemma SecondKeeps(num: Grammar.Numbers, b: Expr, f2: Func, at: nat, k: nat)
    requires k < |f2.code| && k != at
    ensures Kept(f2, Patch(CompileExpr(num, b, Patch(Emit(f2, Jump, 0), at)), |f2.code|), k)
  {
    var h := Emit(f2, Jump, 0);
    var f3 := Patch(h, at);
    var f4 := CompileExpr(num, b, f3);
    EmittedKept(f2, Jump, 0, k);
    PatchedKept(h, at, k);
    ExprGrows(num, b, f3);
    KeptOn(f2, h, f3, k);
    KeptOn(f2, f3, f4, k);
    PatchedKept(f4, |f2.code|, k);
    KeptOn(f2, f4, Patch(f4, |f2.code|), k);
  }

  lemma {:induction false} ApartCond(num: Grammar.Numbers, e: Expr, f: Func, g: Func) returns (k: nat)
    requires e.Cond? && Level(f, g) && !AsciiLiterals(e)
    ensures Differ(CompileExpr(num, e, f), CompileExpr(num, Bytewise(e), g), k)
    decreases e, 0
  {
    var b := Bytewise(e);
    var f1, g1 := CompileExpr(num, e.c, f), CompileExpr(num, b.c, g);
    SameLength(num, e.c, f, g);
    if AsciiLiterals(e.c) {
      k := ApartBranches(num, e, f1, g1);
    } else {
      k := Apart(num, e.c, f, g);
      BranchesKeep(num, e.t, e.f, f1, k);
      BranchesKeep(num, b.t, b.f, g1, k);
      DifferStill(f1, g1, BranchCode(num, e.t, e.f, f1), BranchCode(num, b.t, b.f, g1), k);
    }
  }

  lemma {:induction false} ApartBranches(num: Grammar.Numbers, e: Expr, f1: Func, g1: Func) returns (k: nat)
    requires e.Cond? && Level(f1, g1) && !(AsciiLiterals(e.t) && AsciiLiterals(e.f))
    ensures Differ(BranchCode(num, e.t, e.f, f1), BranchCode(num, Bytewise(e.t), Bytewise(e.f), g1), k)
    decreases e, -1
  {
    var f2 := CompileExpr(num, e.t, Emit(f1, JumpIfFalse, 0));
    var g2 := CompileExpr(num, Bytewise(e.t), Emit(g1, JumpIfFalse, 0));
    SameLength(num, e.t, Emit(f1, JumpIfFalse, 0), Emit(g1, JumpIfFalse, 0));
    var r := BranchCode(num, e.t, e.f, f1);
    var s := BranchCode(num, Bytewise(e.t), Bytewise(e.f), g1);
    if AsciiLiterals(e.t) {
      var f3, g3 := Patch(Emit(f2, Jump, 0), |f1.code|), Patch(Emit(g2, Jump, 0), |g1.code|);
      k := Apart(num, e.f, f3, g3);
      var f4, g4 := CompileExpr(num, e.f, f3), CompileExpr(num, Bytewise(e.f), g3);
      ExprGrows(num, e.f, f3);
      assert f3.code[|f2.code|].op == Jump && f4.code[|f2.code|] == f3.code[|f2.code|];
      PatchedKept(f4, |f2.code|, k);
      PatchedKept(g4, |g2.code|, k);
      DifferStill(f4, g4, r, s, k);
    } else {
      k := Apart(num, e.t, Emit(f1, JumpIfFalse, 0), Emit(g1, JumpIfFalse, 0));
      ExprGrows(num, e.t, Emit(f1, JumpIfFalse, 0));
      assert f2.code[|f1.code|].op == JumpIfFalse;
      SecondKeeps(num, e.f, f2, |f1.code|, k);
      SecondKeeps(num, Bytewise(e.f), g2, |g1.code|, k);
      DifferStill(f2, g2, r, s, k);
    }
  }

  /** Compiling the print of a tree emits the code of the tree if and only if its string literals are ASCII. */
  lemma PrintedCompiles(num: Grammar.Numbers, e: Expr, f: Func)
    requires Printer.Printable(num, f.locals, e)
    ensures CompileText(num, Printer.Atom(e), f) == Some(CompileExpr(num, e, f)) <==> AsciiLiterals(e)
  {
    PrintReads(num, f.locals, e);
    if AsciiLiterals(e) {
      BytewiseSame(e);
    } else {
      var k := Apart(num, e, f, f);
    }
  }
}
