/** Compiled code is well formed: every program point has one stack depth, every operand is in range,
    and the only backward jumps lead from the end of a `for` to its own beginning. */
module Safety {
  import opened Values
  import opened Bytecode
  import opened Syntax
  import opened Machine
  import opened CodeGen
  import opened Simulation
  import opened StmtSimulation
  import Grammar
  import Texts

  /** Instruction `i` finds its operands and hands over the depths that `depth` announces for its successors. */
  ghost predicate Sound(g: Func, depth: seq<nat>, i: nat)
    requires i < |g.code| && |depth| == |g.code| + 1
  {
    var a, d, next := g.code[i].a, depth[i], depth[i + 1];
    match g.code[i].op
    case Const => a < |g.constants| && next == d + 1
    case LoadGlobal => a < |g.constants| && g.constants[a].Str? && next == d + 1
    case StoreGlobal => a < |g.constants| && g.constants[a].Str? && d >= 1 && next == d
    case LoadLocal => a < |g.locals| && next == d + 1
    case StoreLocal => a < |g.locals| && d >= 1 && next == d
    case IncLocal => a < |g.locals| && next == d
    case Bin(_) => d >= 2 && next == d - 1
    case Un(_) => d >= 1 && next == d
    case Drop => d >= 1 && next == d - 1
    case Dup => d >= 1 && next == d + 1
    case Jump => a <= |g.code| && depth[a] == d
    case JumpIfFalse => d >= 1 && i < a <= |g.code| && depth[a] == d - 1 == next
    case Call => d >= a + 1 && next == d - a
    case CallMethod => d >= a + 2 && next == d - a - 1
    case GetProp => d >= 2 && next == d - 1
    case GetElem => d >= 2 && next == d - 1
    case Return => d >= 1
  }

  predicate Forward(g: Func, i: nat)
    requires i < |g.code|
  {
    g.code[i].op == Jump ==> i < g.code[i].a
  }

  /** Instruction `i` jumps backward exactly when it is the start of an edge, and then to the end of that edge. */
  predicate Placed(g: Func, edges: map<nat, nat>, i: nat)
    requires i < |g.code|
  {
    if i in edges then g.code[i].op == Jump && g.code[i].a == edges[i] <= i else Forward(g, i)
  }

  /** `depth` extends `depth0`, types the code of `g` from `lo` on, and ends at depth `last`;
      the backward jumps of that code are the `edges`. */
  ghost predicate Typed(g: Func, depth0: seq<nat>, depth: seq<nat>, lo: nat, last: nat, edges: map<nat, nat>) {
    && |depth| == |g.code| + 1
    && |depth0| <= |depth|
    && (forall i :: 0 <= i < |depth0| ==> depth[i] == depth0[i])
    && (forall i :: lo <= i < |g.code| ==> Sound(g, depth, i) && Placed(g, edges, i))
    && (forall i :: i in edges ==> lo <= i < |g.code|)
    && depth[|g.code|] == last
  }

  /** Soundness of an instruction survives further compilation. */
  lemma SoundLater(g: Func, depth: seq<nat>, r: Func, later: seq<nat>, i: nat)
    requires i < |g.code| <= |r.code| && |depth| == |g.code| + 1 && |later| == |r.code| + 1
    requires r.code[i] == g.code[i] && PoolGrows(g, r)
    requires forall k :: 0 <= k < |depth| ==> later[k] == depth[k]
    requires Sound(g, depth, i)
    ensures Sound(r, later, i)
  {
  }

  /** Code typed before a region and code typed in it make typed code. */
  lemma Join(g: Func, d0: seq<nat>, d1: seq<nat>, lo: nat, mid: nat, last1: nat, e1: map<nat, nat>,
             r: Func, d2: seq<nat>, last2: nat, e2: map<nat, nat>)
    requires Typed(g, d0, d1, lo, last1, e1) && lo <= |g.code| == mid
    requires Grows(g, r) && Typed(r, d1, d2, mid, last2, e2)
    ensures Typed(r, d0, d2, lo, last2, e1 + e2)
  {
    forall i | lo <= i < |r.code|
      ensures Sound(r, d2, i) && Placed(r, e1 + e2, i)
    {
      if i < mid { SoundLater(g, d1, r, d2, i); }
    }
  }

  lemma JoinAhead(g: Func, d0: seq<nat>, d1: seq<nat>, lo: nat, mid: nat, last1: nat, r: Func, d2: seq<nat>, last2: nat)
    requires Typed(g, d0, d1, lo, last1, map[]) && lo <= |g.code| == mid
    requires Grows(g, r) && Typed(r, d1, d2, mid, last2, map[])
    ensures Typed(r, d0, d2, lo, last2, map[])
  {
    Join(g, d0, d1, lo, mid, last1, map[], r, d2, last2, map[]);
    NoMore(map[]);
  }

  /** The depth of the point where compilation stands. */
  function Top(f: Func, depth: seq<nat>): nat
    requires |depth| == |f.code| + 1
  {
    depth[|f.code|]
  }

  /** Typed code is typed wherever it stands unchanged. */
  lemma Region(g: Func, d0: seq<nat>, dg: seq<nat>, lo: nat, last: nat, e: map<nat, nat>, r: Func, d: seq<nat>, er: map<nat, nat>)
    requires Typed(g, d0, dg, lo, last, e) && |g.code| <= |r.code| && |d| == |r.code| + 1 && PoolGrows(g, r)
    requires forall i :: lo <= i < |g.code| ==> r.code[i] == g.code[i]
    requires forall i :: 0 <= i < |dg| ==> d[i] == dg[i]
    requires forall i :: lo <= i < |g.code| ==> (i in er <==> i in e) && (i in e ==> er[i] == e[i])
    ensures forall i :: lo <= i < |g.code| ==> Sound(r, d, i) && Placed(r, er, i)
  {
    forall i | lo <= i < |g.code|
      ensures Sound(r, d, i) && Placed(r, er, i)
    {
      SoundLater(g, dg, r, d, i);
      assert Placed(g, e, i);
    }
  }

  lemma TestPoint(r: Func, d: seq<nat>, i: nat, target: nat)
    requires i < target <= |r.code| && r.code[i] == Instr(JumpIfFalse, target, 0) && |d| == |r.code| + 1
    requires d[i] == d[target] + 1 && d[i + 1] == d[target]
    ensures Sound(r, d, i) && Forward(r, i)
  {
  }

  lemma JumpPoint(r: Func, d: seq<nat>, i: nat, target: nat)
    requires i < |r.code| && target <= |r.code| && r.code[i] == Instr(Jump, target, 0) && |d| == |r.code| + 1
    requires d[i] == d[target]
    ensures Sound(r, d, i) && (i < target ==> Forward(r, i))
  {
  }

  /** Two typed branches after a typed test, with their jumps patched; `k` is what each branch leaves on the stack. */
  lemma Branches(n: nat, t: nat, k: nat, f1: Func, d0: seq<nat>, d1: seq<nat>, f2: Func, d2: seq<nat>, e2: map<nat, nat>,
                 f4: Func, d: seq<nat>, e4: map<nat, nat>)
    requires n <= |f1.code| && Typed(f1, d0, d1, n, t + 1, map[])
    requires Grows(Emit(f1, JumpIfFalse, 0), f2) && Typed(f2, d1 + [t], d2, |f1.code| + 1, t + k, e2)
    requires Grows(Patch(Emit(f2, Jump, 0), |f1.code|), f4) && Typed(f4, d2 + [t], d, |f2.code| + 1, t + k, e4)
    ensures Typed(Patch(f4, |f2.code|), d0, d, n, t + k, e2 + e4)
  {
    var r := Patch(f4, |f2.code|);
    var m1, m2 := |f1.code|, |f2.code|;
    BranchCode(f1, f2, f4);
    hide Sound, Placed, Grows, PoolGrows;
    assert d[m1] == t + 1 && d[m1 + 1] == t && d[m2] == t + k && d[m2 + 1] == t && d[|f4.code|] == t + k;
    TestPoint(r, d, m1, m2 + 1);
    JumpPoint(r, d, m2, |f4.code|);
    Region(f1, d0, d1, n, t + 1, map[], r, d, e2 + e4);
    Region(f2, d1 + [t], d2, m1 + 1, t + k, e2, r, d, e2 + e4);
    Region(f4, d2 + [t], d, m2 + 1, t + k, e4, r, d, e2 + e4);
    Ahead(r, e2 + e4, m1);
    Ahead(r, e2 + e4, m2);
  }

  /** Where the instructions of a test and two branches are, once patched. */
  lemma BranchCode(f1: Func, f2: Func, f4: Func)
    requires Grows(Emit(f1, JumpIfFalse, 0), f2) && Grows(Patch(Emit(f2, Jump, 0), |f1.code|), f4)
    ensures var r := Patch(f4, |f2.code|);
      && |f1.code| < |f2.code| < |f4.code| == |r.code|
      && PoolGrows(f1, r) && PoolGrows(f2, r) && PoolGrows(f4, r)
      && (forall i :: 0 <= i < |f1.code| ==> r.code[i] == f1.code[i])
      && r.code[|f1.code|] == Instr(JumpIfFalse, |f2.code| + 1, 0)
      && (forall i :: |f1.code| < i < |f2.code| ==> r.code[i] == f2.code[i])
      && r.code[|f2.code|] == Instr(Jump, |f4.code|, 0)
      && forall i :: |f2.code| < i < |f4.code| ==> r.code[i] == f4.code[i]
  {
    var r, f3 := Patch(f4, |f2.code|), Patch(Emit(f2, Jump, 0), |f1.code|);
    var m1, m2 := |f1.code|, |f2.code|;
    assert r.code[m1] == f4.code[m1] == f3.code[m1] && f2.code[m1] == Emit(f1, JumpIfFalse, 0).code[m1];
    assert f4.code[m2] == f3.code[m2];
    forall i | 0 <= i < m1 ensures r.code[i] == f1.code[i] {
      assert f2.code[i] == Emit(f1, JumpIfFalse, 0).code[i] && f4.code[i] == f3.code[i];
    }
    forall i | m1 < i < m2 ensures r.code[i] == f2.code[i] {
      assert f4.code[i] == f3.code[i];
    }
  }

  lemma Ahead(r: Func, edges: map<nat, nat>, i: nat)
    requires i < |r.code| && i !in edges && Forward(r, i)
    ensures Placed(r, edges, i)
  {
  }

  /** One typed branch after a typed test. */
  lemma Branch(n: nat, t: nat, f1: Func, d0: seq<nat>, d1: seq<nat>, f2: Func, d: seq<nat>, e2: map<nat, nat>)
    requires n <= |f1.code| && Typed(f1, d0, d1, n, t + 1, map[])
    requires Grows(Emit(f1, JumpIfFalse, 0), f2) && Typed(f2, d1 + [t], d, |f1.code| + 1, t, e2)
    ensures Typed(Patch(f2, |f1.code|), d0, d, n, t, e2)
  {
    hide Sound, Placed;
    var r, m1 := Patch(f2, |f1.code|), |f1.code|;
    forall i | 0 <= i < m1 ensures r.code[i] == f1.code[i] {
      assert f2.code[i] == Emit(f1, JumpIfFalse, 0).code[i];
    }
    assert f2.code[m1] == Emit(f1, JumpIfFalse, 0).code[m1];
    assert d[m1] == t + 1 && d[m1 + 1] == t && d[|f2.code|] == t;
    TestPoint(r, d, m1, |f2.code|);
    Region(f1, d0, d1, n, t + 1, map[], r, d, e2);
    Region(f2, d1 + [t], d, m1 + 1, t, e2, r, d, e2);
    Ahead(r, e2, m1);
  }

  /** A typed body closed by the jump back to where its test begins. */
  lemma Round(n: nat, t: nat, f1: Func, d0: seq<nat>, d1: seq<nat>, f3: Func, d3: seq<nat>, e3: map<nat, nat>)
    requires n <= |f1.code| && |d0| == n + 1 && d0[n] == t && Typed(f1, d0, d1, n, t + 1, map[])
    requires Grows(Emit(f1, JumpIfFalse, 0), f3) && Typed(f3, d1 + [t], d3, |f1.code| + 1, t, e3)
    ensures Typed(Patch(Emit(f3, Jump, n), |f1.code|), d0, d3 + [t], n, t, e3[|f3.code| := n])
  {
    hide Sound, Placed;
    var r, d, edges := Patch(Emit(f3, Jump, n), |f1.code|), d3 + [t], e3[|f3.code| := n];
    var m1, m3 := |f1.code|, |f3.code|;
    forall i | 0 <= i < m1 ensures r.code[i] == f1.code[i] {
      assert f3.code[i] == Emit(f1, JumpIfFalse, 0).code[i];
    }
    assert f3.code[m1] == Emit(f1, JumpIfFalse, 0).code[m1];
    assert d[m1] == t + 1 && d[m1 + 1] == t && d[m3] == t && d[m3 + 1] == t && d[n] == d0[n] == t;
    TestPoint(r, d, m1, m3 + 1);
    JumpPoint(r, d, m3, n);
    Region(f1, d0, d1, n, t + 1, map[], r, d, edges);
    Region(f3, d1 + [t], d3, m1 + 1, t, e3, r, d, edges);
    Ahead(r, edges, m1);
    Backward(r, edges, m3);
  }

  lemma Backward(r: Func, edges: map<nat, nat>, i: nat)
    requires i < |r.code| && i in edges && r.code[i] == Instr(Jump, edges[i], 0) && edges[i] <= i
    ensures Placed(r, edges, i)
  {
  }

  /** The same without a test. */
  lemma EndlessRound(n: nat, t: nat, f3: Func, d0: seq<nat>, d3: seq<nat>, e3: map<nat, nat>)
    requires n <= |f3.code| && |d0| == n + 1 && d0[n] == t && Typed(f3, d0, d3, n, t, e3)
    ensures Typed(Emit(f3, Jump, n), d0, d3 + [t], n, t, e3[|f3.code| := n])
  {
    hide Sound, Placed;
    var r, d, edges := Emit(f3, Jump, n), d3 + [t], e3[|f3.code| := n];
    var m3 := |f3.code|;
    assert d[m3] == t && d[n] == d0[n] == t;
    JumpPoint(r, d, m3, n);
    Region(f3, d0, d3, n, t, e3, r, d, edges);
    Backward(r, edges, m3);
  }

  lemma TypeLoad(f: Func, x: string, d0: seq<nat>) returns (d: seq<nat>)
    requires |d0| == |f.code| + 1
    ensures Typed(EmitLoad(f, x), d0, d, |f.code|, Top(f, d0) + 1, map[])
  {
    d := d0 + [Top(f, d0) + 1];
  }

  lemma TypeStore(f: Func, x: string, d0: seq<nat>) returns (d: seq<nat>)
    requires |d0| == |f.code| + 1 && Top(f, d0) >= 1
    ensures Typed(EmitStore(f, x), d0, d, |f.code|, Top(f, d0), map[])
  {
    var n, t, r := |f.code|, Top(f, d0), EmitStore(f, x);
    if IndexOf(f.locals, x) < |f.locals| {
      d := d0 + [t + 1, t + 1, t];
      assert |r.code| == n + 3 && d[n] == t && d[n + 1] == t + 1 && d[n + 2] == t + 1 && d[n + 3] == t;
      assert Sound(r, d, n) && Sound(r, d, n + 1) && Sound(r, d, n + 2);
      assert Placed(r, map[], n) && Placed(r, map[], n + 1) && Placed(r, map[], n + 2);
      hide Sound, Placed, EmitStore;
    } else {
      d := d0 + [t];
      assert |r.code| == n + 1 && d[n] == t && d[n + 1] == t;
      assert Sound(r, d, n) && Placed(r, map[], n);
      hide Sound, Placed, EmitStore;
    }
  }

  lemma TypeEmit(f: Func, op: Op, a: nat, next: nat, d0: seq<nat>) returns (d: seq<nat>)
    requires |d0| == |f.code| + 1
    requires Sound(Emit(f, op, a), d0 + [next], |f.code|) && op != Jump
    ensures Typed(Emit(f, op, a), d0, d, |f.code|, next, map[])
  {
    d := d0 + [next];
  }

  lemma TypeConst(f: Func, r: Func, v: Value, d0: seq<nat>) returns (d: seq<nat>)
    requires |d0| == |f.code| + 1
    requires r == EmitShared(f, Const, v) || r == EmitFresh(f, v)
    ensures Typed(r, d0, d, |f.code|, Top(f, d0) + 1, map[])
  {
    d := d0 + [Top(f, d0) + 1];
  }

  /** An expression nets one value and jumps only ahead. */
  lemma {:induction false} TypeExpr(num: Grammar.Numbers, e: Expr, f: Func, d0: seq<nat>) returns (d: seq<nat>)
    requires |d0| == |f.code| + 1
    ensures Typed(CompileExpr(num, e, f), d0, d, |f.code|, Top(f, d0) + 1, map[])
    decreases e, 1
  {
    hide Typed, EmitLoad, EmitStore, EmitOp1;
    match e
    case Lit(lit) => d := TypeConst(f, EmitLiteral(num, f, lit), LiteralValue(num, lit), d0);
    case Name(x) => d := TypeLoad(f, x, d0);
    case Global(x) => d := TypeGlobal(f, x, d0);
    case Assign(x, e1) =>
      var d1 := TypeExpr(num, e1, f, d0);
      d := TypeStored(CompileExpr(num, e1, f), x, d0, d1, |f.code|, Top(f, d0));
    case Update(_, _, _) => d := TypeUpdate(num, e, f, d0);
    case Sequence(_, _) => d := TypeSequence(num, e, f, d0);
    case Cond(_, _, _) => d := TypeCond(num, e, f, d0);
    case Binop(_, _, _) => d := TypeBinop(num, e, f, d0);
    case Unop(op, e1) =>
      var d1 := TypeExpr(num, e1, f, d0);
      d := TypeSuffixed(CompileExpr(num, e1, f), op, d0, d1, |f.code|, Top(f, d0));
    case Apply(_, _) => d := TypeApply(num, e, f, d0);
    case Invoke(_, _, _) => d := TypeInvoke(num, e, f, d0);
  }

  lemma TypeGlobal(f: Func, x: string, d0: seq<nat>) returns (d: seq<nat>)
    requires |d0| == |f.code| + 1
    ensures Typed(EmitShared(f, LoadGlobal, Str(x)), d0, d, |f.code|, Top(f, d0) + 1, map[])
  {
    d := d0 + [Top(f, d0) + 1];
  }

  lemma TypeStored(f1: Func, x: string, d0: seq<nat>, d1: seq<nat>, n: nat, t: nat) returns (d: seq<nat>)
    requires |d0| == n + 1 && Typed(f1, d0, d1, n, t + 1, map[])
    ensures Typed(EmitStore(f1, x), d0, d, n, t + 1, map[])
  {
    d := TypeStore(f1, x, d1);
    JoinAhead(f1, d0, d1, n, |f1.code|, t + 1, EmitStore(f1, x), d, t + 1);
  }

  lemma TypeSuffixed(f1: Func, op: Op1, d0: seq<nat>, d1: seq<nat>, n: nat, t: nat) returns (d: seq<nat>)
    requires |d0| == n + 1 && Typed(f1, d0, d1, n, t + 1, map[])
    ensures Typed(EmitOp1(f1, op), d0, d, n, t + 1, map[])
  {
    d := TypeOp1(f1, op, d1);
    JoinAhead(f1, d0, d1, n, |f1.code|, t + 1, EmitOp1(f1, op), d, t + 1);
  }

  lemma TypeOp1(f: Func, op: Op1, d0: seq<nat>) returns (d: seq<nat>)
    requires |d0| == |f.code| + 1 && Top(f, d0) >= 1
    ensures Typed(EmitOp1(f, op), d0, d, |f.code|, Top(f, d0), map[])
  {
    var t := Top(f, d0);
    d := if op.Plus? then d0 else if op.Prefix? then d0 + [t] else d0 + [t + 1, t];
  }

  lemma {:induction false} TypeSequence(num: Grammar.Numbers, e: Expr, f: Func, d0: seq<nat>) returns (d: seq<nat>)
    requires e.Sequence? && |d0| == |f.code| + 1
    ensures Typed(CompileExpr(num, e, f), d0, d, |f.code|, Top(f, d0) + 1, map[])
    decreases e, 0
  {
    var n, t := |f.code|, Top(f, d0);
    var f1 := CompileExpr(num, e.l, f);
    var d1 := TypeExpr(num, e.l, f, d0);
    var f2 := Emit(f1, Drop, 0);
    var d2 := TypeEmit(f1, Drop, 0, t, d1);
    JoinAhead(f1, d0, d1, n, |f1.code|, t + 1, f2, d2, t);
    d := TypeExpr(num, e.r, f2, d2);
    ExprGrows(num, e.r, f2);
    JoinAhead(f2, d0, d2, n, |f2.code|, t, CompileExpr(num, e.r, f2), d, t + 1);
  }

  lemma {:induction false} TypeBinop(num: Grammar.Numbers, e: Expr, f: Func, d0: seq<nat>) returns (d: seq<nat>)
    requires e.Binop? && |d0| == |f.code| + 1
    ensures Typed(CompileExpr(num, e, f), d0, d, |f.code|, Top(f, d0) + 1, map[])
    decreases e, 0
  {
    var n, t := |f.code|, Top(f, d0);
    var f1 := CompileExpr(num, e.l, f);
    var d1 := TypeExpr(num, e.l, f, d0);
    var f2 := CompileExpr(num, e.r, f1);
    var d2 := TypeExpr(num, e.r, f1, d1);
    ExprGrows(num, e.r, f1);
    JoinAhead(f1, d0, d1, n, |f1.code|, t + 1, f2, d2, t + 2);
    d := TypeEmit(f2, Op2Code(e.op2), 0, t + 1, d2);
    JoinAhead(f2, d0, d2, n, |f2.code|, t + 2, Emit(f2, Op2Code(e.op2), 0), d, t + 1);
  }

  lemma {:induction false} TypeApply(num: Grammar.Numbers, e: Expr, f: Func, d0: seq<nat>) returns (d: seq<nat>)
    requires e.Apply? && |d0| == |f.code| + 1
    ensures Typed(CompileExpr(num, e, f), d0, d, |f.code|, Top(f, d0) + 1, map[])
    decreases e, 0
  {
    var n, t := |f.code|, Top(f, d0);
    var f1 := CompileExpr(num, e.fn, f);
    var d1 := TypeExpr(num, e.fn, f, d0);
    var f2 := CompileArgs(num, e.args, f1);
    var d2 := TypeArgs(num, e.args, f1, d1);
    ArgsGrow(num, e.args, f1);
    JoinAhead(f1, d0, d1, n, |f1.code|, t + 1, f2, d2, t + 1 + Count(e.args));
    d := TypeEmit(f2, Op.Call, Count(e.args), t + 1, d2);
    JoinAhead(f2, d0, d2, n, |f2.code|, t + 1 + Count(e.args), Emit(f2, Op.Call, Count(e.args)), d, t + 1);
  }

  lemma {:induction false} TypeUpdate(num: Grammar.Numbers, e: Expr, f: Func, d0: seq<nat>) returns (d: seq<nat>)
    requires e.Update? && |d0| == |f.code| + 1
    ensures Typed(CompileExpr(num, e, f), d0, d, |f.code|, Top(f, d0) + 1, map[])
    decreases e, 0
  {
    var n, t := |f.code|, Top(f, d0);
    var f1 := EmitLoad(f, e.x);
    var f2 := CompileExpr(num, e.e, f1);
    assert CompileExpr(num, e, f) == EmitStore(Emit(f2, Bin(e.bop), 0), e.x);
    hide CompileExpr, EmitLoad, EmitStore, Typed, Grows;
    var d1 := TypeLoad(f, e.x, d0);
    LastDepth(f1, d0, d1, n, t + 1, map[]);
    var d2 := TypeExpr(num, e.e, f1, d1);
    ExprGrows(num, e.e, f1);
    JoinAhead(f1, d0, d1, n, |f1.code|, t + 1, f2, d2, t + 2);
    var d3 := JoinEmit(f2, d0, d2, n, t + 2, Bin(e.bop), t + 1);
    d := TypeStored(Emit(f2, Bin(e.bop), 0), e.x, d0, d3, n, t);
  }

  /** One more instruction, by what it takes off the stack and leaves. */
  lemma JoinEmit(g: Func, d0: seq<nat>, d1: seq<nat>, n: nat, last: nat, op: Op, next: nat) returns (d: seq<nat>)
    requires |d0| == n + 1 && Typed(g, d0, d1, n, last, map[])
    requires (op.Bin? && last == next + 1 && next > 0) || (op == GetProp && last == next + 1 && next > 0)
          || (op == Dup && last > 0 && next == last + 1)
    ensures Typed(Emit(g, op, 0), d0, d, n, next, map[])
  {
    LastDepth(g, d0, d1, n, last, map[]);
    hide Typed;
    d := TypeEmit(g, op, 0, next, d1);
    OneGrows(g, Emit(g, op, 0));
    JoinAhead(g, d0, d1, n, |g.code|, last, Emit(g, op, 0), d, next);
  }

  lemma OneGrows(g: Func, r: Func)
    requires |g.code| <= |r.code| && r.code[..|g.code|] == g.code && r.locals == g.locals
    requires |g.constants| <= |r.constants| && r.constants[..|g.constants|] == g.constants
    ensures Grows(g, r)
  {
    assert forall i :: 0 <= i < |g.code| ==> r.code[i] == r.code[..|g.code|][i];
    assert forall i :: 0 <= i < |g.constants| ==> r.constants[i] == r.constants[..|g.constants|][i];
  }

  lemma JoinConst(g: Func, d0: seq<nat>, d1: seq<nat>, n: nat, last: nat, v: Value) returns (d: seq<nat>)
    requires |d0| == n + 1 && Typed(g, d0, d1, n, last, map[])
    ensures Typed(EmitShared(g, Const, v), d0, d, n, last + 1, map[])
  {
    LastDepth(g, d0, d1, n, last, map[]);
    hide Typed;
    d := TypeConst(g, EmitShared(g, Const, v), v, d1);
    OneGrows(g, EmitShared(g, Const, v));
    JoinAhead(g, d0, d1, n, |g.code|, last, EmitShared(g, Const, v), d, last + 1);
  }

  lemma {:induction false} TypeInvoke(num: Grammar.Numbers, e: Expr, f: Func, d0: seq<nat>) returns (d: seq<nat>)
    requires e.Invoke? && |d0| == |f.code| + 1
    ensures Typed(CompileExpr(num, e, f), d0, d, |f.code|, Top(f, d0) + 1, map[])
    decreases e, 0
  {
    var n, t := |f.code|, Top(f, d0);
    var f1 := CompileExpr(num, e.o, f);
    var f3 := Emit(EmitShared(Emit(f1, Dup, 0), Const, Str(e.name)), GetProp, 0);
    var f4 := CompileArgs(num, e.args, f3);
    assert CompileExpr(num, e, f) == Emit(f4, CallMethod, Count(e.args));
    hide CompileExpr, CompileArgs, Typed, Grows;
    var d1 := TypeExpr(num, e.o, f, d0);
    var d3 := TypeMethod(f1, e.name, d0, d1, n, t);
    var d4 := TypeArgs(num, e.args, f3, d3);
    ArgsGrow(num, e.args, f3);
    LastDepth(f3, d0, d3, n, t + 2, map[]);
    JoinAhead(f3, d0, d3, n, |f3.code|, t + 2, f4, d4, t + 2 + Count(e.args));
    d := TypeMethodCall(f4, d0, d4, n, t, Count(e.args));
  }

  lemma LastDepth(g: Func, d0: seq<nat>, d: seq<nat>, lo: nat, last: nat, edges: map<nat, nat>)
    requires Typed(g, d0, d, lo, last, edges)
    ensures |d| == |g.code| + 1 && Top(g, d) == last && |d0| <= |d|
  {
  }

  /** The receiver is doubled and its method fetched. */
  lemma TypeMethod(f1: Func, name: string, d0: seq<nat>, d1: seq<nat>, n: nat, t: nat) returns (d3: seq<nat>)
    requires |d0| == n + 1 && Typed(f1, d0, d1, n, t + 1, map[])
    ensures var f3 := Emit(EmitShared(Emit(f1, Dup, 0), Const, Str(name)), GetProp, 0);
      n <= |f3.code| && |d3| == |f3.code| + 1 && Typed(f3, d0, d3, n, t + 2, map[])
  {
    hide Typed, Grows;
    var f2 := EmitShared(Emit(f1, Dup, 0), Const, Str(name));
    var d := JoinEmit(f1, d0, d1, n, t + 1, Dup, t + 2);
    d := JoinConst(Emit(f1, Dup, 0), d0, d, n, t + 2, Str(name));
    d3 := JoinEmit(f2, d0, d, n, t + 3, GetProp, t + 2);
    LastDepth(Emit(f2, GetProp, 0), d0, d3, n, t + 2, map[]);
  }

  lemma TypeMethodCall(f4: Func, d0: seq<nat>, d4: seq<nat>, n: nat, t: nat, count: nat) returns (d: seq<nat>)
    requires Typed(f4, d0, d4, n, t + 2 + count, map[]) && n <= |f4.code|
    ensures Typed(Emit(f4, CallMethod, count), d0, d, n, t + 1, map[])
  {
    d := TypeEmit(f4, CallMethod, count, t + 1, d4);
    JoinAhead(f4, d0, d4, n, |f4.code|, t + 2 + count, Emit(f4, CallMethod, count), d, t + 1);
  }

  lemma {:induction false} TypeCond(num: Grammar.Numbers, e: Expr, f: Func, d0: seq<nat>) returns (d: seq<nat>)
    requires e.Cond? && |d0| == |f.code| + 1
    ensures Typed(CompileExpr(num, e, f), d0, d, |f.code|, Top(f, d0) + 1, map[])
    decreases e, 0
  {
    var n, t := |f.code|, Top(f, d0);
    var f1 := CompileExpr(num, e.c, f);
    ExprGrows(num, e.c, f);
    var d1 := TypeExpr(num, e.c, f, d0);
    var g1 := Emit(f1, JumpIfFalse, 0);
    var f2 := CompileExpr(num, e.t, g1);
    var d2 := TypeExpr(num, e.t, g1, d1 + [t]);
    ExprGrows(num, e.t, g1);
    var f3 := Patch(Emit(f2, Jump, 0), |f1.code|);
    var f4 := CompileExpr(num, e.f, f3);
    d := TypeExpr(num, e.f, f3, d2 + [t]);
    ExprGrows(num, e.f, f3);
    Branches(n, t, 1, f1, d0, d1, f2, d2, map[], f4, d, map[]);
    NoMore(map[]);
  }

  lemma {:induction false} TypeArgs(num: Grammar.Numbers, args: Args, f: Func, d0: seq<nat>) returns (d: seq<nat>)
    requires |d0| == |f.code| + 1
    ensures Typed(CompileArgs(num, args, f), d0, d, |f.code|, Top(f, d0) + Count(args), map[])
    decreases args, 0
  {
    match args
    case NoArgs => d := d0;
    case Snoc(init, last) =>
      var f1 := CompileArgs(num, init, f);
      var d1 := TypeArgs(num, init, f, d0);
      d := TypeExpr(num, last, f1, d1);
      ExprGrows(num, last, f1);
      JoinAhead(f1, d0, d1, |f.code|, |f1.code|, Top(f, d0) + Count(init), CompileExpr(num, last, f1), d,
           Top(f, d0) + Count(args));
  }

  // ---- loop edges ----

  /** The backward jumps that a statement is to have, each with its target: the last instruction of every loop leads to
      where that loop begins. */
  function LoopEdges(num: Grammar.Numbers, s: Stmt, f: Func): map<nat, nat>
    requires CompileStmt(num, s, f).Some?
    decreases s, 1
  {
    match s
    case If(cond, thn, els) =>
      var f1 := CompileText(num, cond, f).value;
      var g1 := Emit(f1, JumpIfFalse, 0);
      var f2 := CompileStmts(num, thn, g1).value;
      LoopEdgesAll(num, thn, g1)
      + if els.NoElse? then map[] else LoopEdgesAll(num, els.body, Patch(Emit(f2, Jump, 0), |f1.code|))
    case For(init, _, _, _) =>
      if init.None? then EdgesOfLoop(num, s, f)
      else LoopEdges(num, init.value, f) + EdgesOfLoop(num, s, CompileStmt(num, init.value, f).value)
    case _ => map[]
  }

  /** The edges of a loop that begins at the end of `f`: those inside its body, and its own. */
  function EdgesOfLoop(num: Grammar.Numbers, s: Stmt, f: Func): map<nat, nat>
    requires s.For? && CompileLoop(num, s, f).Some?
    decreases s, 0
  {
    var g := if s.test.None? then f else Emit(CompileText(num, s.test.value, f).value, JumpIfFalse, 0);
    var end := |CompileLoop(num, s, f).value.code|;
    LoopEdgesAll(num, s.body, g)[if end > 0 then end - 1 else 0 := |f.code|]
  }

  function LoopEdgesAll(num: Grammar.Numbers, ss: seq<Stmt>, f: Func): map<nat, nat>
    requires CompileStmts(num, ss, f).Some?
    decreases ss, 0
  {
    if ss == [] then map[]
    else LoopEdges(num, ss[0], f) + LoopEdgesAll(num, ss[1..], CompileStmt(num, ss[0], f).value)
  }

  // ---- statements ----

  /** No `for` anywhere in the statement. */
  predicate LoopFree(s: Stmt)
    decreases s, 1
  {
    match s
    case If(_, thn, els) => AllLoopFree(thn) && (els.Else? ==> AllLoopFree(els.body))
    case For(_, _, _, _) => false
    case _ => true
  }

  predicate AllLoopFree(ss: seq<Stmt>)
    decreases ss, 0
  {
    ss == [] || (LoopFree(ss[0]) && AllLoopFree(ss[1..]))
  }

  lemma TypeText(num: Grammar.Numbers, text: string, f: Func, d0: seq<nat>) returns (d: seq<nat>)
    requires |d0| == |f.code| + 1 && CompileText(num, text, f).Some?
    ensures Typed(CompileText(num, text, f).value, d0, d, |f.code|, Top(f, d0) + 1, map[])
  {
    d := TypeExpr(num, Grammar.Full(num, f.locals, text).value, f, d0);
  }

  /** One more instruction after a text that was compiled as a statement. */
  lemma TypeTextThen(num: Grammar.Numbers, text: string, f: Func, op: Op, d0: seq<nat>) returns (d: seq<nat>)
    requires |d0| == |f.code| + 1 && CompileText(num, text, f).Some? && (op == Drop || op == Return)
    ensures Typed(Emit(CompileText(num, text, f).value, op, 0), d0, d, |f.code|, Top(f, d0), map[])
  {
    var t := Top(f, d0);
    var f1 := CompileText(num, text, f).value;
    var d1 := TypeText(num, text, f, d0);
    TextGrows(num, text, f);
    d := TypeEmit(f1, op, 0, t, d1);
    JoinAhead(f1, d0, d1, |f.code|, |f1.code|, t + 1, Emit(f1, op, 0), d, t);
  }

  /** A statement leaves the depth as it was. */
  lemma {:induction false} TypeStmt(num: Grammar.Numbers, s: Stmt, f: Func, d0: seq<nat>) returns (d: seq<nat>)
    requires |d0| == |f.code| + 1 && CompileStmt(num, s, f).Some?
    ensures Typed(CompileStmt(num, s, f).value, d0, d, |f.code|, Top(f, d0), LoopEdges(num, s, f))
    decreases s, 2
  {
    hide Typed, CompileText, CompileLoop, CompileStmts, EdgesOfLoop, LoopEdgesAll;
    match s
    case Var(name) => d := TypeVar(f, Declare(f.locals, name), d0);
    case VarInit(_, _) => d := TypeVarInit(num, s, f, d0);
    case ReturnVoid => d := TypeReturnVoid(f, d0);
    case ReturnText(text) => d := TypeTextThen(num, text, f, Return, d0);
    case ExprStmt(text) => d := TypeTextThen(num, text, f, Drop, d0);
    case If(_, _, _) => d := TypeIf(num, s, f, d0);
    case For(init, _, _, _) =>
      if init.None? { d := TypeLoop(num, s, f, d0); } else { d := TypeFor(num, s, f, d0); }
  }

  lemma TypeVar(f: Func, locals: seq<string>, d0: seq<nat>) returns (d: seq<nat>)
    requires |d0| == |f.code| + 1
    ensures Typed(f.(locals := locals), d0, d, |f.code|, Top(f, d0), map[])
  {
    d := d0;
  }

  lemma TypeReturnVoid(f: Func, d0: seq<nat>) returns (d: seq<nat>)
    requires |d0| == |f.code| + 1
    ensures Typed(Emit(EmitShared(f, Const, Undefined), Return, 0), d0, d, |f.code|, Top(f, d0), map[])
  {
    d := d0 + [Top(f, d0) + 1, Top(f, d0)];
  }

  /** A loop after its head. */
  lemma {:induction false} TypeFor(num: Grammar.Numbers, s: Stmt, f: Func, d0: seq<nat>) returns (d: seq<nat>)
    requires s.For? && s.init.Some? && |d0| == |f.code| + 1 && CompileStmt(num, s, f).Some?
    ensures Typed(CompileStmt(num, s, f).value, d0, d, |f.code|, Top(f, d0), LoopEdges(num, s, f))
    decreases s, 1
  {
    var t := Top(f, d0);
    var f0 := CompileStmt(num, s.init.value, f).value;
    assert CompileStmt(num, s, f) == CompileLoop(num, s, f0);
    assert LoopEdges(num, s, f) == LoopEdges(num, s.init.value, f) + EdgesOfLoop(num, s, f0);
    hide Typed, CompileLoop, CompileStmt, LoopEdges, EdgesOfLoop, Grows;
    var d1 := TypeStmt(num, s.init.value, f, d0);
    StmtGrows(num, s.init.value, f);
    Longer(f, f0);
    LastDepth(f0, d0, d1, |f.code|, t, LoopEdges(num, s.init.value, f));
    d := TypeLoop(num, s, f0, d1);
    LoopGrows(num, s, f0);
    Join(f0, d0, d1, |f.code|, |f0.code|, t, LoopEdges(num, s.init.value, f), CompileLoop(num, s, f0).value, d, t,
         EdgesOfLoop(num, s, f0));
  }

  lemma TypeVarInit(num: Grammar.Numbers, s: Stmt, f: Func, d0: seq<nat>) returns (d: seq<nat>)
    requires s.VarInit? && |d0| == |f.code| + 1 && CompileStmt(num, s, f).Some?
    ensures Typed(CompileStmt(num, s, f).value, d0, d, |f.code|, Top(f, d0), map[])
  {
    var g := f.(locals := Declare(f.locals, s.name));
    var f1 := CompileText(num, s.text, g).value;
    var slot := IndexOf(f.locals, s.name);
    assert CompileStmt(num, s, f).value == Emit(Emit(f1, StoreLocal, slot), Drop, 0);
    hide CompileStmt, CompileText, Typed;
    var d1 := TypeText(num, s.text, g, d0);
    TextGrows(num, s.text, g);
    d := TypeStoreDrop(f1, slot, d0, d1, |f.code|, Top(f, d0));
  }

  lemma TypeStoreDrop(f1: Func, slot: nat, d0: seq<nat>, d1: seq<nat>, n: nat, t: nat) returns (d: seq<nat>)
    requires n <= |f1.code| && Typed(f1, d0, d1, n, t + 1, map[]) && slot < |f1.locals|
    ensures Typed(Emit(Emit(f1, StoreLocal, slot), Drop, 0), d0, d, n, t, map[])
  {
    var f2 := Emit(f1, StoreLocal, slot);
    var d2 := TypeEmit(f1, StoreLocal, slot, t + 1, d1);
    d := TypeEmit(f2, Drop, 0, t, d2);
    JoinAhead(f1, d0, d1, n, |f1.code|, t + 1, f2, d2, t + 1);
    JoinAhead(f2, d0, d2, n, |f2.code|, t + 1, Emit(f2, Drop, 0), d, t);
  }

  lemma NoMore(edges: map<nat, nat>)
    ensures edges + map[] == edges
  {
  }

  lemma {:induction false} TypeIf(num: Grammar.Numbers, s: Stmt, f: Func, d0: seq<nat>) returns (d: seq<nat>)
    requires s.If? && |d0| == |f.code| + 1 && CompileStmt(num, s, f).Some?
    ensures Typed(CompileStmt(num, s, f).value, d0, d, |f.code|, Top(f, d0), LoopEdges(num, s, f))
    decreases s, 0
  {
    var n, t := |f.code|, Top(f, d0);
    IfIs(num, s, f);
    hide CompileText, CompileStmts, LoopEdgesAll, Typed, Grows, Patch, CompileStmt, LoopEdges;
    var f1 := CompileText(num, s.cond, f).value;
    var d1 := TypeText(num, s.cond, f, d0);
    TextGrows(num, s.cond, f);
    Longer(f, f1);
    TopAfter(f1, d0, d1, n, t + 1, t);
    var g1 := Emit(f1, JumpIfFalse, 0);
    var f2 := CompileStmts(num, s.thn, g1).value;
    var d2 := TypeStmts(num, s.thn, g1, d1 + [t]);
    StmtsGrow(num, s.thn, g1);
    if s.els.NoElse? {
      d := d2;
      Branch(n, t, f1, d0, d1, f2, d, LoopEdgesAll(num, s.thn, g1));
      NoMore(LoopEdgesAll(num, s.thn, g1));
    } else {
      var f3 := Patch(Emit(f2, Jump, 0), |f1.code|);
      TopPatched(f2, |f1.code|, d1 + [t], d2, |g1.code|, t, LoopEdgesAll(num, s.thn, g1));
      d := TypeStmts(num, s.els.body, f3, d2 + [t]);
      StmtsGrow(num, s.els.body, f3);
      Branches(n, t, 0, f1, d0, d1, f2, d2, LoopEdgesAll(num, s.thn, g1), CompileStmts(num, s.els.body, f3).value, d,
               LoopEdgesAll(num, s.els.body, f3));
    }
  }

  predicate IfParts(num: Grammar.Numbers, s: Stmt, f: Func)
    requires s.If? && CompileStmt(num, s, f).Some?
  {
    && CompileText(num, s.cond, f).Some?
    && var f1 := CompileText(num, s.cond, f).value;
    && var g1 := Emit(f1, JumpIfFalse, 0);
    && CompileStmts(num, s.thn, g1).Some?
    && var f2 := CompileStmts(num, s.thn, g1).value;
    && if s.els.NoElse? then
         && CompileStmt(num, s, f).value == Patch(f2, |f1.code|)
         && LoopEdges(num, s, f) == LoopEdgesAll(num, s.thn, g1) + map[]
       else
         var f3 := Patch(Emit(f2, Jump, 0), |f1.code|);
         && CompileStmts(num, s.els.body, f3).Some?
         && CompileStmt(num, s, f).value == Patch(CompileStmts(num, s.els.body, f3).value, |f2.code|)
         && LoopEdges(num, s, f) == LoopEdgesAll(num, s.thn, g1) + LoopEdgesAll(num, s.els.body, f3)
  }

  lemma IfIs(num: Grammar.Numbers, s: Stmt, f: Func)
    requires s.If? && CompileStmt(num, s, f).Some?
    ensures IfParts(num, s, f)
  {
    hide CompileText, CompileStmts, LoopEdgesAll, Patch;
  }

  lemma Longer(f: Func, r: Func)
    requires Grows(f, r)
    ensures |f.code| <= |r.code|
  {
  }

  lemma TopPatched(f2: Func, at: nat, d0: seq<nat>, d2: seq<nat>, n: nat, t: nat, edges: map<nat, nat>)
    requires Typed(f2, d0, d2, n, t, edges)
    ensures var f3 := Patch(Emit(f2, Jump, 0), at);
      |f3.code| == |f2.code| + 1 && |d2 + [t]| == |f3.code| + 1 && Top(f3, d2 + [t]) == t
  {
  }

  lemma {:induction false} TypeLoop(num: Grammar.Numbers, s: Stmt, f: Func, d0: seq<nat>) returns (d: seq<nat>)
    requires s.For? && |d0| == |f.code| + 1 && CompileLoop(num, s, f).Some?
    ensures Typed(CompileLoop(num, s, f).value, d0, d, |f.code|, Top(f, d0), EdgesOfLoop(num, s, f))
    decreases s, 0
  {
    var n, t := |f.code|, Top(f, d0);
    LoopEdgeParts(num, s, f);
    hide CompileLoop, EdgesOfLoop, Typed, LoopEdgesAll, CompileStmts, CompileUpdate, Grows, CompileText;
    if s.test.None? {
      var f3, d3 := TypeBodyAndUpdate(num, s, f, d0);
      d := d3 + [t];
      EndlessRound(n, t, f3, d0, d3, LoopEdgesAll(num, s.body, f));
    } else {
      var f1 := CompileText(num, s.test.value, f).value;
      var d1 := TypeText(num, s.test.value, f, d0);
      TextGrows(num, s.test.value, f);
      TopAfter(f1, d0, d1, n, t + 1, t);
      var f3, d3 := TypeBodyAndUpdate(num, s, Emit(f1, JumpIfFalse, 0), d1 + [t]);
      d := d3 + [t];
      Round(n, t, f1, d0, d1, f3, d3, LoopEdgesAll(num, s.body, Emit(f1, JumpIfFalse, 0)));
    }
  }

  /** The edges of a compiled loop. */
  lemma LoopEdgeParts(num: Grammar.Numbers, s: Stmt, f: Func)
    requires s.For? && CompileLoop(num, s, f).Some?
    ensures LoopParts(num, s, f)
    ensures var g := BodyStart(num, s, f);
      EdgesOfLoop(num, s, f) == LoopEdgesAll(num, s.body, g)[|BodyCode(num, s, g).code| := |f.code|]
  {
    LoopIs(num, s, f);
    hide CompileText, CompileStmts, CompileUpdate, LoopEdgesAll;
  }

  lemma TopAfter(f1: Func, d0: seq<nat>, d1: seq<nat>, n: nat, last: nat, t: nat)
    requires Typed(f1, d0, d1, n, last, map[])
    ensures |d1 + [t]| == |Emit(f1, JumpIfFalse, 0).code| + 1 && Top(Emit(f1, JumpIfFalse, 0), d1 + [t]) == t
  {
  }

  lemma {:induction false} TypeBodyAndUpdate(num: Grammar.Numbers, s: Stmt, f: Func, d0: seq<nat>)
    returns (f3: Func, d: seq<nat>)
    requires s.For? && |d0| == |f.code| + 1 && BodyCompiles(num, s, f)
    ensures f3 == BodyCode(num, s, f)
    ensures Grows(f, f3) && Typed(f3, d0, d, |f.code|, Top(f, d0), LoopEdgesAll(num, s.body, f))
    decreases s.body, 1
  {
    var t := Top(f, d0);
    f3 := CompileStmts(num, s.body, f).value;
    d := TypeStmts(num, s.body, f, d0);
    StmtsGrow(num, s.body, f);
    if s.update.Some? {
      var f2, d2 := f3, d;
      f3 := CompileUpdate(num, s.update.value, f2).value;
      d := TypeUpdateText(num, s.update.value, f2, d2);
      UpdateTextGrows(num, s.update.value, f2);
      Join(f2, d0, d2, |f.code|, |f2.code|, t, LoopEdgesAll(num, s.body, f), f3, d, t, map[]);
      NoMore(LoopEdgesAll(num, s.body, f));
    }
  }

  lemma TypeUpdateText(num: Grammar.Numbers, update: string, f: Func, d0: seq<nat>) returns (d: seq<nat>)
    requires |d0| == |f.code| + 1 && CompileUpdate(num, update, f).Some?
    ensures Typed(CompileUpdate(num, update, f).value, d0, d, |f.code|, Top(f, d0), map[])
  {
    if IncrementForm(update, f.locals).Some? {
      d := d0 + [Top(f, d0)];
    } else {
      d := TypeTextThen(num, Texts.Trim(update), f, Drop, d0);
    }
  }

  lemma {:induction false} TypeStmts(num: Grammar.Numbers, ss: seq<Stmt>, f: Func, d0: seq<nat>) returns (d: seq<nat>)
    requires |d0| == |f.code| + 1 && CompileStmts(num, ss, f).Some?
    ensures Typed(CompileStmts(num, ss, f).value, d0, d, |f.code|, Top(f, d0), LoopEdgesAll(num, ss, f))
    decreases ss, 0
  {
    d := d0;
    if ss != [] {
      var t := Top(f, d0);
      var f1 := CompileStmt(num, ss[0], f).value;
      var d1 := TypeStmt(num, ss[0], f, d0);
      StmtGrows(num, ss[0], f);
      d := TypeStmts(num, ss[1..], f1, d1);
      StmtsGrow(num, ss[1..], f1);
      Join(f1, d0, d1, |f.code|, |f1.code|, t, LoopEdges(num, ss[0], f), CompileStmts(num, ss[1..], f1).value, d, t,
           LoopEdgesAll(num, ss[1..], f1));
    }
  }

  // ---- runs ----

  /** Every instruction is sound and the last one cannot be passed. */
  ghost predicate WellFormed(F: Func, depth: seq<nat>) {
    && |depth| == |F.code| + 1 && depth[0] == 0
    && F.code != [] && F.code[|F.code| - 1].op == Return
    && forall i :: 0 <= i < |F.code| ==>
         Sound(F, depth, i) && (F.code[i].op == Jump || F.code[i].op == JumpIfFalse ==> F.code[i].a < |F.code|)
  }

  /** A compiled function is well formed, and its backward jumps are exactly the edges of its loops. */
  lemma BodyWellFormed(num: Grammar.Numbers, params: seq<string>, ss: seq<Stmt>) returns (depth: seq<nat>)
    requires CompileBody(num, params, ss).Some?
    ensures var F := CompileBody(num, params, ss).value;
      && WellFormed(F, depth)
      && forall i :: 0 <= i < |F.code| ==> Placed(F, BodyEdges(num, params, ss), i)
  {
    var f := Func([], [], DeclareAll([], params));
    var r := CompileStmts(num, ss, f).value;
    hide CompileStmts, Typed, LoopEdgesAll, DeclareAll;
    var d := TypeStmts(num, ss, f, [0]);
    depth := d + [1, 0];
    BodyEnd(r, d, LoopEdgesAll(num, ss, f));
  }

  /** The `return undefined` at the end of a body. */
  lemma BodyEnd(r: Func, d: seq<nat>, edges: map<nat, nat>)
    requires Typed(r, [0], d, 0, 0, edges)
    ensures var F := Emit(EmitShared(r, Const, Undefined), Return, 0);
      WellFormed(F, d + [1, 0]) && forall i :: 0 <= i < |F.code| ==> Placed(F, edges, i)
  {
    var F, depth := Emit(EmitShared(r, Const, Undefined), Return, 0), d + [1, 0];
    Region(r, [0], d, 0, 0, edges, F, depth, edges);
    forall i | 0 <= i < |F.code|
      ensures Sound(F, depth, i) && Placed(F, edges, i)
      ensures F.code[i].op == Jump || F.code[i].op == JumpIfFalse ==> F.code[i].a < |F.code|
    {
      if i < |r.code| { assert Sound(r, d, i); }
    }
  }

  function BodyEdges(num: Grammar.Numbers, params: seq<string>, ss: seq<Stmt>): map<nat, nat>
    requires CompileBody(num, params, ss).Some?
  {
    LoopEdgesAll(num, ss, Func([], [], DeclareAll([], params)))
  }

  lemma AllForward(F: Func, edges: map<nat, nat>)
    requires edges == map[] && forall i :: 0 <= i < |F.code| ==> Placed(F, edges, i)
    ensures forall i :: 0 <= i < |F.code| ==> Forward(F, i)
  {
    forall i | 0 <= i < |F.code| ensures Forward(F, i) {
      assert Placed(F, edges, i);
    }
  }

  /** No `for`, no edge. */
  lemma {:induction false} NoEdges(num: Grammar.Numbers, ss: seq<Stmt>, f: Func)
    requires CompileStmts(num, ss, f).Some? && AllLoopFree(ss)
    ensures LoopEdgesAll(num, ss, f) == map[]
    decreases ss, 0
  {
    if ss != [] {
      NoEdge(num, ss[0], f);
      NoEdges(num, ss[1..], CompileStmt(num, ss[0], f).value);
    }
  }

  lemma {:induction false} NoEdge(num: Grammar.Numbers, s: Stmt, f: Func)
    requires CompileStmt(num, s, f).Some? && LoopFree(s)
    ensures LoopEdges(num, s, f) == map[]
    decreases s, 1
  {
    if s.If? {
      var f1 := CompileText(num, s.cond, f).value;
      var g1 := Emit(f1, JumpIfFalse, 0);
      NoEdges(num, s.thn, g1);
      if s.els.Else? {
        NoEdges(num, s.els.body, Patch(Emit(CompileStmts(num, s.thn, g1).value, Jump, 0), |f1.code|));
      }
    }
  }

  /** The machine stands on an instruction with exactly the announced depth and one slot per local. */
  ghost predicate Standing(F: Func, depth: seq<nat>, s: State)
    requires WellFormed(F, depth)
  {
    s.pc < |F.code| && |s.stack| == depth[s.pc] && |s.locals| == |F.locals|
  }

  /** How a run of well-formed code may end: by `return`, an error value or an arithmetic panic,
      never by a fault of the machine or by running off the code. */
  predicate CleanEnd(fin: Final) {
    fin.Returned? || fin.Thrown? || fin.Panicked?
  }

  lemma StepStands(h: Host, F: Func, depth: seq<nat>, s: State)
    requires WellFormed(F, depth) && Standing(F, depth, s)
    ensures match Step(h, F, s)
      case Running(next) => Standing(F, depth, next)
      case Halted(fin) => CleanEnd(fin)
    ensures Step(h, F, s).Running? && Forward(F, s.pc) ==> s.pc < Step(h, F, s).s.pc
  {
    assert Sound(F, depth, s.pc);
    if Applies(F.code[s.pc].op) { ApplyStands(h, F, depth, s); }
  }

  /** Instructions that hand operands to an operator or to the host. */
  predicate Applies(op: Op) {
    op.Bin? || op.Un? || op.Call? || op.CallMethod? || op.GetProp? || op.GetElem?
  }

  lemma ApplyStands(h: Host, F: Func, depth: seq<nat>, s: State)
    requires WellFormed(F, depth) && Standing(F, depth, s) && Applies(F.code[s.pc].op)
    ensures match Step(h, F, s)
      case Running(next) => Standing(F, depth, next) && next.pc == s.pc + 1
      case Halted(fin) => CleanEnd(fin)
  {
    assert Sound(F, depth, s.pc);
  }

  lemma {:induction false} RunStands(h: Host, F: Func, depth: seq<nat>, s: State, n: nat)
    requires WellFormed(F, depth) && Standing(F, depth, s)
    ensures match Exec(h, F, Running(s), n)
      case Running(last) => Standing(F, depth, last)
      case Halted(fin) => CleanEnd(fin)
    ensures (forall i :: 0 <= i < |F.code| ==> Forward(F, i)) && Exec(h, F, Running(s), n).Running? ==>
      s.pc + n <= Exec(h, F, Running(s), n).s.pc
    decreases n
  {
    if n > 0 {
      StepStands(h, F, depth, s);
      match Step(h, F, s)
      case Running(next) => RunStands(h, F, depth, next, n - 1);
      case Halted(fin) => assert Exec(h, F, Halted(fin), n - 1) == Halted(fin);
    }
  }

  /** Safety over whole runs: whatever the arguments and the host do, a compiled function keeps one stack depth per
      program point, never underflows, never reads a constant, slot or instruction that is not there, and ends cleanly. */
  lemma BodySafe(h: Host, params: seq<string>, ss: seq<Stmt>, args: seq<Value>, w: World, n: nat) returns (depth: seq<nat>)
    requires CompileBody(h.number, params, ss).Some?
    ensures var F := CompileBody(h.number, params, ss).value;
      && WellFormed(F, depth)
      && match Exec(h, F, Running(Entry(F, args, w)), n)
         case Running(s) => Standing(F, depth, s)
         case Halted(fin) => CleanEnd(fin)
  {
    var F := CompileBody(h.number, params, ss).value;
    depth := BodyWellFormed(h.number, params, ss);
    RunStands(h, F, depth, Entry(F, args, w), n);
  }

  lemma BodyForward(num: Grammar.Numbers, params: seq<string>, ss: seq<Stmt>)
    requires CompileBody(num, params, ss).Some? && AllLoopFree(ss)
    ensures var F := CompileBody(num, params, ss).value; forall i :: 0 <= i < |F.code| ==> Forward(F, i)
  {
    var _ := BodyWellFormed(num, params, ss);
    NoEdges(num, ss, Func([], [], DeclareAll([], params)));
    AllForward(CompileBody(num, params, ss).value, BodyEdges(num, params, ss));
  }

  /** Without `for`, a run takes at most one step per instruction of the function. */
  lemma LoopFreeEnds(h: Host, params: seq<string>, ss: seq<Stmt>, args: seq<Value>, w: World)
    requires CompileBody(h.number, params, ss).Some? && AllLoopFree(ss)
    ensures var F := CompileBody(h.number, params, ss).value;
      var c := Exec(h, F, Running(Entry(F, args, w)), |F.code|);
      c.Halted? && CleanEnd(c.fin)
  {
    var F := CompileBody(h.number, params, ss).value;
    var depth := BodyWellFormed(h.number, params, ss);
    BodyForward(h.number, params, ss);
    RunStands(h, F, depth, Entry(F, args, w), |F.code|);
  }
}
