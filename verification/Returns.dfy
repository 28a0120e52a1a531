/** What compiled functions that return one expression give back, from their texts to their ends. */
module Returns {
  import opened Values
  import opened Bytecode
  import opened Syntax
  import opened Machine
  import opened CodeGen
  import opened Reference
  import opened Simulation
  import opened StmtSimulation
  import opened Calls
  import Grammar
  import Lexer
  import Precedence
  import Printer
  import Utf8

  /** The call of the compiled `function (params) { ss }` ends so. */
  ghost predicate Gives(h: Host, params: seq<string>, ss: seq<Stmt>, args: seq<Value>, w: World, fin: Final) {
    && CompileBody(h.number, params, ss).Some?
    && var F := CompileBody(h.number, params, ss).value;
      Reaches(h, F, Running(Entry(F, args, w)), Halted(fin))
  }

  function EndOf(r: Eval): Final {
    match r
    case Stop(fin) => fin
    case Val(v, env) => Returned(v, env.world)
  }

  /** It gives the value of the tree that the text is read as, in the environment of its arguments. */
  lemma TextReturned(h: Host, params: seq<string>, text: string, e: Expr, args: seq<Value>, w: World)
    requires Distinct(params) && |args| <= |params| && Grammar.Full(h.number, params, text) == Some(e)
    ensures Gives(h, params, [ReturnText(text)], args, w, EndOf(EvalExpr(h, e, params, Bind(params, args, w))))
  {
    hide *;
    DistinctKept(params);
    ReturnCompiled(h.number, params, text);
    DistinctLand(params, args);
    ReturnEnds(h, params, text, e, Bind(params, args, w));
    var fin := EndOf(EvalExpr(h, e, params, Bind(params, args, w)));
    CallCorrect(h, params, [ReturnText(text)], args, w, fin);
    GivesIs(h, params, [ReturnText(text)], args, w, fin);
  }

  lemma GivesIs(h: Host, params: seq<string>, ss: seq<Stmt>, args: seq<Value>, w: World, fin: Final)
    requires CompileBody(h.number, params, ss).Some?
    requires var F := CompileBody(h.number, params, ss).value; Reaches(h, F, Running(Entry(F, args, w)), Halted(fin))
    ensures Gives(h, params, ss, args, w, fin)
  {
    hide CompileBody, Reaches, Entry;
  }

  lemma ReturnCompiled(num: Grammar.Numbers, params: seq<string>, text: string)
    requires DeclareAll([], params) == params && Grammar.Full(num, params, text).Some?
    ensures CompileBody(num, params, [ReturnText(text)]).Some?
    ensures CompileBody(num, params, [ReturnText(text)]).value.locals == params
  {
    var ss, f := [ReturnText(text)], Func([], [], params);
    ReturnStmt(num, text, f);
    hide Grammar.Full, DeclareAll, CompileStmt;
    assert ss[1..] == [];
    assert CompileStmts(num, ss, f) == CompileStmt(num, ss[0], f);
    hide CompileStmts;
  }

  lemma ReturnStmt(num: Grammar.Numbers, text: string, f: Func)
    requires Grammar.Full(num, f.locals, text).Some?
    ensures CompileStmt(num, ReturnText(text), f).Some? && CompileStmt(num, ReturnText(text), f).value.locals == f.locals
  {
    TextGrows(num, text, f);
    hide Grammar.Full, CompileExpr;
  }

  lemma ReturnEnds(h: Host, params: seq<string>, text: string, e: Expr, env: Env)
    requires DeclareAll([], params) == params && Grammar.Full(h.number, params, text) == Some(e)
    ensures EvalBody(h, params, [ReturnText(text)], env, 0) == Done(EndOf(EvalExpr(h, e, params, env)))
  {
    var ss := [ReturnText(text)];
    hide Grammar.Full, DeclareAll, EvalExpr;
    assert EvalText(h, text, params, env) == EvalExpr(h, e, params, env);
    hide EvalText;
    assert EvalStmt(h, ss[0], params, env, 0) == Done(EndOf(EvalExpr(h, e, params, env)));
    hide EvalStmt;
    assert EvalStmts(h, ss, params, env, 0) == EvalStmt(h, ss[0], params, env, 0);
  }

  // ---- three parameters ----

  const Three: seq<string> := ["a", "b", "c"]

  /** The value of a parameter. */
  lemma ParameterIs(h: Host, args: seq<Value>, w: World)
    requires |args| == 3
    ensures Distinct(Three) && |args| <= |Three|
    ensures var env := Bind(Three, args, w); env.world == w && forall w1 :: Has(h, env.(world := w1), args)
    ensures Has(h, Bind(Three, args, w), args)
  {
    assert LastIndexOf(Three, "a") == 0 && LastIndexOf(Three, "b") == 1 && LastIndexOf(Three, "c") == 2;
    hide LastIndexOf;
  }

  lemma TextIs(num: Grammar.Numbers, e: Expr, text: string)
    requires Printer.Printable(num, Three, e) && Precedence.Bare(e) == text && Utf8.Ascii(text)
    ensures Grammar.Full(num, Three, text) == Some(e)
  {
    hide Precedence.Bare, Printer.Printable, Utf8.Ascii, Grammar.Full;
    Precedence.ShowIs(e, 0);
    Precedence.ShownReadsFull(num, Three, e);
  }

  const A := Name("a")
  const B := Name("b")
  const C := Name("c")

  lemma NamesAre(num: Grammar.Numbers)
    ensures forall k: nat :: k <= 9 ==> Precedence.Show(A, k) == "a" && Precedence.Show(B, k) == "b" && Precedence.Show(C, k) == "c"
    ensures Printer.Printable(num, Three, A) && Printer.Printable(num, Three, B) && Printer.Printable(num, Three, C)
  {
    forall k: nat | k <= 9
      ensures Precedence.Show(A, k) == "a" && Precedence.Show(B, k) == "b" && Precedence.Show(C, k) == "c"
    {
      Precedence.NameShown("a", k);
      Precedence.NameShown("b", k);
      Precedence.NameShown("c", k);
    }
  }

  /** The text of a tree in the three parameters returns the value of the tree. */
  lemma TreeReturned(h: Host, e: Expr, text: string, args: seq<Value>, w: World)
    requires Printer.Printable(h.number, Three, e) && Precedence.Bare(e) == text && Utf8.Ascii(text) && |args| == 3
    ensures Gives(h, Three, [ReturnText(text)], args, w, EndOf(EvalExpr(h, e, Three, Bind(Three, args, w))))
  {
    hide *;
    TextIs(h.number, e, text);
    ParameterIs(h, args, w);
    TextReturned(h, Three, text, e, args, w);
  }

  // ---- conditionals ----

  lemma ConditionalText(num: Grammar.Numbers)
    ensures Precedence.Bare(Cond(A, B, C)) == "a ? b : c" && Utf8.Ascii("a ? b : c")
    ensures Printer.Printable(num, Three, Cond(A, B, C))
  {
    NamesAre(num);
    hide Precedence.Show;
  }

  /** `function (a, b, c) { return a ? b : c }` returns its second argument, or its third when the first is false. */
  lemma ConditionalReturns(h: Host, args: seq<Value>, w: World)
    requires |args| == 3
    ensures Gives(h, Three, [ReturnText("a ? b : c")], args, w, Returned(if Truthy(h, args[0]) then args[1] else args[2], w))
  {
    hide *;
    ConditionalText(h.number);
    ParameterIs(h, args, w);
    TreeReturned(h, Cond(A, B, C), "a ? b : c", args, w);
    ChooseIs(h, Bind(Three, args, w), args);
  }

  const Either: seq<Stmt> := [If("a", [ReturnText("b")], Else([ReturnText("c")]))]

  /** `function (a, b, c) { if (a) { return b } else { return c } }` does the same. */
  lemma IfReturns(h: Host, args: seq<Value>, w: World)
    requires |args| == 3
    ensures Gives(h, Three, Either, args, w, Returned(if Truthy(h, args[0]) then args[1] else args[2], w))
  {
    hide *;
    ParameterIs(h, args, w);
    DistinctKept(Three);
    ParametersRead(h.number);
    EitherCompiled(h.number);
    DistinctLand(Three, args);
    EitherMeans(h, Bind(Three, args, w), args);
    var fin := Returned(if Truthy(h, args[0]) then args[1] else args[2], w);
    CallCorrect(h, Three, Either, args, w, fin);
    GivesIs(h, Three, Either, args, w, fin);
  }

  lemma ParametersRead(num: Grammar.Numbers)
    ensures Grammar.Full(num, Three, "a") == Some(A) && Grammar.Full(num, Three, "b") == Some(B)
    ensures Grammar.Full(num, Three, "c") == Some(C)
  {
    NamesAre(num);
    assert Precedence.Bare(A) == "a" && Precedence.Bare(B) == "b" && Precedence.Bare(C) == "c";
    assert Utf8.Ascii("a") && Utf8.Ascii("b") && Utf8.Ascii("c");
    hide *;
    TextIs(num, A, "a");
    TextIs(num, B, "b");
    TextIs(num, C, "c");
  }

  lemma EitherCompiled(num: Grammar.Numbers)
    requires DeclareAll([], Three) == Three && Grammar.Full(num, Three, "a").Some?
    requires Grammar.Full(num, Three, "b").Some? && Grammar.Full(num, Three, "c").Some?
    ensures CompileBody(num, Three, Either).Some? && CompileBody(num, Three, Either).value.locals == Three
  {
    hide *;
    var f := Func([], [], Three);
    TestCompiled(num, f);
    var f1 := CompileText(num, "a", f).value;
    OneCompiled(num, "b", Emit(f1, JumpIfFalse, 0));
    var f2 := CompileStmts(num, [ReturnText("b")], Emit(f1, JumpIfFalse, 0)).value;
    var f3 := CodeGen.Patch(Emit(f2, Jump, 0), |f1.code|);
    PatchedLocals(f2, |f1.code|);
    OneCompiled(num, "c", f3);
    BranchesCompiled(num, f, f1, f2, f3);
  }

  lemma TestCompiled(num: Grammar.Numbers, f: Func)
    requires Grammar.Full(num, f.locals, "a").Some?
    ensures CompileText(num, "a", f).Some? && Emit(CompileText(num, "a", f).value, JumpIfFalse, 0).locals == f.locals
  {
    TextGrows(num, "a", f);
    hide Grammar.Full, CompileExpr;
  }

  lemma OneCompiled(num: Grammar.Numbers, text: string, f: Func)
    requires Grammar.Full(num, f.locals, text).Some?
    ensures CompileStmts(num, [ReturnText(text)], f).Some?
    ensures CompileStmts(num, [ReturnText(text)], f).value.locals == f.locals
  {
    var ss := [ReturnText(text)];
    ReturnStmt(num, text, f);
    hide Grammar.Full, CompileStmt;
    assert ss[1..] == [];
    assert CompileStmts(num, ss, f) == CompileStmt(num, ss[0], f);
  }

  lemma PatchedLocals(f: Func, at: nat)
    ensures CodeGen.Patch(Emit(f, Jump, 0), at).locals == f.locals
  {
  }

  lemma BranchesCompiled(num: Grammar.Numbers, f: Func, f1: Func, f2: Func, f3: Func)
    requires f == Func([], [], Three) && DeclareAll([], Three) == Three && CompileText(num, "a", f) == Some(f1)
    requires CompileStmts(num, [ReturnText("b")], Emit(f1, JumpIfFalse, 0)) == Some(f2)
    requires f3 == CodeGen.Patch(Emit(f2, Jump, 0), |f1.code|) && CompileStmts(num, [ReturnText("c")], f3).Some?
    requires CompileStmts(num, [ReturnText("c")], f3).value.locals == Three
    ensures CompileBody(num, Three, Either).Some? && CompileBody(num, Three, Either).value.locals == Three
  {
    hide CompileText, DeclareAll;
    var f4 := CompileStmts(num, [ReturnText("c")], f3).value;
    hide CompileStmts;
    assert CompileStmt(num, Either[0], f) == Some(CodeGen.Patch(f4, |f2.code|));
    EitherBody(num, f, CodeGen.Patch(f4, |f2.code|));
  }

  lemma EitherBody(num: Grammar.Numbers, f: Func, g: Func)
    requires f == Func([], [], Three) && DeclareAll([], Three) == Three && CompileStmt(num, Either[0], f) == Some(g)
    requires g.locals == Three
    ensures CompileBody(num, Three, Either).Some? && CompileBody(num, Three, Either).value.locals == Three
  {
    hide CompileStmt, DeclareAll;
    assert Either[1..] == [];
    assert CompileStmts(num, Either, f) == Some(g);
  }

  lemma EitherMeans(h: Host, env: Env, args: seq<Value>)
    requires Has(h, env, args) && DeclareAll([], Three) == Three
    requires Grammar.Full(h.number, Three, "a") == Some(A) && Grammar.Full(h.number, Three, "b") == Some(B)
    requires Grammar.Full(h.number, Three, "c") == Some(C)
    ensures EvalBody(h, Three, Either, env, 0)
      == Done(Returned(if Truthy(h, args[0]) then args[1] else args[2], env.world))
  {
    ReturnEnds(h, Three, "b", B, env);
    ReturnEnds(h, Three, "c", C, env);
    BranchScope();
    hide Grammar.Full, DeclareAll, EvalExpr, Truthy, ScopeAfterAll;
    assert EvalText(h, "a", Three, env) == Val(args[0], env);
    hide EvalText;
    EitherStmt(h, env, args[0]);
    hide EvalStmts;
  }

  lemma BranchScope()
    ensures ScopeAfterAll([ReturnText("b")], Three) == Three
  {
    assert [ReturnText("b")][1..] == [];
  }

  lemma EitherStmt(h: Host, env: Env, v: Value)
    requires EvalText(h, "a", Three, env) == Val(v, env) && ScopeAfterAll([ReturnText("b")], Three) == Three
    ensures EvalStmts(h, Either, Three, env, 0)
      == var r := EvalStmts(h, if Truthy(h, v) then [ReturnText("b")] else [ReturnText("c")], Three, env, 0);
         if r.Next? then EvalStmts(h, [], ScopeAfter(Either[0], Three), r.env, 0) else r
  {
    hide EvalText, Truthy, ScopeAfterAll, ScopeAfter;
    assert Either[1..] == [];
    assert EvalStmt(h, Either[0], Three, env, 0)
      == EvalStmts(h, if Truthy(h, v) then [ReturnText("b")] else [ReturnText("c")], Three, env, 0);
  }

  /** The values of the three parameters. */
  ghost predicate Has(h: Host, env: Env, args: seq<Value>) {
    && |args| == 3
    && EvalExpr(h, A, Three, env) == Val(args[0], env)
    && EvalExpr(h, B, Three, env) == Val(args[1], env)
    && EvalExpr(h, C, Three, env) == Val(args[2], env)
  }

  lemma ChooseIs(h: Host, env: Env, args: seq<Value>)
    requires Has(h, env, args)
    ensures EndOf(EvalExpr(h, Cond(A, B, C), Three, env)) == Returned(if Truthy(h, args[0]) then args[1] else args[2], env.world)
  {
    hide Truthy, Reference.Read;
  }

  // ---- literals ----

  /** The value a literal stands for. */
  function LiteralMeans(num: Grammar.Numbers, lit: Literal): Value
    requires lit.Number? ==> num(lit.lexeme).Some?
  {
    match lit
    case Number(s) => num(s).value
    case Text(s) => Str(s)
    case True => Bool(true)
    case False => Bool(false)
    case NullWord => Null
    case UndefinedWord => Undefined
  }

  /** A literal returns what it stands for: a number text the number the host reads, a quoted text the string. */
  lemma LiteralReturns(h: Host, lit: Literal, args: seq<Value>, w: World)
    requires |args| == 3 && Printer.Printable(h.number, Three, Lit(lit)) && Utf8.Ascii(Printer.LiteralText(lit))
    ensures lit.Number? ==> h.number(lit.lexeme).Some?
    ensures Gives(h, Three, [ReturnText(Printer.LiteralText(lit))], args, w, Returned(LiteralMeans(h.number, lit), w))
  {
    LiteralIs(h, lit, Bind(Three, args, w));
    hide *;
    LiteralShown(lit);
    TreeReturned(h, Lit(lit), Printer.LiteralText(lit), args, w);
    BindWorld(Three, args, w);
  }

  lemma LiteralShown(lit: Literal)
    ensures Precedence.Bare(Lit(lit)) == Printer.LiteralText(lit)
  {
  }

  lemma LiteralIs(h: Host, lit: Literal, env: Env)
    requires Printer.Printable(h.number, Three, Lit(lit))
    ensures lit.Number? ==> h.number(lit.lexeme).Some?
    ensures EndOf(EvalExpr(h, Lit(lit), Three, env)) == Returned(LiteralMeans(h.number, lit), env.world)
  {
    hide Lexer.NumberEnd;
  }

  /** A prefix `+` gives its operand back, whatever it is; `-` and the other signs ask the operator. */
  lemma SignsReturn(h: Host, args: seq<Value>, w: World)
    requires |args| == 3
    ensures Gives(h, Three, [ReturnText("+a")], args, w, Returned(args[0], w))
    ensures Gives(h, Three, [ReturnText("-a")], args, w, EndOfCall(Unary(h, Neg, args[0], w)))
    ensures Gives(h, Three, [ReturnText("!a")], args, w, EndOfCall(Unary(h, Not, args[0], w)))
    ensures Gives(h, Three, [ReturnText("~a")], args, w, EndOfCall(Unary(h, BitNot, args[0], w)))
    ensures Gives(h, Three, [ReturnText("Number(a)")], args, w, EndOfCall(Unary(h, ToNumber, args[0], w)))
  {
    hide *;
    SignReturns(h, Plus, "+a", args, w);
    SignReturns(h, Prefix(Neg), "-a", args, w);
    SignReturns(h, Prefix(Not), "!a", args, w);
    SignReturns(h, Prefix(BitNot), "~a", args, w);
    SignReturns(h, Prefix(ToNumber), "Number(a)", args, w);
    PlusAnswer(h, args[0], w);
  }

  function SignAnswer(h: Host, op: Op1, v: Value, w: World): Outcome
    requires !op.Member?
  {
    match op
    case Plus => Ok(v, w)
    case Prefix(u) => Unary(h, u, v, w)
  }

  lemma PlusAnswer(h: Host, v: Value, w: World)
    ensures EndOfCall(SignAnswer(h, Plus, v, w)) == Returned(v, w)
    ensures forall u: UnOp :: SignAnswer(h, Prefix(u), v, w) == Unary(h, u, v, w)
  {
    hide Unary;
  }

  lemma SignReturns(h: Host, op: Op1, text: string, args: seq<Value>, w: World)
    requires |args| == 3 && !op.Member?
    requires text == match op
      case Plus => "+a"
      case Prefix(Neg) => "-a"
      case Prefix(Not) => "!a"
      case Prefix(BitNot) => "~a"
      case Prefix(ToNumber) => "Number(a)"
    ensures Gives(h, Three, [ReturnText(text)], args, w, EndOfCall(SignAnswer(h, op, args[0], w)))
  {
    SignText(h.number, op, text);
    hide *;
    ParameterIs(h, args, w);
    TreeReturned(h, Unop(op, A), text, args, w);
    SignIs(h, op, Bind(Three, args, w), args);
  }

  lemma SignText(num: Grammar.Numbers, op: Op1, text: string)
    requires !op.Member?
    requires text == match op
      case Plus => "+a"
      case Prefix(Neg) => "-a"
      case Prefix(Not) => "!a"
      case Prefix(BitNot) => "~a"
      case Prefix(ToNumber) => "Number(a)"
    ensures Precedence.Bare(Unop(op, A)) == text && Utf8.Ascii(text) && Printer.Printable(num, Three, Unop(op, A))
  {
    NamesAre(num);
    hide Precedence.Show;
  }

  lemma SignIs(h: Host, op: Op1, env: Env, args: seq<Value>)
    requires Has(h, env, args) && !op.Member?
    ensures EndOf(EvalExpr(h, Unop(op, A), Three, env)) == EndOfCall(SignAnswer(h, op, args[0], env.world))
  {
    hide Reference.Read, Unary;
  }

  // ---- differences ----

  lemma DifferenceText(num: Grammar.Numbers)
    ensures var e := Binop(Infix(Sub), Binop(Infix(Sub), A, B), C);
      Precedence.Bare(e) == "a - b - c" && Utf8.Ascii("a - b - c") && Printer.Printable(num, Three, e)
  {
    var l := Binop(Infix(Sub), A, B);
    NamesAre(num);
    hide Precedence.Show;
    Precedence.ShowIs(l, 6);
    assert Precedence.Bare(l) == "a - b";
  }

  /** `function (a, b, c) { return a - b - c }` takes both away from the first. */
  lemma DifferenceReturns(h: Host, x: i32, y: i32, z: i32, w: World)
    requires FitsI32(x - y) && FitsI32(x - y - z)
    ensures Gives(h, Three, [ReturnText("a - b - c")], [Int(x), Int(y), Int(z)], w, Returned(Int(x - y - z), w))
  {
    hide *;
    var args := [Int(x), Int(y), Int(z)];
    DifferenceText(h.number);
    ParameterIs(h, args, w);
    TreeReturned(h, Binop(Infix(Sub), Binop(Infix(Sub), A, B), C), "a - b - c", args, w);
    DifferenceIs(h, Bind(Three, args, w), x, y, z);
  }

  lemma DifferenceIs(h: Host, env: Env, x: i32, y: i32, z: i32)
    requires Has(h, env, [Int(x), Int(y), Int(z)]) && FitsI32(x - y) && FitsI32(x - y - z)
    ensures EndOf(EvalExpr(h, Binop(Infix(Sub), Binop(Infix(Sub), A, B), C), Three, env)) == Returned(Int(x - y - z), env.world)
  {
    hide Reference.Read;
    assert EvalExpr(h, Binop(Infix(Sub), A, B), Three, env) == Val(Int(x - y), env);
  }

  // ---- calls ----

  function TwoArgs(): Args {
    Snoc(Snoc(NoArgs, B), C)
  }

  lemma ArgsAre(num: Grammar.Numbers)
    ensures Precedence.ShowArgs(TwoArgs()) == "b, c" && Printer.AllPrintable(num, Three, TwoArgs())
    ensures Precedence.Receiver(A) == "a" && Precedence.Callee(A) == "a"
  {
    NamesAre(num);
    hide Precedence.Show, Printer.Printable;
    assert Precedence.ShowArgs(Snoc(NoArgs, B)) == "b";
    assert Printer.AllPrintable(num, Three, Snoc(NoArgs, B));
  }

  lemma CallTexts(num: Grammar.Numbers)
    ensures Precedence.Bare(Apply(A, TwoArgs())) == "a(b, c)" && Utf8.Ascii("a(b, c)")
    ensures Printer.Printable(num, Three, Apply(A, TwoArgs()))
    ensures Precedence.Bare(Invoke(A, "f", TwoArgs())) == "a.f(b, c)" && Utf8.Ascii("a.f(b, c)")
    ensures Printer.Printable(num, Three, Invoke(A, "f", TwoArgs()))
  {
    NamesAre(num);
    ArgsAre(num);
    hide Precedence.Show, Precedence.ShowArgs, Precedence.Receiver, Precedence.Callee, Printer.AllPrintable, TwoArgs;
  }

  function EndOfCall(o: Outcome): Final {
    match o
    case Ok(v, w) => Returned(v, w)
    case Throw(v, w) => Thrown(v, w)
    case Panic => Panicked
  }

  /** `function (a, b, c) { return a(b, c) }` ends as the call of its first argument with the two others, in this order,
      and no receiver. */
  lemma CallReturned(h: Host, args: seq<Value>, w: World)
    requires |args| == 3
    ensures Gives(h, Three, [ReturnText("a(b, c)")], args, w, EndOfCall(h.call(args[0], None, [args[1], args[2]], w)))
  {
    hide *;
    CallTexts(h.number);
    ParameterIs(h, args, w);
    TreeReturned(h, Apply(A, TwoArgs()), "a(b, c)", args, w);
    CallIs(h, Bind(Three, args, w), args);
  }

  lemma ArgsValue(h: Host, env: Env, args: seq<Value>)
    requires Has(h, env, args)
    ensures EvalAll(h, TwoArgs(), Three, env) == Vals([args[1], args[2]], env)
  {
    hide EvalExpr;
    assert [] + [args[1]] == [args[1]];
    assert EvalAll(h, NoArgs, Three, env) == Vals([], env);
    assert EvalAll(h, Snoc(NoArgs, B), Three, env) == Vals([args[1]], env);
    assert [args[1]] + [args[2]] == [args[1], args[2]];
  }

  lemma CallIs(h: Host, env: Env, args: seq<Value>)
    requires Has(h, env, args)
    ensures EndOf(EvalExpr(h, Apply(A, TwoArgs()), Three, env))
      == EndOfCall(h.call(args[0], None, [args[1], args[2]], env.world))
  {
    ArgsValue(h, env, args);
    hide EvalAll, TwoArgs, Reference.Read;
  }

  /** `function (a, b, c) { return a.f(b, c) }` reads the property first and then calls it on the object. */
  lemma MethodReturned(h: Host, args: seq<Value>, w: World)
    requires |args| == 3
    ensures Gives(h, Three, [ReturnText("a.f(b, c)")], args, w,
              match h.getProp(args[0], Str("f"), w)
              case Ok(g, w1) => EndOfCall(h.call(g, Some(args[0]), [args[1], args[2]], w1))
              case other => EndOfCall(other))
  {
    hide *;
    CallTexts(h.number);
    ParameterIs(h, args, w);
    TreeReturned(h, Invoke(A, "f", TwoArgs()), "a.f(b, c)", args, w);
    MethodIs(h, Bind(Three, args, w), args);
    BindWorld(Three, args, w);
  }

  lemma MethodIs(h: Host, env: Env, args: seq<Value>)
    requires Has(h, env, args) && forall w1 :: Has(h, env.(world := w1), args)
    ensures EndOf(EvalExpr(h, Invoke(A, "f", TwoArgs()), Three, env))
      == match h.getProp(args[0], Str("f"), env.world)
         case Ok(g, w1) => EndOfCall(h.call(g, Some(args[0]), [args[1], args[2]], w1))
         case other => EndOfCall(other)
  {
    forall w1 ensures EvalAll(h, TwoArgs(), Three, env.(world := w1)) == Vals([args[1], args[2]], env.(world := w1)) {
      ArgsValue(h, env.(world := w1), args);
    }
    hide EvalAll, TwoArgs, Reference.Read;
  }

  lemma ReadTexts(num: Grammar.Numbers)
    ensures Precedence.Bare(Unop(Member("f"), A)) == "a.f" && Utf8.Ascii("a.f")
    ensures Printer.Printable(num, Three, Unop(Member("f"), A))
    ensures Precedence.Bare(Binop(Index, A, B)) == "a[b]" && Utf8.Ascii("a[b]")
    ensures Printer.Printable(num, Three, Binop(Index, A, B))
  {
    NamesAre(num);
    ArgsAre(num);
    hide Precedence.Show, Precedence.Receiver;
  }

  /** `return a.f` and `return a[b]` are the host's reads of that object, with that name or that index. */
  lemma ReadsReturn(h: Host, args: seq<Value>, w: World)
    requires |args| == 3
    ensures Gives(h, Three, [ReturnText("a.f")], args, w, EndOfCall(h.getProp(args[0], Str("f"), w)))
    ensures Gives(h, Three, [ReturnText("a[b]")], args, w, EndOfCall(h.getElem(args[0], args[1], w)))
  {
    hide *;
    ReadTexts(h.number);
    ParameterIs(h, args, w);
    TreeReturned(h, Unop(Member("f"), A), "a.f", args, w);
    TreeReturned(h, Binop(Index, A, B), "a[b]", args, w);
    ReadsAre(h, Bind(Three, args, w), args);
  }

  lemma ReadsAre(h: Host, env: Env, args: seq<Value>)
    requires Has(h, env, args)
    ensures EndOf(EvalExpr(h, Unop(Member("f"), A), Three, env)) == EndOfCall(h.getProp(args[0], Str("f"), env.world))
    ensures EndOf(EvalExpr(h, Binop(Index, A, B), Three, env)) == EndOfCall(h.getElem(args[0], args[1], env.world))
  {
    hide Reference.Read;
  }

  // ---- stores ----

  /** `a = b, a` and `g = b, g` */
  function Stored(x: string): Expr {
    Sequence(Assign(x, B), Name(x))
  }

  lemma StoreTexts(num: Grammar.Numbers)
    ensures Precedence.Bare(Stored("a")) == "a = b, a" && Utf8.Ascii("a = b, a") && Printer.Printable(num, Three, Stored("a"))
    ensures Precedence.Bare(Stored("g")) == "g = b, g" && Utf8.Ascii("g = b, g") && Printer.Printable(num, Three, Stored("g"))
  {
    StoreText(num, "a");
    StoreText(num, "g");
  }

  lemma StoreText(num: Grammar.Numbers, x: string)
    requires Lexer.IsIdentifier(x) && !Printer.IsKeyword(x)
    ensures Precedence.Bare(Stored(x)) == x + " = b" + ", " + x && Printer.Printable(num, Three, Stored(x))
  {
    var e := Assign(x, B);
    NamesAre(num);
    Precedence.NameShown(x, 1);
    Precedence.ShowIs(e, 0);
    hide Precedence.Show;
    assert Precedence.Bare(e) == x + " = b";
  }

  /** A store to a local is what is read from it next, and leaves no trace outside; a store to any other name makes a
      global of that name. */
  lemma StoresReturn(h: Host, args: seq<Value>, w: World)
    requires |args| == 3
    ensures Gives(h, Three, [ReturnText("a = b, a")], args, w, Returned(args[1], w))
    ensures Gives(h, Three, [ReturnText("g = b, g")], args, w, Returned(args[1], w.(globals := w.globals["g" := args[1]])))
  {
    hide *;
    StoreTexts(h.number);
    ParameterIs(h, args, w);
    TreeReturned(h, Stored("a"), "a = b, a", args, w);
    TreeReturned(h, Stored("g"), "g = b, g", args, w);
    StoresAre(h, Bind(Three, args, w), args);
  }

  lemma StoresAre(h: Host, env: Env, args: seq<Value>)
    requires Has(h, env, args)
    ensures EndOf(EvalExpr(h, Stored("a"), Three, env)) == Returned(args[1], env.world)
    ensures EndOf(EvalExpr(h, Stored("g"), Three, env))
      == Returned(args[1], env.world.(globals := env.world.globals["g" := args[1]]))
  {
    StoreIs(h, "a", env, args[1]);
    StoreIs(h, "g", env, args[1]);
  }

  lemma StoreIs(h: Host, x: string, env: Env, v: Value)
    requires EvalExpr(h, B, Three, env) == Val(v, env)
    ensures EndOf(EvalExpr(h, Stored(x), Three, env))
      == Returned(v, if x in Three then env.world else env.world.(globals := env.world.globals[x := v]))
  {
    var env1 := Write(x, v, Three, env);
    assert EvalExpr(h, Assign(x, B), Three, env) == Val(v, env1);
    hide Three;
  }

  function Overwritten(): Expr {
    Update("a", Add, Assign("a", B))
  }

  lemma OverwrittenText(num: Grammar.Numbers)
    ensures Precedence.Bare(Overwritten()) == "a += (a = b)" && Utf8.Ascii("a += (a = b)")
    ensures Printer.Printable(num, Three, Overwritten())
  {
    var e := Assign("a", B);
    NamesAre(num);
    Precedence.ShowIs(e, 6);
    hide Precedence.Show;
    assert Precedence.Bare(e) == "a = b";
  }

  /** `+=` reads the variable before its operand runs, even when that operand changes the variable. */
  lemma UpdateReturns(h: Host, x: i32, y: i32, v: Value, w: World)
    requires FitsI32(x + y)
    ensures Gives(h, Three, [ReturnText("a += (a = b)")], [Int(x), Int(y), v], w, Returned(Int(x + y), w))
  {
    hide *;
    var args := [Int(x), Int(y), v];
    OverwrittenText(h.number);
    ParameterIs(h, args, w);
    TreeReturned(h, Overwritten(), "a += (a = b)", args, w);
    OverwrittenIs(h, Bind(Three, args, w), x, y, v);
  }

  lemma OverwrittenIs(h: Host, env: Env, x: i32, y: i32, v: Value)
    requires Has(h, env, [Int(x), Int(y), v]) && FitsI32(x + y)
    ensures EndOf(EvalExpr(h, Overwritten(), Three, env)) == Returned(Int(x + y), env.world)
  {
    assert "a" in Three;
    assert EvalExpr(h, Assign("a", B), Three, env) == Val(Int(y), Write("a", Int(y), Three, env));
    hide Three;
  }

  // ---- no value ----

  /** A function that returns nothing, in either way, returns undefined. */
  lemma NothingReturned(h: Host, args: seq<Value>, w: World)
    requires |args| <= 3
    ensures Gives(h, Three, [], args, w, Returned(Undefined, w))
    ensures Gives(h, Three, [ReturnVoid], args, w, Returned(Undefined, w))
  {
    hide *;
    ThreeDistinct();
    DistinctKept(Three);
    DistinctLand(Three, args);
    NothingCompiles(h.number);
    NothingMeans(h, Bind(Three, args, w));
    BindWorld(Three, args, w);
    CallCorrect(h, Three, [], args, w, Returned(Undefined, w));
    GivesIs(h, Three, [], args, w, Returned(Undefined, w));
    CallCorrect(h, Three, [ReturnVoid], args, w, Returned(Undefined, w));
    GivesIs(h, Three, [ReturnVoid], args, w, Returned(Undefined, w));
  }

  lemma ThreeDistinct()
    ensures Distinct(Three) && |Three| == 3
  {
  }

  lemma NothingCompiles(num: Grammar.Numbers)
    requires DeclareAll([], Three) == Three
    ensures CompileBody(num, Three, []).Some? && CompileBody(num, Three, []).value.locals == Three
    ensures CompileBody(num, Three, [ReturnVoid]).Some? && CompileBody(num, Three, [ReturnVoid]).value.locals == Three
  {
    hide DeclareAll;
    assert [ReturnVoid][1..] == [];
  }

  lemma NothingMeans(h: Host, env: Env)
    requires DeclareAll([], Three) == Three
    ensures EvalBody(h, Three, [], env, 0) == Done(Returned(Undefined, env.world))
    ensures EvalBody(h, Three, [ReturnVoid], env, 0) == Done(Returned(Undefined, env.world))
  {
    hide DeclareAll;
    assert EvalStmt(h, ReturnVoid, Three, env, 0) == Done(Returned(Undefined, env.world));
    assert EvalStmts(h, [ReturnVoid], Three, env, 0) == EvalStmt(h, ReturnVoid, Three, env, 0);
  }
}
