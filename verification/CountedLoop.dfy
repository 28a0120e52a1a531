/** A counting loop from its text to its end: how many rounds `for (var i = 0; i < n; i++)` takes, and a compiled function
    that counts them. */
module CountedLoop {
  import opened Values
  import opened Bytecode
  import opened Syntax
  import opened Machine
  import opened CodeGen
  import opened Reference
  import opened Simulation
  import opened StmtSimulation
  import opened Calls
  import Grammar
  import Lexer
  import Literals
  import Keywords
  import Precedence
  import Printer
  import Returns
  import Texts
  import UpdateForms
  import Updates
  import Utf8

  /** `for (var x = 0; x < n; x++) { body }` */
  function Counted(x: string, n: string, body: seq<Stmt>): Stmt {
    For(Some(VarInit(x, "0")), Some(Below(x, n)), body, Some(x + "++"))
  }

  function Below(x: string, n: string): string {
    x + (" < " + n)
  }

  /** Two different local variables with names that stand for variables. */
  predicate TwoLocals(x: string, n: string, scope: seq<string>) {
    && Lexer.IsIdentifier(x) && Lexer.IsIdentifier(n) && !Printer.IsKeyword(x) && !Printer.IsKeyword(n)
    && x != n && x in scope && n in scope
  }

  ghost predicate Holds(env: Env, x: string, a: i32, n: string, b: i32) {
    Lookup(env, x) == Int(a) && Lookup(env, n) == Int(b)
  }

  lemma BelowReads(num: Grammar.Numbers, scope: seq<string>, x: string, n: string)
    requires TwoLocals(x, n, scope)
    ensures Grammar.Full(num, scope, Below(x, n)) == Some(Binop(Infix(Lt), Name(x), Name(n)))
  {
    var e := Binop(Infix(Lt), Name(x), Name(n));
    BelowShown(x, n);
    Literals.IdentifierAscii(x);
    Literals.IdentifierAscii(n);
    assert Printer.Printable(num, scope, e);
    assert Utf8.Ascii(Below(x, n));
    hide *;
    Precedence.ShownReadsFull(num, scope, e);
  }

  lemma BelowShown(x: string, n: string)
    ensures Precedence.Show(Binop(Infix(Lt), Name(x), Name(n)), 0) == Below(x, n)
  {
    Precedence.NameShown(x, 4);
    Precedence.NameShown(n, 5);
    assert Precedence.Spaced(Lt) == " < ";
  }

  /** The test of two integers. */
  lemma TestMeans(h: Host, x: string, n: string, scope: seq<string>, env: Env, a: i32, b: i32)
    requires TwoLocals(x, n, scope) && Holds(env, x, a, n, b)
    ensures EvalText(h, Below(x, n), scope, env) == Val(Bool(a < b), env)
  {
    BelowReads(h.number, scope, x, n);
    hide Grammar.Full, Lookup, Below;
    var e := Binop(Infix(Lt), Name(x), Name(n));
    assert EvalExpr(h, Name(x), scope, env) == Val(Int(a), env);
    assert EvalExpr(h, Name(n), scope, env) == Val(Int(b), env);
    assert EvalExpr(h, e, scope, env) == Val(Bool(a < b), env);
  }

  /** One more, while it still fits. */
  lemma UpdateIs(h: Host, x: string, scope: seq<string>, env: Env, a: i32)
    requires Lexer.IsIdentifier(x) && x in scope && Lookup(env, x) == Int(a) && FitsI32(a + 1)
    ensures EvalUpdate(h, x + "++", scope, env) == Next(Stepped(env, x, a))
  {
    hide EvalUpdate, IncrementForm, Lexer.IsIdentifier, Lookup, Updates.Spells, Updates.WellSpelled;
    UpdateSpelled(x);
    IndexOfFirst(scope, x);
    UpdateForms.Recognised(x + "++", Updates.Step(x, true, false), scope);
    UpdateMeans(h, x + "++", scope, env);
  }

  lemma UpdateSpelled(x: string)
    requires Lexer.IsIdentifier(x)
    ensures var b := Updates.Step(x, true, false);
      Updates.Spells(x + "++", b) && Updates.WellSpelled(b) && Wrap32(Updates.Amount(b)) == 1
  {
    var b := Updates.Step(x, true, false);
    assert x + "++" == "" + (Updates.Joined(b, "", "") + "");
    assert Updates.SpelledWith(x + "++", b, "", "", "", "");
  }

  /** What the body of a round keeps: it runs to its end with the two variables as they were, and with what holds at one
      count it makes what holds at the next. */
  ghost predicate Keeps(h: Host, body: seq<Stmt>, x: string, n: string, scope: seq<string>, b: i32, inv: (Env, int) -> bool) {
    && x in ScopeAfterAll(body, scope)
    && forall env, a: i32, fuel :: Holds(env, x, a, n, b) && a < b && inv(env, a) ==>
      Kept(EvalStmts(h, body, scope, env, fuel), x, n, a, b, inv)
  }

  ghost predicate Kept(r: Exit, x: string, n: string, a: i32, b: i32, inv: (Env, int) -> bool)
    requires a < b
  {
    r.Next? && Holds(r.env, x, a, n, b) && inv(Stepped(r.env, x, a), a + 1)
  }

  function Stepped(env: Env, x: string, a: i32): Env
    requires FitsI32(a + 1)
  {
    env.(locals := env.locals[x := Int(a + 1)])
  }

  /** The rounds left when the counter is at `a` and the bound is `b`. */
  function Left(a: int, b: int): nat {
    if a < b then b - a else 0
  }

  /** The loop takes as many rounds as its counter is below its bound: with less fuel it is cut off, with that much it
      ends, and what the body keeps holds at its end. */
  lemma {:induction false} Rounds(h: Host, x: string, n: string, body: seq<Stmt>, scope: seq<string>, env: Env, a: i32, b: i32,
                                  inv: (Env, int) -> bool, fuel: nat)
    requires TwoLocals(x, n, scope) && Keeps(h, body, x, n, scope, b, inv) && Holds(env, x, a, n, b) && inv(env, a)
    ensures var r := EvalLoop(h, Counted(x, n, body), scope, env, fuel);
      if fuel < Left(a, b) then r == NoFuel
      else var z := if a < b then b else a; r.Next? && Holds(r.env, x, z, n, b) && inv(r.env, z)
    decreases fuel
  {
    hide *;
    TestMeans(h, x, n, scope, env, a, b);
    if a >= b || fuel == 0 {
      LoopEnds(h, x, n, body, scope, env, fuel);
      LeftOver(a, b);
    } else {
      var r := EvalStmts(h, body, scope, env, fuel);
      BodyKeeps(h, x, n, body, scope, env, a, b, inv, fuel);
      OneRound(h, x, n, body, scope, r.env, a, b);
      var env3 := Stepped(r.env, x, a);
      LoopGoesOn(h, x, n, body, scope, env, r.env, env3, fuel);
      Rounds(h, x, n, body, scope, env3, a + 1, b, inv, fuel - 1);
      LeftOver(a, b);
    }
  }

  lemma LeftOver(a: int, b: int)
    ensures a >= b ==> Left(a, b) == 0
    ensures a < b ==> Left(a, b) == Left(a + 1, b) + 1 && Left(a, b) > 0
  {
  }

  lemma BodyKeeps(h: Host, x: string, n: string, body: seq<Stmt>, scope: seq<string>, env: Env, a: i32, b: i32,
                  inv: (Env, int) -> bool, fuel: nat)
    requires Keeps(h, body, x, n, scope, b, inv) && Holds(env, x, a, n, b) && a < b && inv(env, a)
    ensures var r := EvalStmts(h, body, scope, env, fuel);
      r.Next? && Holds(r.env, x, a, n, b) && FitsI32(a + 1) && inv(Stepped(r.env, x, a), a + 1)
    ensures x in ScopeAfterAll(body, scope)
  {
    hide EvalStmts, Holds, ScopeAfterAll, Stepped;
    assert Kept(EvalStmts(h, body, scope, env, fuel), x, n, a, b, inv);
  }

  /** A loop whose test fails is over, and one without fuel is cut off. */
  lemma LoopEnds(h: Host, x: string, n: string, body: seq<Stmt>, scope: seq<string>, env: Env, fuel: nat)
    requires EvalText(h, Below(x, n), scope, env).Val? && EvalText(h, Below(x, n), scope, env).v.Bool?
    ensures var r := EvalText(h, Below(x, n), scope, env);
      && (!r.v.b ==> EvalLoop(h, Counted(x, n, body), scope, env, fuel) == Next(r.env))
      && (r.v.b && fuel == 0 ==> EvalLoop(h, Counted(x, n, body), scope, env, fuel) == NoFuel)
  {
    hide EvalText, EvalStmts, EvalUpdate, Below;
  }

  lemma LoopGoesOn(h: Host, x: string, n: string, body: seq<Stmt>, scope: seq<string>, env: Env, env2: Env, env3: Env, fuel: nat)
    requires fuel > 0 && EvalText(h, Below(x, n), scope, env) == Val(Bool(true), env)
    requires EvalStmts(h, body, scope, env, fuel) == Next(env2)
    requires EvalUpdate(h, x + "++", ScopeAfterAll(body, scope), env2) == Next(env3)
    ensures var s := Counted(x, n, body); EvalLoop(h, s, scope, env, fuel) == EvalLoop(h, s, scope, env3, fuel - 1)
  {
    hide EvalText, EvalStmts, EvalUpdate, Below, ScopeAfterAll;
  }

  lemma OneRound(h: Host, x: string, n: string, body: seq<Stmt>, scope: seq<string>, env: Env, a: i32, b: i32)
    requires TwoLocals(x, n, scope) && x in ScopeAfterAll(body, scope) && Holds(env, x, a, n, b) && a < b
    ensures FitsI32(a + 1) && Holds(Stepped(env, x, a), x, a + 1, n, b)
    ensures EvalUpdate(h, x + "++", ScopeAfterAll(body, scope), env) == Next(Stepped(env, x, a))
  {
    hide EvalUpdate, ScopeAfterAll;
    UpdateIs(h, x, ScopeAfterAll(body, scope), env, a);
  }

  // ---- function (n) { var c = 0; for (var i = 0; i < n; i++) { c = c + 1 } return c } ----

  const Body: seq<Stmt> := [ExprStmt("c = c + 1")]

  const CountTo: seq<Stmt> := [VarInit("c", "0"), Counted("i", "n", Body), ReturnText("c")]

  const Scope: seq<string> := ["n", "c", "i"]

  /** The host reads these two numerals as integers. */
  predicate ReadsBits(num: Grammar.Numbers) {
    num("0") == Some(Int(0)) && num("1") == Some(Int(1))
  }

  function Most(b: int): nat {
    if 0 < b then b else 0
  }

  lemma DigitToken(num: Grammar.Numbers, s: string)
    requires (s == "0" || s == "1") && ReadsBits(num)
    ensures Printer.IsNumberText(num, s)
  {
    assert Texts.SkipDigits(s + ")", 1) == 1;
    assert Texts.SkipDigits(s + ")", 0) == 1;
  }

  lemma DigitReads(num: Grammar.Numbers, scope: seq<string>, s: string)
    requires (s == "0" || s == "1") && ReadsBits(num)
    ensures Grammar.Full(num, scope, s) == Some(Lit(Number(s)))
  {
    DigitToken(num, s);
    var e := Lit(Number(s));
    assert Printer.Printable(num, scope, e) && Precedence.Show(e, 0) == s && Utf8.Ascii(s);
    hide *;
    Precedence.ShownReadsFull(num, scope, e);
  }

  function Increase(): Expr {
    Assign("c", OneMore())
  }

  lemma PlusReads(num: Grammar.Numbers, scope: seq<string>)
    requires ReadsBits(num)
    ensures Grammar.Full(num, scope, "c = c + 1") == Some(Increase())
  {
    PlusShown();
    PlusPrintable(num, scope);
    assert Utf8.Ascii("c = c + 1");
    hide *;
    Precedence.ShownReadsFull(num, scope, Increase());
  }

  lemma PlusPrintable(num: Grammar.Numbers, scope: seq<string>)
    requires ReadsBits(num)
    ensures Printer.Printable(num, scope, Increase())
  {
    DigitToken(num, "1");
    hide Printer.IsNumberText;
    var sum := Binop(Infix(Add), Name("c"), Lit(Number("1")));
    assert Printer.Printable(num, scope, Lit(Number("1"))) && Printer.Printable(num, scope, Name("c"));
    assert Printer.Printable(num, scope, sum);
  }

  lemma PlusShown()
    ensures Precedence.Show(Increase(), 0) == "c = c + 1"
  {
    var one, c := Lit(Number("1")), Name("c");
    var sum := Binop(Infix(Add), c, one);
    assert Precedence.Show(one, 7) == "1" && Precedence.Show(c, 6) == "c";
    assert Precedence.Bare(sum) == "c + 1" && Precedence.Show(sum, 5) == Precedence.Bare(sum);
  }

  /** The count so far. */
  ghost predicate Counting(w: World, env: Env, a: int) {
    FitsI32(a) && 0 <= a && Lookup(env, "c") == Int(a) && env.world == w
  }

  function OneMore(): Expr {
    Binop(Infix(Add), Name("c"), Lit(Number("1")))
  }

  lemma SumValue(h: Host, scope: seq<string>, env: Env, a: i32)
    requires ReadsBits(h.number) && "c" in scope && Lookup(env, "c") == Int(a) && FitsI32(a + 1)
    ensures EvalExpr(h, OneMore(), scope, env) == Val(Int(a + 1), env)
  {
    hide Lookup;
    assert EvalExpr(h, Name("c"), scope, env) == Val(Int(a), env);
    assert EvalExpr(h, Lit(Number("1")), scope, env) == Val(Int(1), env);
  }

  lemma SumMeans(h: Host, scope: seq<string>, env: Env, a: i32)
    requires ReadsBits(h.number) && "c" in scope && Lookup(env, "c") == Int(a) && FitsI32(a + 1)
    ensures EvalText(h, "c = c + 1", scope, env) == Val(Int(a + 1), Stepped(env, "c", a))
  {
    hide *;
    PlusReads(h.number, scope);
    SumValue(h, scope, env, a);
    PlusMeans(h, scope, env, a);
    TextMeans(h, "c = c + 1", Increase(), scope, env);
  }

  lemma PlusMeans(h: Host, scope: seq<string>, env: Env, a: i32)
    requires "c" in scope && FitsI32(a + 1) && EvalExpr(h, OneMore(), scope, env) == Val(Int(a + 1), env)
    ensures EvalExpr(h, Increase(), scope, env) == Val(Int(a + 1), Stepped(env, "c", a))
  {
    hide OneMore;
  }

  lemma TextMeans(h: Host, text: string, e: Expr, scope: seq<string>, env: Env)
    requires Grammar.Full(h.number, scope, text) == Some(e)
    ensures EvalText(h, text, scope, env) == EvalExpr(h, e, scope, env)
  {
    hide Grammar.Full, EvalExpr;
  }

  lemma BodyCounts(h: Host, env: Env, a: i32, b: i32, w: World, fuel: nat)
    requires ReadsBits(h.number) && Holds(env, "i", a, "n", b) && a < b && Counting(w, env, a)
    ensures Kept(EvalStmts(h, Body, Scope, env, fuel), "i", "n", a, b, (e, k) => Counting(w, e, k))
  {
    hide *;
    CountFits(w, env, a, b);
    SumMeans(h, Scope, env, a);
    OneDropped(h, "c = c + 1", Scope, env, fuel);
    CountKept(env, a, b, w);
  }

  lemma CountFits(w: World, env: Env, a: i32, b: i32)
    requires Counting(w, env, a) && a < b
    ensures "c" in Scope && Lookup(env, "c") == Int(a) && FitsI32(a + 1) && Body == [ExprStmt("c = c + 1")]
  {
  }

  lemma CountKept(env: Env, a: i32, b: i32, w: World)
    requires Holds(env, "i", a, "n", b) && a < b && Counting(w, env, a)
    ensures Kept(Discard(Val(Int(a + 1), Stepped(env, "c", a))), "i", "n", a, b, (e, k) => Counting(w, e, k))
  {
  }

  lemma OneDropped(h: Host, text: string, scope: seq<string>, env: Env, fuel: nat)
    ensures EvalStmts(h, [ExprStmt(text)], scope, env, fuel) == Discard(EvalText(h, text, scope, env))
  {
    hide EvalText;
    var ss := [ExprStmt(text)];
    assert ss[1..] == [];
    assert EvalStmt(h, ss[0], scope, env, fuel) == Discard(EvalText(h, text, scope, env));
  }

  lemma BodyKeepsCount(h: Host, b: i32, w: World)
    requires ReadsBits(h.number)
    ensures Keeps(h, Body, "i", "n", Scope, b, (e, k) => Counting(w, e, k))
  {
    assert ScopeAfterAll(Body, Scope) == Scope by { assert Body[1..] == []; }
    hide EvalStmts, Counting, Holds;
    forall env, a: i32, fuel | Holds(env, "i", a, "n", b) && a < b && Counting(w, env, a)
      ensures Kept(EvalStmts(h, Body, Scope, env, fuel), "i", "n", a, b, (e, k) => Counting(w, e, k))
    {
      BodyCounts(h, env, a, b, w, fuel);
    }
  }

  /** A variable that starts at zero. */
  lemma VarMeans(h: Host, x: string, scope: seq<string>, env: Env, fuel: nat)
    requires ReadsBits(h.number)
    ensures EvalStmt(h, VarInit(x, "0"), scope, env, fuel) == Next(env.(locals := env.locals[x := Int(0)]))
  {
    DigitReads(h.number, Declare(scope, x), "0");
    TextMeans(h, "0", Lit(Number("0")), Declare(scope, x), env);
    hide Grammar.Full, Declare, EvalText;
  }

  lemma ReturnIs(h: Host, scope: seq<string>, env: Env, fuel: nat, v: Value)
    requires "c" in scope && Lookup(env, "c") == v
    ensures EvalStmt(h, ReturnText("c"), scope, env, fuel) == Done(Returned(v, env.world))
  {
    Keywords.NameReads(h, "c", scope, env.world);
    hide EvalText, Lookup;
    assert EvalText(h, "c", scope, env) == Val(Lookup(env, "c"), env);
  }

  lemma Scopes()
    ensures DeclareAll([], ["n"]) == ["n"] && Declare(["n"], "c") == ["n", "c"] && Declare(["n", "c"], "i") == Scope
    ensures ScopeAfterAll(Body, Scope) == Scope
  {
    assert ["n"][1..] == [];
    assert Body[1..] == [];
  }

  lemma LoopCounts(h: Host, env: Env, b: i32, w: World, fuel: nat)
    requires ReadsBits(h.number) && Lookup(env, "n") == Int(b) && Lookup(env, "c") == Int(0) && env.world == w
    ensures var r := EvalStmt(h, Counted("i", "n", Body), ["n", "c"], env, fuel);
      if fuel < Most(b) then r == NoFuel else r.Next? && Counting(w, r.env, Most(b))
  {
    var env1 := env.(locals := env.locals["i" := Int(0)]);
    assert Holds(env1, "i", 0, "n", b) && Counting(w, env1, 0) && TwoLocals("i", "n", Scope);
    hide *;
    Scopes();
    VarMeans(h, "i", ["n", "c"], env, fuel);
    BodyKeepsCount(h, b, w);
    Rounds(h, "i", "n", Body, Scope, env1, 0, b, (e, k) => Counting(w, e, k), fuel);
    LoopStarts(h, env, env1, fuel);
    LeftIsMost(b);
  }

  lemma LeftIsMost(b: int)
    ensures Left(0, b) == Most(b) && Most(b) == if 0 < b then b else 0
  {
  }

  lemma LoopStarts(h: Host, env: Env, env1: Env, fuel: nat)
    requires EvalStmt(h, VarInit("i", "0"), ["n", "c"], env, fuel) == Next(env1) && Declare(["n", "c"], "i") == Scope
    ensures var s := Counted("i", "n", Body); EvalStmt(h, s, ["n", "c"], env, fuel) == EvalLoop(h, s, Scope, env1, fuel)
  {
    hide EvalLoop, EvalText, Declare, Below;
  }

  /** What the function means: the number of rounds, which is the argument or, when that is negative, none. */
  lemma CountToMeans(h: Host, b: i32, w: World, fuel: nat)
    requires ReadsBits(h.number)
    ensures EvalBody(h, ["n"], CountTo, Bind(["n"], [Int(b)], w), fuel)
      == if fuel < Most(b) then NoFuel else Done(Returned(Int(Most(b)), w))
  {
    hide *;
    var env := Bind(["n"], [Int(b)], w);
    var env1 := env.(locals := env.locals["c" := Int(0)]);
    Scopes();
    Bound(b, w);
    VarMeans(h, "c", ["n"], env, fuel);
    LoopCounts(h, env1, b, w, fuel);
    var r := EvalStmt(h, Counted("i", "n", Body), ["n", "c"], env1, fuel);
    if r.Next? {
      CountIs(w, r.env, Most(b));
      ReturnIs(h, Scope, r.env, fuel, Int(Most(b)));
    }
    ThreeStmts(h, env, env1, r, fuel);
  }

  lemma CountIs(w: World, env: Env, a: int)
    requires Counting(w, env, a)
    ensures FitsI32(a) && Lookup(env, "c") == Int(a) && env.world == w && "c" in Scope
  {
  }

  lemma Bound(b: i32, w: World)
    ensures var env := Bind(["n"], [Int(b)], w);
      env.world == w && Lookup(env.(locals := env.locals["c" := Int(0)]), "n") == Int(b)
      && Lookup(env.(locals := env.locals["c" := Int(0)]), "c") == Int(0)
  {
    assert LastIndexOf(["n"], "n") == 0;
  }

  lemma ThreeStmts(h: Host, env: Env, env1: Env, r: Exit, fuel: nat)
    requires DeclareAll([], ["n"]) == ["n"] && Declare(["n"], "c") == ["n", "c"] && Declare(["n", "c"], "i") == Scope
    requires ScopeAfterAll(Body, Scope) == Scope && EvalStmt(h, VarInit("c", "0"), ["n"], env, fuel) == Next(env1)
    requires EvalStmt(h, Counted("i", "n", Body), ["n", "c"], env1, fuel) == r && !r.Done?
    requires r.Next? ==> EvalStmt(h, ReturnText("c"), Scope, r.env, fuel).Done?
    ensures EvalBody(h, ["n"], CountTo, env, fuel)
      == if r.Next? then EvalStmt(h, ReturnText("c"), Scope, r.env, fuel) else r
  {
    var s := Counted("i", "n", Body);
    hide EvalStmt, ScopeAfterAll, Declare, DeclareAll, Below;
    assert CountTo[1..] == [s, ReturnText("c")] && CountTo[2..] == [ReturnText("c")] && CountTo[1..][1..] == CountTo[2..];
    assert ScopeAfter(s, ["n", "c"]) == Scope;
    assert ScopeAfter(VarInit("c", "0"), ["n"]) == ["n", "c"];
    hide ScopeAfter;
    assert EvalStmts(h, CountTo[1..], ["n", "c"], env1, fuel)
      == if r.Next? then EvalStmts(h, CountTo[2..], Scope, r.env, fuel) else r;
  }

  // ---- the compiled function ----

  lemma TextCompiles(num: Grammar.Numbers, text: string, f: Func)
    requires Grammar.Full(num, f.locals, text).Some?
    ensures CompileText(num, text, f).Some?
  {
    hide Grammar.Full;
  }

  lemma VarCompiles(num: Grammar.Numbers, x: string, f: Func)
    requires ReadsBits(num) && Lexer.IsIdentifier(x)
    ensures CompileStmt(num, VarInit(x, "0"), f).Some?
    ensures CompileStmt(num, VarInit(x, "0"), f).value.locals == Declare(f.locals, x)
  {
    DigitReads(num, Declare(f.locals, x), "0");
    hide Grammar.Full, Declare, Lexer.IsIdentifier;
    TextCompiles(num, "0", f.(locals := Declare(f.locals, x)));
    hide CompileText;
    StmtGrows(num, VarInit(x, "0"), f);
  }

  lemma StmtThen(num: Grammar.Numbers, s: Stmt, rest: seq<Stmt>, f: Func)
    requires CompileStmt(num, s, f).Some?
    ensures CompileStmts(num, [s] + rest, f) == CompileStmts(num, rest, CompileStmt(num, s, f).value)
  {
    hide CompileStmt;
    assert ([s] + rest)[1..] == rest;
  }

  lemma NoStmts(num: Grammar.Numbers, f: Func)
    ensures CompileStmts(num, [], f) == Some(f)
  {
  }

  lemma DroppedCompiles(num: Grammar.Numbers, text: string, f: Func)
    requires Grammar.Full(num, f.locals, text).Some?
    ensures CompileStmt(num, ExprStmt(text), f).Some?
  {
    TextCompiles(num, text, f);
    hide CompileText;
  }

  lemma BodyTextCompiles(num: Grammar.Numbers, f: Func)
    requires ReadsBits(num)
    ensures CompileStmts(num, Body, f).Some?
  {
    hide *;
    PlusReads(num, f.locals);
    DroppedCompiles(num, "c = c + 1", f);
    StmtThen(num, ExprStmt("c = c + 1"), [], f);
    NoStmts(num, CompileStmt(num, ExprStmt("c = c + 1"), f).value);
    PartsOfBody();
  }

  lemma PartsOfBody()
    ensures Body == [ExprStmt("c = c + 1")] + []
    ensures CountTo == [VarInit("c", "0")] + ([Counted("i", "n", Body)] + ([ReturnText("c")] + []))
  {
    hide Counted;
  }

  lemma UpdateCompiles(num: Grammar.Numbers, x: string, f: Func)
    requires Lexer.IsIdentifier(x) && x in f.locals
    ensures CompileUpdate(num, x + "++", f).Some?
  {
    UpdateSpelled(x);
    IndexOfFirst(f.locals, x);
    hide Updates.Spells, IncrementForm;
    UpdateForms.Recognised(x + "++", Updates.Step(x, true, false), f.locals);
  }

  lemma CountedCompiles(num: Grammar.Numbers, f: Func)
    requires ReadsBits(num) && f.locals == ["n", "c"]
    ensures CompileStmt(num, Counted("i", "n", Body), f).Some?
    ensures CompileStmt(num, Counted("i", "n", Body), f).value.locals == Scope
  {
    hide *;
    var s := Counted("i", "n", Body);
    Scopes();
    Words();
    VarCompiles(num, "i", f);
    var f0 := CompileStmt(num, VarInit("i", "0"), f).value;
    BelowReads(num, Scope, "i", "n");
    TextCompiles(num, Below("i", "n"), f0);
    var f1 := Emit(CompileText(num, Below("i", "n"), f0).value, JumpIfFalse, 0);
    EmitKeeps(num, f0);
    BodyTextCompiles(num, f1);
    StmtsGrow(num, Body, f1);
    UpdateCompiles(num, "i", CompileStmts(num, Body, f1).value);
    LoopCompiles(num, f, f0, f1);
    StmtGrows(num, s, f);
    CountedScope();
  }

  lemma Words()
    ensures TwoLocals("i", "n", Scope) && Lexer.IsIdentifier("c") && "i" in Scope
  {
  }

  lemma CountedScope()
    requires Declare(["n", "c"], "i") == Scope && ScopeAfterAll(Body, Scope) == Scope
    ensures ScopeAfter(Counted("i", "n", Body), ["n", "c"]) == Scope
  {
    hide ScopeAfterAll, Declare, Below;
  }

  lemma EmitKeeps(num: Grammar.Numbers, f: Func)
    requires CompileText(num, Below("i", "n"), f).Some?
    ensures Emit(CompileText(num, Below("i", "n"), f).value, JumpIfFalse, 0).locals == f.locals
  {
    TextGrows(num, Below("i", "n"), f);
  }

  lemma LoopCompiles(num: Grammar.Numbers, f: Func, f0: Func, f1: Func)
    requires CompileStmt(num, VarInit("i", "0"), f) == Some(f0) && CompileText(num, Below("i", "n"), f0).Some?
    requires f1 == Emit(CompileText(num, Below("i", "n"), f0).value, JumpIfFalse, 0) && CompileStmts(num, Body, f1).Some?
    requires CompileUpdate(num, "i" + "++", CompileStmts(num, Body, f1).value).Some?
    ensures CompileStmt(num, Counted("i", "n", Body), f).Some?
  {
    hide CompileText, CompileStmts, CompileUpdate, Below;
    var s := Counted("i", "n", Body);
    assert CompileLoop(num, s, f0).Some?;
  }

  lemma CountToCompiles(num: Grammar.Numbers)
    requires ReadsBits(num)
    ensures CompileBody(num, ["n"], CountTo).Some? && CompileBody(num, ["n"], CountTo).value.locals == Scope
  {
    hide *;
    Scopes();
    Words();
    var f := Func([], [], ["n"]);
    VarCompiles(num, "c", f);
    var f1 := CompileStmt(num, VarInit("c", "0"), f).value;
    CountedCompiles(num, f1);
    var f2 := CompileStmt(num, Counted("i", "n", Body), f1).value;
    Keywords.WordReads(num, Scope, "c");
    LastCompiles(num, f2);
    StmtThen(num, VarInit("c", "0"), [Counted("i", "n", Body)] + ([ReturnText("c")] + []), f);
    StmtThen(num, Counted("i", "n", Body), [ReturnText("c")] + [], f1);
    PartsOfBody();
    BodyOfStmts(num, CountTo);
  }

  lemma LastCompiles(num: Grammar.Numbers, f: Func)
    requires Grammar.Full(num, f.locals, "c").Some?
    ensures CompileStmts(num, [ReturnText("c")] + [], f).Some?
    ensures CompileStmts(num, [ReturnText("c")] + [], f).value.locals == f.locals
  {
    hide *;
    Returns.ReturnStmt(num, "c", f);
    StmtThen(num, ReturnText("c"), [], f);
    NoStmts(num, CompileStmt(num, ReturnText("c"), f).value);
  }

  lemma BodyOfStmts(num: Grammar.Numbers, ss: seq<Stmt>)
    requires DeclareAll([], ["n"]) == ["n"] && CompileStmts(num, ss, Func([], [], ["n"])).Some?
    ensures CompileBody(num, ["n"], ss).Some?
    ensures CompileBody(num, ["n"], ss).value.locals == CompileStmts(num, ss, Func([], [], ["n"])).value.locals
  {
    hide CompileStmts, DeclareAll;
  }

  /** The compiled function counts the rounds: it returns its argument, or 0 when that is negative, and changes nothing. */
  lemma CountsToArgument(h: Host, b: i32, w: World)
    requires ReadsBits(h.number)
    ensures CompileBody(h.number, ["n"], CountTo).Some?
    ensures var F := CompileBody(h.number, ["n"], CountTo).value;
      Reaches(h, F, Running(Entry(F, [Int(b)], w)), Halted(Returned(Int(Most(b)), w)))
  {
    hide *;
    CountToCompiles(h.number);
    ArgumentLands(b);
    CountToMeans(h, b, w, Most(b));
    LeftIsMost(b);
    CallCorrect(h, ["n"], CountTo, [Int(b)], w, Returned(Int(Most(b)), w));
  }

  lemma ArgumentLands(b: i32)
    ensures ArgumentsLand(["n"], Scope, [Int(b)])
  {
    Scopes();
    assert LastIndexOf(["n"], "n") == 0;
  }

  // ---- for (;;) {} ----

  const Endless: seq<Stmt> := [For(None, None, [], None)]

  /** A loop without a test never ends. */
  lemma {:induction false} EndlessMeans(h: Host, env: Env, fuel: nat)
    ensures EvalLoop(h, For(None, None, [], None), [], env, fuel) == NoFuel
    decreases fuel
  {
    var s := For(None, None, [], None);
    if fuel > 0 {
      EndlessMeans(h, env, fuel - 1);
      assert EvalStmts(h, [], [], env, fuel) == Next(env);
    }
  }

  lemma EndlessBody(h: Host, env: Env, fuel: nat)
    ensures EvalBody(h, [], Endless, env, fuel) == NoFuel
  {
    var s := For(None, None, [], None);
    EndlessMeans(h, env, fuel);
    hide EvalLoop;
    assert EvalStmt(h, s, [], env, fuel) == NoFuel;
    hide EvalStmt;
    assert Endless[0] == s;
    assert EvalStmts(h, Endless, [], env, fuel) == NoFuel;
  }

  lemma EndlessCompiles(num: Grammar.Numbers)
    ensures CompileBody(num, [], Endless).Some?
  {
    var s, f := For(None, None, [], None), Func([], [], []);
    NoStmts(num, f);
    assert CompileLoop(num, s, f).Some?;
    assert CompileStmt(num, s, f).Some?;
    hide CompileStmt;
    NoStmts(num, CompileStmt(num, s, f).value);
    StmtThen(num, s, [], f);
    assert Endless == [s] + [];
  }

  /** Compiled, it runs forever: no run of it reaches an end. */
  lemma EndlessRuns(h: Host, w: World, fin: Final)
    ensures CompileBody(h.number, [], Endless).Some?
    ensures var F := CompileBody(h.number, [], Endless).value; !Reaches(h, F, Running(Entry(F, [], w)), Halted(fin))
  {
    EndlessCompiles(h.number);
    hide *;
    NoArgumentsLand(CompileBody(h.number, [], Endless).value.locals);
    CallCorrect(h, [], Endless, [], w, fin);
    forall fuel: nat ensures EvalBody(h, [], Endless, Bind([], [], w), fuel) == NoFuel {
      EndlessBody(h, Bind([], [], w), fuel);
    }
  }

  lemma NoArgumentsLand(locals: seq<string>)
    ensures ArgumentsLand([], locals, [])
  {
  }
}
