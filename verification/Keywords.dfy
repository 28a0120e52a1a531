/** Words that are read as themselves, and what becomes of a local that has such a name (src/compiler.rs). */
module Keywords {
  import opened Values
  import opened Bytecode
  import opened Syntax
  import opened Texts
  import opened Machine
  import opened CodeGen
  import opened Reference
  import opened Simulation
  import opened StmtSimulation
  import opened Calls
  import Grammar
  import Lexer
  import Printer
  import Literals
  import Utf8

  /** The tree of a text that is one word. The scope has no say in it. */
  function WordTree(x: string): Expr {
    if x == "true" then Lit(True)
    else if x == "false" then Lit(False)
    else if x == "null" then Lit(NullWord)
    else if x == "undefined" then Lit(UndefinedWord)
    else if x == "Number" then Global(x)
    else Name(x)
  }

  lemma NameTree(x: string)
    ensures WordTree(x).Name? <==> !Printer.IsKeyword(x)
    ensures WordTree(x).Name? || WordTree(x).Global? ==> WordTree(x).x == x
    ensures WordTree(x).Name? || WordTree(x).Global? || WordTree(x).Lit?
  {
  }

  lemma WordReads(num: Grammar.Numbers, scope: seq<string>, x: string)
    requires Lexer.IsIdentifier(x)
    ensures Grammar.Full(num, scope, x) == Some(WordTree(x))
  {
    Literals.IdentifierAscii(x);
    Utf8.AsReadSame(x);
    WordIsAll(num, scope, x);
    hide *;
    Printer.WholeAssignment(num, scope, x, WordTree(x));
  }

  lemma WordIsAll(num: Grammar.Numbers, scope: seq<string>, x: string)
    requires Lexer.IsIdentifier(x)
    ensures Grammar.Assignment(num, scope, x, 0) == Grammar.Got(WordTree(x), |x|)
  {
    var e := WordTree(x);
    IdentifierEnds(x);
    assert x[0..|x|] == x;
    assert Grammar.Word(num, scope, x, x, |x|) == Grammar.Got(e, |x|);
    hide Grammar.Word, WordTree, Lexer.IdentEnd;
    Printer.PrimaryIsWord(num, scope, x, 0, |x|);
    hide Grammar.Primary;
    Printer.PrimaryToSum(num, scope, x, 0, e, |x|);
    hide Grammar.Sum;
    assert Grammar.AfterName(num, scope, x, 0, |x|) == Grammar.Got(e, |x|);
  }

  lemma IdentifierEnds(x: string)
    requires Lexer.IsIdentifier(x)
    ensures x != "" && Lexer.IsIdentStart(x[0]) && Lexer.IdentEnd(x, 0) == |x|
  {
    SkipToEnd(x, 1);
  }

  lemma {:induction false} SkipToEnd(x: string, p: nat)
    requires Lexer.IsIdentifier(x) && 0 < p <= |x|
    ensures Lexer.SkipIdent(x, p) == |x|
    decreases |x| - p
  {
    if p < |x| { SkipToEnd(x, p + 1); }
  }

  /** A name in scope is read from the local in every environment if and only if it is not one of the five words. */
  lemma NameReads(h: Host, x: string, scope: seq<string>, w: World)
    requires Lexer.IsIdentifier(x) && x in scope
    ensures (forall env :: EvalText(h, x, scope, env) == Val(Lookup(env, x), env)) <==> !Printer.IsKeyword(x)
  {
    WordReads(h.number, scope, x);
    NameTree(x);
    var e := WordTree(x);
    hide WordTree, Grammar.Full, Lexer.IsIdentifier, Printer.IsKeyword;
    forall env ensures EvalText(h, x, scope, env) == EvalExpr(h, e, scope, env) {}
    if !e.Name? {
      var v := if e.Lit? then LiteralValue(h.number, e.lit) else Values.LoadGlobal(h, x, w).0;
      var env := Env(map[x := if v == Undefined then Null else Undefined], w);
      assert EvalText(h, x, scope, env) != Val(Lookup(env, x), env);
    }
  }

  // ---- function (x) { return x } ----

  /** What `function (x) { return x }` returns, and the world it leaves. */
  function Returns(h: Host, x: string, args: seq<Value>, w: World): (Value, World) {
    match WordTree(x)
    case Lit(lit) => (LiteralValue(h.number, lit), w)
    case Global(_) => Values.LoadGlobal(h, x, w)
    case _ => (Arg(args, 0), w)
  }

  ghost predicate CallReturns(h: Host, x: string, args: seq<Value>, w: World, v: Value, w1: World) {
    && CompileBody(h.number, [x], [ReturnText(x)]).Some?
    && var F := CompileBody(h.number, [x], [ReturnText(x)]).value;
      Reaches(h, F, Running(Entry(F, args, w)), Halted(Returned(v, w1)))
  }

  lemma CallOf(h: Host, x: string, args: seq<Value>, w: World)
    requires Lexer.IsIdentifier(x)
    ensures var (v, w1) := Returns(h, x, args, w); CallReturns(h, x, args, w, v, w1)
  {
    var (v, w1) := Returns(h, x, args, w);
    var ss := [ReturnText(x)];
    OneSlot(x);
    WordReads(h.number, [x], x);
    BodyOf(h, x, args, w);
    OneReturn(h.number, x);
    hide *;
    OneLands(x, args);
    CallCorrect(h, [x], ss, args, w, Returned(v, w1));
  }

  lemma OneSlot(x: string)
    ensures DeclareAll([], [x]) == [x]
  {
    assert [x][1..] == [];
  }

  lemma OneReturn(num: Grammar.Numbers, x: string)
    requires Grammar.Full(num, [x], x).Some? && DeclareAll([], [x]) == [x]
    ensures CompileBody(num, [x], [ReturnText(x)]).Some? && CompileBody(num, [x], [ReturnText(x)]).value.locals == [x]
  {
    hide Grammar.Full, DeclareAll;
    var ss, f := [ReturnText(x)], Func([], [], [x]);
    assert ss[1..] == [];
    assert CompileStmt(num, ss[0], f).Some?;
    hide CompileStmt;
    assert CompileStmts(num, ss, f).Some?;
    StmtsGrow(num, ss, f);
  }

  lemma OneLands(x: string, args: seq<Value>)
    ensures ArgumentsLand([x], [x], args)
  {
    OneSlot(x);
    assert LastIndexOf([x], x) == 0;
  }

  lemma BodyOf(h: Host, x: string, args: seq<Value>, w: World)
    requires Grammar.Full(h.number, [x], x) == Some(WordTree(x)) && DeclareAll([], [x]) == [x]
    ensures EvalBody(h, [x], [ReturnText(x)], Bind([x], args, w), 0)
      == Done(Returned(Returns(h, x, args, w).0, Returns(h, x, args, w).1))
  {
    var env, ss := Bind([x], args, w), [ReturnText(x)];
    NameTree(x);
    BoundTo([x], args, w, x);
    BindWorld([x], args, w);
    assert LastIndexOf([x], x) == 0;
    hide WordTree, Grammar.Full, DeclareAll, Bind, LastIndexOf, Lookup, LiteralValue;
    assert EvalText(h, x, [x], env) == EvalExpr(h, WordTree(x), [x], env);
    assert EvalStmt(h, ss[0], [x], env, 0) == Done(Returned(Returns(h, x, args, w).0, Returns(h, x, args, w).1));
    hide EvalStmt, EvalText, EvalExpr;
    assert EvalStmts(h, ss, [x], env, 0) == EvalStmt(h, ss[0], [x], env, 0);
  }

  /** `function (x) { return x }` returns its argument in every call if and only if `x` is not one of the five words. */
  lemma ParameterReturned(h: Host, x: string, w: World)
    requires Lexer.IsIdentifier(x)
    ensures (forall args :: CallReturns(h, x, args, w, Arg(args, 0), w)) <==> !Printer.IsKeyword(x)
  {
    NameTree(x);
    hide CallReturns, WordTree, Lexer.IsIdentifier, Printer.IsKeyword, LiteralValue;
    if WordTree(x).Name? {
      forall args ensures CallReturns(h, x, args, w, Arg(args, 0), w) { CallOf(h, x, args, w); }
    } else {
      var (v, w1) := Returns(h, x, [], w);
      var args := [if v == Undefined then Null else Undefined];
      CallOf(h, x, args, w);
      assert CallReturns(h, x, args, w, v, w1) && Arg(args, 0) != v;
      if CallReturns(h, x, args, w, Arg(args, 0), w) { OneResult(h, x, args, w, Arg(args, 0), w, v, w1); }
    }
  }

  lemma OneResult(h: Host, x: string, args: seq<Value>, w: World, v1: Value, w1: World, v2: Value, w2: World)
    requires CallReturns(h, x, args, w, v1, w1) && CallReturns(h, x, args, w, v2, w2)
    ensures v1 == v2 && w1 == w2
  {
    hide CompileBody, Entry, Reaches;
    var F := CompileBody(h.number, [x], [ReturnText(x)]).value;
    OneEnd(h, F, Running(Entry(F, args, w)), Returned(v1, w1), Returned(v2, w2));
  }

  /** `function (Number) { return Number }` returns the global, whatever it is called with. */
  lemma NumberParameterSeen(h: Host, args: seq<Value>, w: World)
    ensures CallReturns(h, "Number", args, w, Values.LoadGlobal(h, "Number", w).0, Values.LoadGlobal(h, "Number", w).1)
  {
    NumberIsGlobal(h, args, w);
    hide *;
    CallOf(h, "Number", args, w);
  }

  lemma NumberIsGlobal(h: Host, args: seq<Value>, w: World)
    ensures Lexer.IsIdentifier("Number") && Returns(h, "Number", args, w) == Values.LoadGlobal(h, "Number", w)
  {
    hide Values.LoadGlobal;
  }
}
