/** Whole calls of compiled functions: what the arguments become, and how a call ends. */
module Calls {
  import opened Values
  import opened Bytecode
  import opened Syntax
  import opened Machine
  import opened CodeGen
  import opened Reference
  import opened Simulation
  import opened StmtSimulation
  import Grammar
  import Lexer
  import Printer
  import Literals

  // ---- where arguments go ----

  /** The slots of the parameters are their names in order of first occurrence. */
  lemma {:induction false} SlotsOfParams(locals: seq<string>, params: seq<string>)
    ensures var d := DeclareAll(locals, params);
      && |locals| <= |d| && d[..|locals|] == locals
      && (forall x :: x in d <==> x in locals || x in params)
    decreases params
  {
    if params != [] {
      var d := Declare(locals, params[0]);
      IndexOfFirst(locals, params[0]);
      SlotsOfParams(d, params[1..]);
      assert d[..|locals|] == locals;
      assert forall x :: x in params <==> x == params[0] || x in params[1..];
      assert forall x :: x in d <==> x in locals || x == params[0];
    }
  }

  /** No slot comes after the first occurrence of its name. */
  lemma {:induction false} SlotNotLater(locals: seq<string>, params: seq<string>, x: string)
    requires Distinct(locals) && x in params
    ensures IndexOf(DeclareAll(locals, params), x) <= |locals| + IndexOf(params, x)
    ensures x in locals ==> IndexOf(DeclareAll(locals, params), x) == IndexOf(locals, x)
    decreases params
  {
    var d := Declare(locals, params[0]);
    SlotsOfParams(d, params[1..]);
    var all := DeclareAll(d, params[1..]);
    if x in d {
      IndexOfFirst(d, x);
      IndexOfFirst(locals, x);
      SamePlace(all, d, x);
      SamePlace(d, locals, x);
    } else {
      SlotNotLater(d, params[1..], x);
    }
  }

  lemma SamePlace(longer: seq<string>, shorter: seq<string>, x: string)
    requires |shorter| <= |longer| && longer[..|shorter|] == shorter
    ensures x in shorter ==> IndexOf(longer, x) == IndexOf(shorter, x)
  {
    IndexOfFirst(shorter, x);
    IndexOfFirst(longer, x);
    if x in shorter {
      assert forall k :: 0 <= k < |shorter| ==> longer[k] == shorter[k];
      assert longer[IndexOf(shorter, x)] == x;
    }
  }

  /** The slots of a compiled function begin with those of its parameters, and no name has two. */
  lemma ParamsFirst(num: Grammar.Numbers, params: seq<string>, ss: seq<Stmt>)
    requires CompileBody(num, params, ss).Some?
    ensures var F := CompileBody(num, params, ss).value; var d := DeclareAll([], params);
      Distinct(F.locals) && |d| <= |F.locals| && forall i :: 0 <= i < |d| ==> F.locals[i] == d[i]
  {
    BodyGrows(num, params, ss);
    StmtsGrow(num, ss, Func([], [], DeclareAll([], params)));
  }

  /** An argument, undefined when it is missing. */
  function Arg(args: seq<Value>, i: nat): Value {
    if i < |args| then args[i] else Undefined
  }

  /** The engine hands argument `i` to slot `i`. That is where it belongs when each parameter's slot gets the argument of
      the last parameter of that name, and a surplus argument that still meets a slot is undefined. */
  predicate ArgumentsLand(params: seq<string>, locals: seq<string>, args: seq<Value>) {
    var d := DeclareAll([], params);
    && (forall i :: 0 <= i < |d| ==> Arg(args, i) == Arg(args, LastIndexOf(params, d[i])))
    && (forall i :: |d| <= i < |args| && i < |locals| ==> args[i] == Undefined)
  }

  /** The entry state is the one that binds each parameter to its argument if and only if the arguments land there. */
  lemma EntryBinds(num: Grammar.Numbers, params: seq<string>, ss: seq<Stmt>, args: seq<Value>, w: World)
    requires CompileBody(num, params, ss).Some?
    ensures var F := CompileBody(num, params, ss).value;
      Running(Entry(F, args, w)) == At(F, 0, [], Bind(params, args, w)) <==> ArgumentsLand(params, F.locals, args)
  {
    var F := CompileBody(num, params, ss).value;
    var d := DeclareAll([], params);
    ParamsFirst(num, params, ss);
    SlotsOfParams([], params);
    hide CompileBody, DeclareAll, LastIndexOf, Bind;
    var slots, entry := Slots(F.locals, Bind(params, args, w)), Entry(F, args, w).locals;
    forall i | 0 <= i < |F.locals|
      ensures entry[i] == Arg(args, i)
      ensures slots[i] == if i < |d| then Arg(args, LastIndexOf(params, d[i])) else Undefined
    {
      SlotHolds(params, d, F.locals, args, w, i);
    }
    hide Lookup, Arg, Distinct;
    LandIff(params, F.locals, args, d, entry, slots);
  }

  lemma LandIff(params: seq<string>, locals: seq<string>, args: seq<Value>, d: seq<string>, entry: seq<Value>, slots: seq<Value>)
    requires d == DeclareAll([], params) && |d| <= |locals| == |entry| == |slots|
    requires forall i :: 0 <= i < |locals| ==> entry[i] == Arg(args, i)
    requires forall i :: 0 <= i < |locals| ==>
      slots[i] == if i < |d| then Arg(args, LastIndexOf(params, d[i])) else Undefined
    ensures entry == slots <==> ArgumentsLand(params, locals, args)
  {
    hide DeclareAll, LastIndexOf;
    if entry == slots {
      forall i | 0 <= i < |d| ensures Arg(args, i) == Arg(args, LastIndexOf(params, d[i])) {
        assert entry[i] == slots[i];
      }
      forall i | |d| <= i < |args| && i < |locals| ensures args[i] == Undefined {
        assert entry[i] == slots[i];
      }
    }
    if ArgumentsLand(params, locals, args) {
      forall i | 0 <= i < |entry| ensures entry[i] == slots[i] {}
    }
  }

  lemma SlotHolds(params: seq<string>, d: seq<string>, locals: seq<string>, args: seq<Value>, w: World, i: nat)
    requires i < |locals| && |d| <= |locals| && Distinct(locals) && forall k :: 0 <= k < |d| ==> locals[k] == d[k]
    requires forall x :: x in d <==> x in params
    ensures Lookup(Bind(params, args, w), locals[i]) == if i < |d| then Arg(args, LastIndexOf(params, d[i])) else Undefined
  {
    hide Bind, Lookup, LastIndexOf;
    BoundTo(params, args, w, locals[i]);
    assert i < |d| ==> d[i] in d;
    assert i >= |d| ==> locals[i] !in d;
  }

  lemma BoundTo(params: seq<string>, args: seq<Value>, w: World, x: string)
    ensures Lookup(Bind(params, args, w), x) == if x in params then Arg(args, LastIndexOf(params, x)) else Undefined
  {
  }

  /** Every list of arguments without a surplus lands if and only if no parameter is repeated. */
  lemma RepeatsMisplace(params: seq<string>)
    ensures Distinct(params) <==> forall args :: |args| <= |params| ==> ArgumentsLand(params, DeclareAll([], params), args)
  {
    var d := DeclareAll([], params);
    SlotsOfParams([], params);
    hide DeclareAll, LastIndexOf;
    if Distinct(params) {
      forall args | |args| <= |params| ensures ArgumentsLand(params, d, args) {
        DistinctLand(params, args);
      }
    } else {
      var p, q :| 0 <= p < q < |params| && params[p] == params[q];
      var args := Telling(params, params[p]);
      SlotBeforeLast(params, p, q);
      var i := IndexOf(d, params[p]);
      assert Arg(args, i) != Arg(args, LastIndexOf(params, d[i]));
      assert !ArgumentsLand(params, d, args);
    }
  }

  lemma LastOfDistinct(params: seq<string>, i: nat)
    requires Distinct(params) && i < |params|
    ensures LastIndexOf(params, params[i]) == i
  {
    hide LastIndexOf;
    var k := LastIndexOf(params, params[i]);
    assert params[k] == params[i];
  }

  lemma DistinctLand(params: seq<string>, args: seq<Value>)
    requires Distinct(params) && |args| <= |params|
    ensures ArgumentsLand(params, DeclareAll([], params), args)
  {
    hide DeclareAll, LastIndexOf, Distinct, Arg;
    DistinctKept(params);
    forall i | 0 <= i < |params| ensures Arg(args, i) == Arg(args, LastIndexOf(params, params[i])) {
      LastOfDistinct(params, i);
    }
  }

  lemma DistinctKept(params: seq<string>)
    requires Distinct(params)
    ensures DeclareAll([], params) == params
  {
    hide DeclareAll, Distinct;
    assert [] + params == params;
    ParamsKept([], params);
  }

  /** Arguments that tell the last parameter named `x` from all others. */
  function Telling(params: seq<string>, x: string): (args: seq<Value>)
    ensures |args| == |params|
  {
    seq(|params|, i requires 0 <= i < |params| => if i == LastIndexOf(params, x) then Bool(true) else Undefined)
  }

  lemma SlotBeforeLast(params: seq<string>, p: nat, q: nat)
    requires p < q < |params| && params[p] == params[q]
    ensures var d := DeclareAll([], params); var i := IndexOf(d, params[p]);
      i < |d| && d[i] == params[p] && i < LastIndexOf(params, params[p]) < |params|
  {
    var x := params[p];
    SlotsOfParams([], params);
    SlotNotLater([], params, x);
    IndexOfFirst(params, x);
    IndexOfFirst(DeclareAll([], params), x);
  }

  lemma {:induction false} ParamsKept(locals: seq<string>, params: seq<string>)
    requires Distinct(locals + params)
    ensures DeclareAll(locals, params) == locals + params
    decreases params
  {
    if params != [] {
      var x := params[0];
      IndexOfFirst(locals, x);
      assert x == (locals + params)[|locals|];
      assert forall i :: 0 <= i < |locals| ==> locals[i] == (locals + params)[i];
      assert locals + [x] + params[1..] == locals + params;
      ParamsKept(locals + [x], params[1..]);
    } else {
      assert locals + params == locals;
    }
  }

  // ---- whole calls ----

  /** A call of a compiled function ends exactly as the reference says it ends, and runs forever exactly when the
      reference does, whenever its arguments land where they belong. */
  lemma CallCorrect(h: Host, params: seq<string>, ss: seq<Stmt>, args: seq<Value>, w: World, fin: Final)
    requires CompileBody(h.number, params, ss).Some?
    requires ArgumentsLand(params, CompileBody(h.number, params, ss).value.locals, args)
    ensures var F := CompileBody(h.number, params, ss).value;
      Reaches(h, F, Running(Entry(F, args, w)), Halted(fin)) <==>
      exists fuel: nat :: EvalBody(h, params, ss, Bind(params, args, w), fuel) == Done(fin)
  {
    EntryBinds(h.number, params, ss, args, w);
    SameEnds(h, params, ss, Bind(params, args, w), fin);
  }

  /** A call on which the machine returns `got` and the reference `meant`. */
  ghost predicate Differs(h: Host, params: seq<string>, ss: seq<Stmt>, args: seq<Value>, w: World, got: Value, meant: Value) {
    && CompileBody(h.number, params, ss).Some?
    && var F := CompileBody(h.number, params, ss).value;
    && got != meant
    && Reaches(h, F, Running(Entry(F, args, w)), Halted(Returned(got, w)))
    && EvalBody(h, params, ss, Bind(params, args, w), 0) == Done(Returned(meant, w))
  }

  /** `var x; return (x)` */
  function ReturnOf(x: string): seq<Stmt> {
    [Var(x), ReturnText(Printer.Atom(Name(x)))]
  }

  /** A surplus argument does reach a local: `function (a) { var t; return (t) }` returns its second argument, where the
      reference returns undefined. */
  lemma SurplusArgumentSeen(h: Host, a: string, t: string, args: seq<Value>, w: World)
    requires a != t && Lexer.IsIdentifier(t) && !Printer.IsKeyword(t) && |args| >= 2 && args[1] != Undefined
    ensures Differs(h, [a], ReturnOf(t), args, w, args[1], Undefined)
  {
    hide Differs, Bind, Lookup, DeclareAll, Declare, LastIndexOf, ReturnOf, Lexer.IsIdentifier, Printer.IsKeyword;
    RepeatedSlots(a, t);
    BoundTo([a], args, w, t);
    SlotTwo(h, [a], a, t, args, w);
  }

  /** A repeated parameter moves the arguments after it: `function (a, a, t) { var t; return (t) }` returns its second
      argument, where the reference returns the third. */
  lemma RepeatedParameterSeen(h: Host, a: string, t: string, args: seq<Value>, w: World)
    requires a != t && Lexer.IsIdentifier(t) && !Printer.IsKeyword(t) && |args| >= 2 && args[1] != Arg(args, 2)
    ensures Differs(h, [a, a, t], ReturnOf(t), args, w, args[1], Arg(args, 2))
  {
    hide Differs, Bind, Lookup, DeclareAll, Declare, LastIndexOf, ReturnOf, Lexer.IsIdentifier, Printer.IsKeyword;
    RepeatedSlots(a, t);
    BoundTo([a, a, t], args, w, t);
    SlotTwo(h, [a, a, t], a, t, args, w);
  }

  lemma RepeatedSlots(a: string, t: string)
    requires a != t
    ensures Declare(DeclareAll([], [a]), t) == [a, t] && LastIndexOf([a], t) == 1
    ensures Declare(DeclareAll([], [a, a, t]), t) == [a, t] && LastIndexOf([a, a, t], t) == 2
  {
    var params := [a, a, t];
    assert params[1..] == [a, t] && [a, t][1..] == [t] && [t][1..] == [] && [a][1..] == [];
    assert Declare([], a) == [a] && Declare([a], a) == [a] && Declare([a], t) == [a, t] && Declare([a, t], t) == [a, t];
    assert DeclareAll([a], [t]) == DeclareAll([a, t], []);
    assert DeclareAll([a], [a, t]) == DeclareAll([a], [t]);
  }

  /** When `t` has the second slot, the second argument is returned, and the reference returns what `t` is bound to. */
  lemma SlotTwo(h: Host, params: seq<string>, a: string, t: string, args: seq<Value>, w: World)
    requires Declare(DeclareAll([], params), t) == [a, t] && a != t && |args| >= 2
    requires Lookup(Bind(params, args, w), t) != args[1] && Lexer.IsIdentifier(t) && !Printer.IsKeyword(t)
    ensures Differs(h, params, ReturnOf(t), args, w, args[1], Lookup(Bind(params, args, w), t))
  {
    hide EvalBody, CompileBody, Bind, Entry, At, DeclareAll, Declare, Printer.Atom, Grammar.Full, Differs, Lookup;
    Literals.RoundTrip(h.number, [a, t], Name(t));
    ReturnDiffers(h, params, args, w, ReturnOf(t), t, Printer.Atom(Name(t)), [a, t]);
  }

  lemma ReturnDiffers(h: Host, params: seq<string>, args: seq<Value>, w: World, ss: seq<Stmt>, x: string, text: string,
                      scope: seq<string>)
    requires ss == [Var(x), ReturnText(text)] && Declare(DeclareAll([], params), x) == scope
    requires |scope| == 2 && scope[1] == x && scope[0] != x && |args| >= 2 && Lexer.IsIdentifier(x)
    requires Grammar.Full(h.number, scope, text) == Some(Name(x)) && Lookup(Bind(params, args, w), x) != args[1]
    ensures Differs(h, params, ss, args, w, args[1], Lookup(Bind(params, args, w), x))
  {
    var env := Env(map[scope[0] := args[0], x := args[1]], w);
    ReturnCompiles(h.number, params, ss, x, text, scope);
    hide Grammar.Full, CompileBody, Bind, Entry, At, DeclareAll, Declare;
    var F := CompileBody(h.number, params, ss).value;
    EntryTwo(F, args, env);
    ReturnMeans(h, params, ss, x, text, scope, env);
    ReturnMeans(h, params, ss, x, text, scope, Bind(params, args, w));
    BindWorld(params, args, w);
    hide EvalBody, Lookup;
    BodyCorrect(h, params, ss, env, 0);
    LookupSecond(env, scope[0], x, args);
  }

  lemma BindWorld(params: seq<string>, args: seq<Value>, w: World)
    ensures Bind(params, args, w).world == w
  {
  }

  lemma LookupSecond(env: Env, a: string, x: string, args: seq<Value>)
    requires |args| >= 2 && env.locals == map[a := args[0], x := args[1]]
    ensures Lookup(env, x) == args[1]
  {
  }

  lemma EntryTwo(F: Func, args: seq<Value>, env: Env)
    requires |F.locals| == 2 && F.locals[0] != F.locals[1] && |args| >= 2
    requires env.locals == map[F.locals[0] := args[0], F.locals[1] := args[1]]
    ensures Running(Entry(F, args, env.world)) == At(F, 0, [], env)
  {
    assert Slots(F.locals, env) == [args[0], args[1]];
    assert Entry(F, args, env.world).locals == [args[0], args[1]];
  }

  lemma ReturnCompiles(num: Grammar.Numbers, params: seq<string>, ss: seq<Stmt>, x: string, text: string, scope: seq<string>)
    requires ss == [Var(x), ReturnText(text)] && Declare(DeclareAll([], params), x) == scope
    requires Grammar.Full(num, scope, text) == Some(Name(x)) && Lexer.IsIdentifier(x)
    ensures CompileBody(num, params, ss).Some? && CompileBody(num, params, ss).value.locals == scope
  {
    hide Grammar.Full, DeclareAll;
    var f, g := Func([], [], DeclareAll([], params)), Func([], [], scope);
    assert ss[1..] == [ReturnText(text)] && [ReturnText(text)][1..] == [];
    assert CompileStmt(num, Var(x), f) == Some(g);
    assert CompileStmt(num, ReturnText(text), g).Some?;
    hide CompileStmt;
    assert CompileStmts(num, ss[1..], g).Some?;
    assert CompileStmts(num, ss, f) == CompileStmts(num, ss[1..], g);
    StmtsGrow(num, ss[1..], g);
    assert ScopeAfterAll(ss[1..], scope) == scope;
  }

  lemma ReturnMeans(h: Host, params: seq<string>, ss: seq<Stmt>, x: string, text: string, scope: seq<string>, env: Env)
    requires ss == [Var(x), ReturnText(text)] && Declare(DeclareAll([], params), x) == scope
    requires Grammar.Full(h.number, scope, text) == Some(Name(x)) && x in scope
    ensures EvalBody(h, params, ss, env, 0) == Done(Returned(Lookup(env, x), env.world))
  {
    hide Grammar.Full, Lookup, DeclareAll, Declare;
    assert ss[1..] == [ReturnText(text)];
    assert EvalText(h, text, scope, env) == Val(Lookup(env, x), env);
    hide EvalText, EvalExpr;
    assert EvalStmt(h, Var(x), DeclareAll([], params), env, 0) == Next(env);
    assert EvalStmt(h, ReturnText(text), scope, env, 0) == Done(Returned(Lookup(env, x), env.world));
    assert EvalStmts(h, ss[1..], scope, env, 0) == Done(Returned(Lookup(env, x), env.world));
  }
}
