/** What a program means, by names and trees only: no slots, jumps, constants or operand stack.
    `scope` lists the names whose `var` stands earlier in the text. The values of literals and the rule by which a
    `var` enters the scope are those of `CodeGen`. */
module Reference {
  import opened Values
  import opened Syntax
  import opened Machine
  import Grammar
  import Bytecode
  import CodeGen
  import Texts
  import Updates

  datatype Env = Env(locals: map<string, Value>, world: World)

  /** A value and the environment after it, or the end of the whole run. */
  datatype Eval = Val(v: Value, env: Env) | Stop(fin: Final)

  datatype EvalArgs = Vals(vs: seq<Value>, env: Env) | StopArgs(fin: Final)

  /** How a statement ends; `NoFuel` says that a loop was cut off. */
  datatype Exit = Next(env: Env) | Done(fin: Final) | NoFuel

  function Lookup(env: Env, x: string): Value {
    if x in env.locals then env.locals[x] else Undefined
  }

  function Lift(o: Outcome, env: Env): Eval {
    match o
    case Ok(v, w) => Val(v, env.(world := w))
    case Throw(v, w) => Stop(Thrown(v, w))
    case Panic => Stop(Panicked)
  }

  function Apply1(h: Host, op: Op1, v: Value, w: World): Outcome {
    match op
    case Plus => Ok(v, w)
    case Prefix(u) => Unary(h, u, v, w)
    case Member(name) => h.getProp(v, Str(name), w)
  }

  function Apply2(h: Host, op: Op2, a: Value, b: Value, w: World): Outcome {
    match op
    case Infix(bop) => Binary(h, bop, a, b, w)
    case Index => h.getElem(a, b, w)
  }

  function Read(h: Host, x: string, scope: seq<string>, env: Env): Eval {
    if x in scope then Val(Lookup(env, x), env)
    else
      var (v, w) := LoadGlobal(h, x, env.world);
      Val(v, env.(world := w))
  }

  function Write(x: string, v: Value, scope: seq<string>, env: Env): Env {
    if x in scope then env.(locals := env.locals[x := v])
    else env.(world := env.world.(globals := env.world.globals[x := v]))
  }

  function EvalExpr(h: Host, e: Expr, scope: seq<string>, env: Env): Eval
    decreases e, 0
  {
    match e
    case Lit(lit) => Val(CodeGen.LiteralValue(h.number, lit), env)
    case Name(x) => Read(h, x, scope, env)
    case Global(x) => Read(h, x, [], env)
    case Assign(x, e1) => Store(x, EvalExpr(h, e1, scope, env), scope)
    case Update(x, op, e1) =>
      // The old value of `x` is read before `e1` runs.
      (match Read(h, x, scope, env)
       case Stop(fin) => Stop(fin)
       case Val(a, env1) =>
         match EvalExpr(h, e1, scope, env1)
         case Stop(fin) => Stop(fin)
         case Val(b, env2) => Store(x, Lift(Binary(h, op, a, b, env2.world), env2), scope))
    case Sequence(l, r) =>
      (match EvalExpr(h, l, scope, env)
       case Stop(fin) => Stop(fin)
       case Val(_, env1) => EvalExpr(h, r, scope, env1))
    case Cond(c, a, b) =>
      (match EvalExpr(h, c, scope, env)
       case Stop(fin) => Stop(fin)
       case Val(v, env1) => if Truthy(h, v) then EvalExpr(h, a, scope, env1) else EvalExpr(h, b, scope, env1))
    case Binop(op, l, r) =>
      (match EvalExpr(h, l, scope, env)
       case Stop(fin) => Stop(fin)
       case Val(a, env1) =>
         match EvalExpr(h, r, scope, env1)
         case Stop(fin) => Stop(fin)
         case Val(b, env2) => Lift(Apply2(h, op, a, b, env2.world), env2))
    case Unop(op, e1) =>
      (match EvalExpr(h, e1, scope, env)
       case Stop(fin) => Stop(fin)
       case Val(v, env1) => Lift(Apply1(h, op, v, env1.world), env1))
    case Apply(fn, args) =>
      (match EvalExpr(h, fn, scope, env)
       case Stop(fin) => Stop(fin)
       case Val(g, env1) =>
         match EvalAll(h, args, scope, env1)
         case StopArgs(fin) => Stop(fin)
         case Vals(vs, env2) => Lift(h.call(g, None, vs, env2.world), env2))
    case Invoke(o, name, args) =>
      (match EvalExpr(h, o, scope, env)
       case Stop(fin) => Stop(fin)
       case Val(this_, env1) =>
         match Lift(h.getProp(this_, Str(name), env1.world), env1)
         case Stop(fin) => Stop(fin)
         case Val(g, env2) =>
           match EvalAll(h, args, scope, env2)
           case StopArgs(fin) => Stop(fin)
           case Vals(vs, env3) => Lift(h.call(g, Some(this_), vs, env3.world), env3))
  }

  function Store(x: string, r: Eval, scope: seq<string>): Eval {
    match r
    case Stop(fin) => Stop(fin)
    case Val(v, env) => Val(v, Write(x, v, scope, env))
  }

  /** Arguments from left to right. */
  function EvalAll(h: Host, args: Args, scope: seq<string>, env: Env): EvalArgs
    decreases args, 0
  {
    match args
    case NoArgs => Vals([], env)
    case Snoc(init, last) =>
      match EvalAll(h, init, scope, env)
      case StopArgs(fin) => StopArgs(fin)
      case Vals(vs, env1) =>
        match EvalExpr(h, last, scope, env1)
        case Stop(fin) => StopArgs(fin)
        case Val(v, env2) => Vals(vs + [v], env2)
  }

  /** The expression a text denotes where `scope` is local. */
  function EvalText(h: Host, text: string, scope: seq<string>, env: Env): Eval {
    match Grammar.Full(h.number, scope, text)
    case None => Stop(Fault)
    case Some(e) => EvalExpr(h, e, scope, env)
  }

  /** The names local after a statement: every `var` in it counts, taken branch or not. */
  function ScopeAfter(s: Stmt, scope: seq<string>): seq<string>
    decreases s
  {
    match s
    case Var(name) => CodeGen.Declare(scope, name)
    case VarInit(name, _) => CodeGen.Declare(scope, name)
    case ReturnVoid => scope
    case ReturnText(_) => scope
    case ExprStmt(_) => scope
    case If(_, thn, els) =>
      var scope1 := ScopeAfterAll(thn, scope);
      if els.NoElse? then scope1 else ScopeAfterAll(els.body, scope1)
    case For(init, _, body, _) =>
      ScopeAfterAll(body, if init.None? then scope else ScopeAfter(init.value, scope))
  }

  function ScopeAfterAll(ss: seq<Stmt>, scope: seq<string>): seq<string>
    decreases ss
  {
    if ss == [] then scope else ScopeAfterAll(ss[1..], ScopeAfter(ss[0], scope))
  }

  function Discard(r: Eval): Exit {
    match r
    case Stop(fin) => Done(fin)
    case Val(_, env) => Next(env)
  }

  ghost function EvalStmt(h: Host, s: Stmt, scope: seq<string>, env: Env, fuel: nat): Exit
    decreases fuel, s, 1
  {
    match s
    case Var(name) => Next(env)
    case VarInit(name, text) =>
      (match EvalText(h, text, CodeGen.Declare(scope, name), env)
       case Stop(fin) => Done(fin)
       case Val(v, env1) => Next(env1.(locals := env1.locals[name := v])))
    case ReturnVoid => Done(Returned(Undefined, env.world))
    case ReturnText(text) =>
      (match EvalText(h, text, scope, env)
       case Stop(fin) => Done(fin)
       case Val(v, env1) => Done(Returned(v, env1.world)))
    case ExprStmt(text) => Discard(EvalText(h, text, scope, env))
    case If(cond, thn, els) =>
      (match EvalText(h, cond, scope, env)
       case Stop(fin) => Done(fin)
       case Val(v, env1) =>
         if Truthy(h, v) then EvalStmts(h, thn, scope, env1, fuel)
         else if els.NoElse? then Next(env1)
         else EvalStmts(h, els.body, ScopeAfterAll(thn, scope), env1, fuel))
    case For(init, _, _, _) =>
      if init.None? then EvalLoop(h, s, scope, env, fuel)
      else
        match EvalStmt(h, init.value, scope, env, fuel)
        case Next(env1) => EvalLoop(h, s, ScopeAfter(init.value, scope), env1, fuel)
        case other => other
  }

  /** The loop of `s` once its head has run; each round takes one unit of fuel. */
  ghost function EvalLoop(h: Host, s: Stmt, scope: seq<string>, env: Env, fuel: nat): Exit
    requires s.For?
    decreases fuel, s, 0
  {
    match (if s.test.None? then Val(Bool(true), env) else EvalText(h, s.test.value, scope, env))
    case Stop(fin) => Done(fin)
    case Val(v, env1) =>
      if !Truthy(h, v) then Next(env1)
      else if fuel == 0 then NoFuel
      else
        match EvalStmts(h, s.body, scope, env1, fuel)
        case Done(fin) => Done(fin)
        case NoFuel => NoFuel
        case Next(env2) =>
          match (if s.update.None? then Next(env2)
                 else EvalUpdate(h, s.update.value, ScopeAfterAll(s.body, scope), env2))
          case Next(env3) => EvalLoop(h, s, scope, env3, fuel - 1)
          case other => other
  }

  /** Adds a constant to a local, as 32-bit words when it holds an integer. */
  function Bumped(h: Host, x: string, amount: i32, env: Env): Exit {
    match Lift(Increment(h, Lookup(env, x), amount, env.world), env)
    case Stop(fin) => Done(fin)
    case Val(v, env1) => Next(env1.(locals := env1.locals[x := v]))
  }

  /** A `for` update: one that is spelled as adding a constant to a local, or any expression. */
  ghost function EvalUpdate(h: Host, update: string, scope: seq<string>, env: Env): Exit {
    if exists b :: Updates.Spells(update, b) && b.x in scope then
      var b :| Updates.Spells(update, b) && b.x in scope;
      Bumped(h, b.x, Wrap32(Updates.Amount(b)), env)
    else Discard(EvalText(h, Texts.Trim(update), scope, env))
  }

  ghost function EvalStmts(h: Host, ss: seq<Stmt>, scope: seq<string>, env: Env, fuel: nat): Exit
    decreases fuel, ss, 0
  {
    if ss == [] then Next(env)
    else
      match EvalStmt(h, ss[0], scope, env, fuel)
      case Next(env1) => EvalStmts(h, ss[1..], ScopeAfter(ss[0], scope), env1, fuel)
      case other => other
  }

  /** Each parameter holds its argument, the last one of a repeated name; a missing argument is undefined. */
  function Bind(params: seq<string>, args: seq<Value>, world: World): Env {
    Env(map x | x in params && Bytecode.LastIndexOf(params, x) < |args| :: args[Bytecode.LastIndexOf(params, x)], world)
  }

  /** A function call: its statements, then `undefined` if none of them returned. */
  ghost function EvalBody(h: Host, params: seq<string>, ss: seq<Stmt>, env: Env, fuel: nat): Exit {
    match EvalStmts(h, ss, CodeGen.DeclareAll([], params), env, fuel)
    case Next(env1) => Done(Returned(Undefined, env1.world))
    case other => other
  }
}
