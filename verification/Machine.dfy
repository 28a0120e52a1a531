/** The stack machine (src/vm.rs): one step, runs of steps, and the interpreter loop. */
module Machine {
  import opened Values
  import opened Bytecode

  datatype State = State(pc: nat, stack: seq<Value>, locals: seq<Value>, world: World)

  /** How a run ends. `Fault` collects the machine's internal errors, `FellOff` is running past the last instruction. */
  datatype Final =
    | Returned(v: Value, w: World)
    | Thrown(v: Value, w: World)
    | Panicked
    | Fault
    | FellOff(w: World)

  datatype Config = Running(s: State) | Halted(fin: Final)

  /** Goes on to the next instruction with `below` and the outcome's value on top, or ends the run. */
  function Continue(s: State, below: seq<Value>, o: Outcome): Config {
    match o
    case Ok(v, w) => Running(State(s.pc + 1, below + [v], s.locals, w))
    case Throw(v, w) => Halted(Thrown(v, w))
    case Panic => Halted(Panicked)
  }

  function Push(s: State, v: Value): Config {
    Running(s.(pc := s.pc + 1, stack := s.stack + [v]))
  }

  function Step(h: Host, f: Func, s: State): Config {
    if s.pc >= |f.code| then Halted(FellOff(s.world)) else
    var ins := f.code[s.pc];
    var depth := |s.stack|;
    match ins.op
    case Const =>
      if ins.a < |f.constants| then Push(s, f.constants[ins.a]) else Halted(Fault)
    case LoadLocal =>
      Push(s, if ins.a < |s.locals| then s.locals[ins.a] else Undefined)
    case StoreLocal =>
      if depth == 0 then Halted(Fault)
      else if ins.a < |s.locals| then
        Running(s.(pc := s.pc + 1, locals := s.locals[ins.a := s.stack[depth - 1]]))
      else Running(s.(pc := s.pc + 1))
    case IncLocal =>
      if ins.a < |s.locals| then
        match Increment(h, s.locals[ins.a], ins.b, s.world)
        case Ok(v, w) => Running(s.(pc := s.pc + 1, locals := s.locals[ins.a := v], world := w))
        case Throw(v, w) => Halted(Thrown(v, w))
        case Panic => Halted(Panicked)
      else Running(s.(pc := s.pc + 1))
    case LoadGlobal =>
      if ins.a < |f.constants| && f.constants[ins.a].Str? then
        var (v, w) := Values.LoadGlobal(h, f.constants[ins.a].s, s.world);
        Running(State(s.pc + 1, s.stack + [v], s.locals, w))
      else Halted(Fault)
    case StoreGlobal =>
      if ins.a < |f.constants| && f.constants[ins.a].Str? && depth > 0 then
        var name := f.constants[ins.a].s;
        Running(s.(pc := s.pc + 1, world := s.world.(globals := s.world.globals[name := s.stack[depth - 1]])))
      else Halted(Fault)
    case Bin(op) =>
      if depth < 2 then Halted(Fault)
      else Continue(s, s.stack[..depth - 2], Binary(h, op, s.stack[depth - 2], s.stack[depth - 1], s.world))
    case Un(op) =>
      if depth < 1 then Halted(Fault)
      else Continue(s, s.stack[..depth - 1], Unary(h, op, s.stack[depth - 1], s.world))
    case Drop =>
      Running(s.(pc := s.pc + 1, stack := if depth == 0 then [] else s.stack[..depth - 1]))
    case Dup =>
      if depth == 0 then Halted(Fault) else Push(s, s.stack[depth - 1])
    case Jump =>
      Running(s.(pc := ins.a))
    case JumpIfFalse =>
      if depth == 0 then Halted(Fault)
      else Running(s.(pc := if Truthy(h, s.stack[depth - 1]) then s.pc + 1 else ins.a, stack := s.stack[..depth - 1]))
    case Call =>
      if depth < ins.a + 1 then Halted(Fault)
      else
        var k := depth - ins.a;
        Continue(s, s.stack[..k - 1], h.call(s.stack[k - 1], None, s.stack[k..], s.world))
    case CallMethod =>
      if depth < ins.a + 2 then Halted(Fault)
      else
        var k := depth - ins.a;
        Continue(s, s.stack[..k - 2], h.call(s.stack[k - 1], Some(s.stack[k - 2]), s.stack[k..], s.world))
    case GetProp =>
      if depth < 2 then Halted(Fault)
      else Continue(s, s.stack[..depth - 2], h.getProp(s.stack[depth - 2], s.stack[depth - 1], s.world))
    case GetElem =>
      if depth < 2 then Halted(Fault)
      else Continue(s, s.stack[..depth - 2], h.getElem(s.stack[depth - 2], s.stack[depth - 1], s.world))
    case Return =>
      Halted(Returned(if depth == 0 then Undefined else s.stack[depth - 1], s.world))
  }

  /** The configuration after at most `n` instructions. */
  function Exec(h: Host, f: Func, c: Config, n: nat): Config
    decreases n
  {
    if n == 0 || c.Halted? then c else Exec(h, f, Step(h, f, c.s), n - 1)
  }

  ghost predicate Reaches(h: Host, f: Func, c: Config, d: Config) {
    exists n: nat :: Exec(h, f, c, n) == d
  }

  /** Still running after `n` instructions. */
  predicate Survives(h: Host, f: Func, c: Config, n: nat) {
    Exec(h, f, c, n).Running?
  }

  lemma {:induction false} ExecSplit(h: Host, f: Func, c: Config, m: nat, n: nat)
    ensures Exec(h, f, Exec(h, f, c, m), n) == Exec(h, f, c, m + n)
    decreases m
  {
    if m > 0 && c.Running? {
      ExecSplit(h, f, Step(h, f, c.s), m - 1, n);
    }
  }

  lemma Trans(h: Host, f: Func, c: Config, d: Config, e: Config)
    requires Reaches(h, f, c, d) && Reaches(h, f, d, e)
    ensures Reaches(h, f, c, e)
  {
    var m: nat :| Exec(h, f, c, m) == d;
    var n: nat :| Exec(h, f, d, n) == e;
    ExecSplit(h, f, c, m, n);
  }

  lemma Here(h: Host, f: Func, c: Config)
    ensures Reaches(h, f, c, c)
  {
    assert Exec(h, f, c, 0) == c;
  }

  lemma One(h: Host, f: Func, s: State)
    ensures Reaches(h, f, Running(s), Step(h, f, s))
  {
    assert Exec(h, f, Running(s), 1) == Exec(h, f, Step(h, f, s), 0);
  }

  /** A step taken after `c` reaches a state. */
  lemma Then(h: Host, f: Func, c: Config, s: State)
    requires Reaches(h, f, c, Running(s))
    ensures Reaches(h, f, c, Step(h, f, s))
  {
    One(h, f, s);
    Trans(h, f, c, Running(s), Step(h, f, s));
  }

  /** The machine is deterministic: a run has at most one end. */
  lemma OneEnd(h: Host, f: Func, c: Config, x: Final, y: Final)
    requires Reaches(h, f, c, Halted(x)) && Reaches(h, f, c, Halted(y))
    ensures x == y
  {
    var m: nat :| Exec(h, f, c, m) == Halted(x);
    var n: nat :| Exec(h, f, c, n) == Halted(y);
    ExecSplit(h, f, c, m, n);
    ExecSplit(h, f, c, n, m);
  }

  /** A run that still goes on after any number of steps never ends, and a run that ends stops going on. */
  lemma EndOrSurvive(h: Host, f: Func, c: Config)
    ensures (exists x :: Reaches(h, f, c, Halted(x))) <==> (exists n: nat :: !Survives(h, f, c, n))
  {
    if x :| Reaches(h, f, c, Halted(x)) {
      var n: nat :| Exec(h, f, c, n) == Halted(x);
      assert !Survives(h, f, c, n);
    }
    if n: nat :| !Survives(h, f, c, n) {
      assert Reaches(h, f, c, Halted(Exec(h, f, c, n).fin));
    }
  }

  lemma SurvivesLess(h: Host, f: Func, c: Config, k: nat, n: nat)
    requires k <= n && Survives(h, f, c, n)
    ensures Survives(h, f, c, k)
  {
    ExecSplit(h, f, c, k, n - k);
  }

  lemma SurvivesAfter(h: Host, f: Func, c: Config, d: Config, n: nat)
    requires Reaches(h, f, c, d) && Survives(h, f, d, n)
    ensures Survives(h, f, c, n)
  {
    var m: nat :| Exec(h, f, c, m) == d;
    ExecSplit(h, f, c, m, n);
    SurvivesLess(h, f, c, n, m + n);
  }

  /** The interpreter loop over `pc`, the stack and the locals, stopped after `limit` instructions. */
  method RunModule(h: Host, f: Func, args: seq<Value>, world: World, limit: nat) returns (c: Config)
    ensures c == Exec(h, f, Running(Entry(f, args, world)), limit)
  {
    var locals := seq(|f.locals|, _ => Undefined);
    var i := 0;
    while i < |args|
      invariant 0 <= i <= |args|
      invariant |locals| == |f.locals|
      invariant forall k :: 0 <= k < |locals| ==> locals[k] == if k < i then args[k] else Undefined
    {
      if i < |locals| {
        locals := locals[i := args[i]];
      }
      i := i + 1;
    }
    assert locals == Entry(f, args, world).locals;
    var state := State(0, [], locals, world);
    var steps := 0;
    while steps < limit
      invariant 0 <= steps <= limit
      invariant Exec(h, f, Running(Entry(f, args, world)), limit) == Exec(h, f, Running(state), limit - steps)
    {
      match Step(h, f, state) {
        case Halted(fin) => return Halted(fin);
        case Running(next) => state := next;
      }
      steps := steps + 1;
    }
    c := Running(state);
  }

  /** The first state: every local undefined, then the arguments written over the slots in order. */
  function Entry(f: Func, args: seq<Value>, world: World): State {
    State(0, [], seq(|f.locals|, i requires 0 <= i => if i < |args| then args[i] else Undefined), world)
  }
}
