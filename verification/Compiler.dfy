/** The one-pass compiler as it runs: it emits and patches code while it reads the text (src/compiler.rs). */
module Compiler {
  import opened Values
  import opened Bytecode
  import opened Syntax
  import opened Texts
  import opened Lexer
  import Grammar
  import CodeGen
  import Utf8

  class StmtCompiler {
    const num: Grammar.Numbers
    /** The function built so far. */
    var func: Func

    constructor (num: Grammar.Numbers)
      ensures this.num == num && func == EMPTY_FUNC
    {
      this.num := num;
      func := EMPTY_FUNC;
    }

    method AddParams(names: seq<string>)
      modifies this
      ensures func == old(func).(locals := CodeGen.DeclareAll(old(func.locals), names))
    {
      var i := 0;
      while i < |names|
        invariant 0 <= i <= |names|
        invariant func == old(func).(locals := func.locals)
        invariant CodeGen.DeclareAll(func.locals, names[i..]) == CodeGen.DeclareAll(old(func.locals), names)
      {
        var _ := EnsureLocal(names[i]);
        assert names[i..][1..] == names[i + 1..];
        i := i + 1;
      }
    }

    method FindLocal(name: string) returns (slot: Option<nat>)
      ensures slot == if IndexOf(func.locals, name) < |func.locals| then Some(IndexOf(func.locals, name)) else None
    {
      var i := Position(func.locals, name);
      slot := if i < |func.locals| then Some(i) else None;
    }

    method EnsureLocal(name: string) returns (slot: nat)
      modifies this
      ensures func == old(func).(locals := CodeGen.Declare(old(func.locals), name))
      ensures slot == IndexOf(old(func.locals), name)
    {
      slot := Position(func.locals, name);
      if slot == |func.locals| {
        func := func.(locals := func.locals + [name]);
      }
    }

    /** The pool entry holding `v`, added at the end when there is none. */
    method SharedConst(v: Value) returns (i: nat)
      modifies this
      ensures i == IndexOf(old(func.constants), v)
      ensures func == old(func).(constants := if i < |old(func.constants)| then old(func.constants)
                                              else old(func.constants) + [v])
    {
      i := Position(func.constants, v);
      if i == |func.constants| {
        func := func.(constants := func.constants + [v]);
      }
    }

    method Emit(op: Op, a: nat)
      modifies this
      ensures func == CodeGen.Emit(old(func), op, a)
    {
      func := func.(code := func.code + [Instr(op, a, 0)]);
    }

    method EmitShared(op: Op, v: Value)
      modifies this
      ensures func == CodeGen.EmitShared(old(func), op, v)
    {
      var i := SharedConst(v);
      Emit(op, i);
    }

    method EmitLiteral(lit: Literal)
      modifies this
      ensures func == CodeGen.EmitLiteral(num, old(func), lit)
    {
      var v := CodeGen.LiteralValue(num, lit);
      if CodeGen.SharesEntry(num, lit) {
        EmitShared(Const, v);
      } else {
        var i := |func.constants|;
        func := func.(constants := func.constants + [v]);
        Emit(Const, i);
      }
    }

    method EmitLoad(x: string)
      modifies this
      ensures func == CodeGen.EmitLoad(old(func), x)
    {
      var slot := FindLocal(x);
      if slot.Some? {
        Emit(LoadLocal, slot.value);
      } else {
        EmitShared(LoadGlobal, Str(x));
      }
    }

    method EmitStore(x: string)
      modifies this
      ensures func == CodeGen.EmitStore(old(func), x)
    {
      var slot := FindLocal(x);
      if slot.Some? {
        Emit(Dup, 0);
        Emit(StoreLocal, slot.value);
        Emit(Drop, 0);
      } else {
        EmitShared(StoreGlobal, Str(x));
      }
    }

    /** Writes a placeholder jump and remembers where it is. */
    method EmitJump(op: Op) returns (at: nat)
      modifies this
      ensures at == |old(func.code)| && func == CodeGen.Emit(old(func), op, 0)
    {
      at := |func.code|;
      Emit(op, 0);
    }

    method PatchJump(at: nat)
      modifies this
      ensures func == CodeGen.Patch(old(func), at)
    {
      if at < |func.code| {
        func := func.(code := func.code[at := func.code[at].(a := |func.code|)]);
      }
    }

    method CompileFullExpr(text: string) returns (ok: bool)
      modifies this
      ensures ok == CodeGen.CompileText(num, text, old(func)).Some?
      ensures ok ==> func == CodeGen.CompileText(num, text, old(func)).value
    {
      var ec := new ExprCompiler(this, text);
      ok := ec.ParseComma();
      if ok {
        ec.SkipWs();
        ok := ec.pos == |ec.input|;
      }
    }

    method CompileDropped(text: string) returns (ok: bool)
      modifies this
      ensures ok == CodeGen.CompileDropped(num, text, old(func)).Some?
      ensures ok ==> func == CodeGen.CompileDropped(num, text, old(func)).value
    {
      ok := CompileFullExpr(text);
      if ok {
        Emit(Drop, 0);
      }
    }

    method CompileStmt(s: Stmt) returns (ok: bool)
      modifies this
      ensures ok == CodeGen.CompileStmt(num, s, old(func)).Some?
      ensures ok ==> func == CodeGen.CompileStmt(num, s, old(func)).value
      decreases s, 1
    {
      match s {
        case Var(name) =>
          ok := IsIdentifier(name);
          if ok {
            var _ := EnsureLocal(name);
          }
        case VarInit(name, text) =>
          ok := IsIdentifier(name);
          if ok {
            var slot := EnsureLocal(name);
            ok := CompileFullExpr(text);
            if ok {
              Emit(StoreLocal, slot);
              Emit(Drop, 0);
            }
          }
        case ReturnVoid =>
          EmitShared(Const, Undefined);
          Emit(Return, 0);
          ok := true;
        case ReturnText(text) =>
          ok := CompileFullExpr(text);
          if ok {
            Emit(Return, 0);
          }
        case ExprStmt(text) =>
          ok := CompileDropped(text);
        case If(_, _, _) =>
          ok := CompileIf(s);
        case For(init, _, _, _) =>
          ok := true;
          if init.Some? {
            ok := CompileStmt(init.value);
          }
          if ok {
            ok := CompileLoop(s);
          }
      }
    }

    method CompileIf(s: Stmt) returns (ok: bool)
      requires s.If?
      modifies this
      ensures ok == CodeGen.CompileStmt(num, s, old(func)).Some?
      ensures ok ==> func == CodeGen.CompileStmt(num, s, old(func)).value
      decreases s, 0
    {
      ok := CompileFullExpr(s.cond);
      if !ok { return; }
      var jumpElse := EmitJump(JumpIfFalse);
      ok := CompileStmts(s.thn);
      if !ok { return; }
      if s.els.NoElse? {
        PatchJump(jumpElse);
      } else {
        var jumpEnd := EmitJump(Jump);
        PatchJump(jumpElse);
        ok := CompileStmts(s.els.body);
        if ok {
          PatchJump(jumpEnd);
        }
      }
    }

    method CompileLoop(s: Stmt) returns (ok: bool)
      requires s.For?
      modifies this
      ensures ok == CodeGen.CompileLoop(num, s, old(func)).Some?
      ensures ok ==> func == CodeGen.CompileLoop(num, s, old(func)).value
      decreases s, 0
    {
      var loopStart := |func.code|;
      var jumpEnd := 0;
      if s.test.Some? {
        ok := CompileFullExpr(s.test.value);
        if !ok { return; }
        jumpEnd := EmitJump(JumpIfFalse);
      }
      ok := CompileStmts(s.body);
      if !ok { return; }
      if s.update.Some? {
        ok := CompileUpdate(s.update.value);
        if !ok { return; }
      }
      Emit(Jump, loopStart);
      if s.test.Some? {
        PatchJump(jumpEnd);
      }
    }

    /** One increment of a local, if `name` is one. */
    method TryIncrement(name: string, amount: i32) returns (done: bool)
      modifies this
      ensures done == CodeGen.LocalStep(name, amount, old(func.locals)).Some?
      ensures func == if done then CodeGen.WithIncrement(old(func), IndexOf(old(func.locals), name), amount) else old(func)
    {
      done := IsIdentifier(name);
      if done {
        var slot := FindLocal(name);
        done := slot.Some?;
        if done {
          func := CodeGen.WithIncrement(func, slot.value, amount);
        }
      }
    }

    /** `i += N` or `i -= N`; the negation wraps. */
    method TryCompound(u: string, sign: char) returns (done: bool)
      modifies this
      ensures var form := CodeGen.CompoundForm(u, sign, old(func.locals));
        done == form.Some? && func == if done then CodeGen.WithIncrement(old(func), form.value.0, form.value.1) else old(func)
    {
      hide Trim, ParseI32, FindPair;
      var at := FindPair(u, sign, '=');
      if at == |u| { return false; }
      var n := ParseI32(Trim(u[at + 2..]));
      if n.None? { return false; }
      var v: int := n.value;
      done := TryIncrement(Trim(u[..at]), if sign == '-' then Wrap32(0 - v) else v);
    }

    /** Tries the forms of an increment one after the other. */
    method TryCompileIncUpdate(update: string) returns (done: bool)
      modifies this
      ensures var form := CodeGen.IncrementForm(update, old(func.locals));
        done == form.Some? && func == if done then CodeGen.WithIncrement(old(func), form.value.0, form.value.1) else old(func)
    {
      hide IsIdentifier, Trim, FindPair, ParseI32;
      var u := Trim(update);
      done := false;
      if |u| >= 3 && u[|u| - 2..] == "++" {
        done := TryIncrement(Trim(u[..|u| - 2]), 1);
      }
      if !done && |u| >= 3 && u[|u| - 2..] == "--" {
        done := TryIncrement(Trim(u[..|u| - 2]), -1);
      }
      if done { return; }
      if |u| >= 3 && u[..2] == "++" {
        done := TryIncrement(Trim(u[2..]), 1);
      }
      if !done && |u| >= 3 && u[..2] == "--" {
        done := TryIncrement(Trim(u[2..]), -1);
      }
      if done { return; }
      done := TryCompound(u, '+');
      if done { return; }
      done := TryCompound(u, '-');
    }

    method CompileUpdate(update: string) returns (ok: bool)
      modifies this
      ensures ok == CodeGen.CompileUpdate(num, update, old(func)).Some?
      ensures ok ==> func == CodeGen.CompileUpdate(num, update, old(func)).value
    {
      ok := TryCompileIncUpdate(update);
      if !ok {
        ok := CompileDropped(Trim(update));
      }
    }

    method CompileStmts(ss: seq<Stmt>) returns (ok: bool)
      modifies this
      ensures ok == CodeGen.CompileStmts(num, ss, old(func)).Some?
      ensures ok ==> func == CodeGen.CompileStmts(num, ss, old(func)).value
      decreases ss, 0
    {
      var i := 0;
      while i < |ss|
        invariant 0 <= i <= |ss|
        invariant CodeGen.CompileStmts(num, ss[i..], func) == CodeGen.CompileStmts(num, ss, old(func))
      {
        assert ss[i..][0] == ss[i] && ss[i..][1..] == ss[i + 1..];
        ok := CompileStmt(ss[i]);
        if !ok { return; }
        i := i + 1;
      }
      ok := true;
    }
  }

  /** A function body, from nothing to the finished function. */
  method CompileBody(num: Grammar.Numbers, params: seq<string>, ss: seq<Stmt>) returns (r: Option<Func>)
    ensures r == CodeGen.CompileBody(num, params, ss)
  {
    var sc := new StmtCompiler(num);
    sc.AddParams(params);
    var ok := sc.CompileStmts(ss);
    if !ok { return None; }
    sc.EmitShared(Const, Undefined);
    sc.Emit(Return, 0);
    r := Some(sc.func);
  }

  /** Linear search for `x`. */
  method Position<T(==)>(s: seq<T>, x: T) returns (i: nat)
    ensures i == IndexOf(s, x)
  {
    i := 0;
    while i < |s|
      invariant 0 <= i <= |s|
      invariant IndexOf(s, x) == i + IndexOf(s[i..], x)
    {
      if s[i] == x { return; }
      assert s[i..][1..] == s[i + 1..];
      i := i + 1;
    }
  }

  /** The reading stopped at `p` where the grammar stops, and `f` was extended to `g` by the code of the tree found. */
  predicate Compiled(num: Grammar.Numbers, r: Grammar.Parse, f: Func, ok: bool, p: nat, g: Func) {
    && g.locals == f.locals
    && ok == r.Got?
    && (ok ==> p == r.p && g == CodeGen.CompileExpr(num, r.e, f))
  }

  class ExprCompiler {
    const sc: StmtCompiler
    const input: string
    var pos: nat

    /** The input is the bytes of the text, one character each. */
    constructor (sc: StmtCompiler, text: string)
      ensures this.sc == sc && input == Utf8.AsRead(text) && pos == 0
    {
      this.sc := sc;
      input := Utf8.AsRead(text);
      pos := 0;
    }

    // ---- characters ----

    method SkipWs()
      requires pos <= |input|
      modifies this`pos
      ensures pos == SkipSpace(input, old(pos))
    {
      while pos < |input| && IsSpace(input[pos])
        invariant pos <= |input|
        invariant SkipSpace(input, pos) == SkipSpace(input, old(pos))
      {
        pos := pos + 1;
      }
    }

    method ConsumeDigits()
      requires pos <= |input|
      modifies this`pos
      ensures pos == SkipDigits(input, old(pos))
    {
      while pos < |input| && IsDigit(input[pos])
        invariant pos <= |input|
        invariant SkipDigits(input, pos) == SkipDigits(input, old(pos))
      {
        pos := pos + 1;
      }
    }

    method Consume(c: char) returns (found: bool)
      modifies this`pos
      ensures found == Looking(input, old(pos), c)
      ensures pos == if found then old(pos) + 1 else old(pos)
    {
      found := Looking(input, pos, c);
      if found {
        pos := pos + 1;
      }
    }

    method ConsumeSeq(word: string) returns (found: bool)
      modifies this`pos
      ensures found == LookingAt(input, old(pos), word)
      ensures pos == if found then old(pos) + |word| else old(pos)
    {
      found := LookingAt(input, pos, word);
      if found {
        pos := pos + |word|;
      }
    }

    /** The identifier here after white space; without one only the white space is skipped. */
    method ParseIdentifier() returns (x: Option<string>)
      requires pos <= |input|
      modifies this`pos
      ensures var start := SkipSpace(input, old(pos));
        && pos == IdentEnd(input, start)
        && x == if start < pos then Some(input[start..pos]) else None
    {
      SkipWs();
      var start := pos;
      if pos == |input| || !IsIdentStart(input[pos]) {
        return None;
      }
      pos := pos + 1;
      while pos < |input| && IsIdentPart(input[pos])
        invariant start < pos <= |input|
        invariant SkipIdent(input, pos) == SkipIdent(input, start + 1)
      {
        pos := pos + 1;
      }
      x := Some(input[start..pos]);
    }

    method ParseNumber() returns (lexeme: string)
      requires pos < |input| && (IsDigit(input[pos]) || input[pos] == '.')
      modifies this`pos
      ensures pos == NumberEnd(input, old(pos)) && lexeme == input[old(pos)..pos]
    {
      hide SkipDigits;
      var start := pos;
      if input[pos] == '.' {
        pos := pos + 1;
        ConsumeDigits();
      } else {
        ConsumeDigits();
        var dot := Consume('.');
        if dot {
          ConsumeDigits();
        }
      }
      if Looking(input, pos, 'e') || Looking(input, pos, 'E') {
        pos := pos + 1;
        if Looking(input, pos, '+') || Looking(input, pos, '-') {
          pos := pos + 1;
        }
        ConsumeDigits();
      }
      lexeme := input[start..pos];
    }

    /** Reads a string literal from its opening quote to just after the closing one. */
    method ParseStringLiteral() returns (s: Option<string>)
      requires pos < |input|
      modifies this`pos
      ensures match ScanString(input, old(pos) + 1, input[old(pos)], "")
        case Unterminated => s == None
        case Token(text, p) => s == Some(text) && pos == p
    {
      var quote := input[pos];
      pos := pos + 1;
      var acc := "";
      while pos < |input|
        invariant ScanString(input, pos, quote, acc) == ScanString(input, old(pos) + 1, quote, "")
      {
        if input[pos] == quote {
          pos := pos + 1;
          return Some(acc);
        }
        if input[pos] == '\\' && pos + 1 < |input| {
          var piece := ParseEscape();
          acc := acc + piece;
        } else {
          acc := acc + [input[pos]];
        }
        pos := pos + 1;
      }
      s := None;
    }

    /** Moves from a backslash to the last character of its escape. */
    method ParseEscape() returns (piece: string)
      requires pos + 1 < |input|
      modifies this`pos
      ensures (piece, pos) == Escape(input, old(pos) + 1)
    {
      hide ParseHex, CharOf, SkipToBrace;
      pos := pos + 1;
      match input[pos] {
        case 'n' => piece := "\n";
        case 'r' => piece := "\r";
        case 't' => piece := "\t";
        case 'b' => piece := ['\U{0008}'];
        case 'f' => piece := ['\U{000C}'];
        case 'v' => piece := ['\U{000B}'];
        case '\\' => piece := "\\";
        case '\'' => piece := "'";
        case '"' => piece := "\"";
        case '0' => piece := ['\0'];
        case 'x' => piece := ParseHexPair();
        case 'u' => piece := ParseUnicode();
        case other => piece := ['\\', other];
      }
    }

    /** From the `x` to the last of two hexadecimal digits. */
    method ParseHexPair() returns (piece: string)
      requires Looking(input, pos, 'x')
      modifies this`pos
      ensures (piece, pos) == Escape(input, old(pos))
    {
      hide ParseHex, CharOf;
      pos := pos + 1;
      piece := "";
      if pos + 1 < |input| {
        piece := CharOf(ParseHex(input[pos..pos + 2]));
        pos := pos + 1;
      }
    }

    /** From the `u` to a closing brace, or to the last of four hexadecimal digits. */
    method ParseUnicode() returns (piece: string)
      requires Looking(input, pos, 'u')
      modifies this`pos
      ensures (piece, pos) == Escape(input, old(pos))
    {
      hide ParseHex, CharOf, SkipToBrace;
      pos := pos + 1;
      piece := "";
      if Looking(input, pos, '{') {
        pos := pos + 1;
        piece := ParseBraces();
      } else if pos + 3 < |input| {
        piece := CharOf(ParseHex(input[pos..pos + 4]));
        pos := pos + 3;
      }
    }

    /** The hexadecimal digits up to the brace. */
    method ParseBraces() returns (piece: string)
      requires pos <= |input|
      modifies this`pos
      ensures pos == SkipToBrace(input, old(pos)) && piece == CharOf(ParseHex(input[old(pos)..pos]))
    {
      var start := pos;
      while pos < |input| && input[pos] != '}'
        invariant start <= pos <= |input|
        invariant SkipToBrace(input, pos) == SkipToBrace(input, start)
      {
        pos := pos + 1;
      }
      piece := CharOf(ParseHex(input[start..pos]));
    }

    // ---- the parse levels ----

    method ParseComma() returns (ok: bool)
      requires pos <= |input|
      modifies this, sc
      ensures Compiled(sc.num, Grammar.Comma(sc.num, sc.func.locals, input, old(pos)), old(sc.func), ok, pos, sc.func)
      decreases |input| - pos, 24
    {
      hide Grammar.Conditional,
        CodeGen.EmitLoad, CodeGen.EmitStore, CodeGen.EmitLiteral, CodeGen.EmitOp1, CodeGen.Patch, CodeGen.CompileArgs;
      ghost var p0, f0 := pos, sc.func;
      ok := ParseConditional();
      if !ok { return; }
      ghost var left := Grammar.Conditional(sc.num, sc.func.locals, input, p0).e;
      while true
        invariant p0 <= pos <= |input| && sc.func.locals == f0.locals
        invariant sc.func == CodeGen.CompileExpr(sc.num, left, f0)
        invariant Grammar.Comma(sc.num, f0.locals, input, p0) == Grammar.CommaRest(sc.num, f0.locals, input, left, pos)
        decreases |input| - pos
      {
        SkipWs();
        var more := Consume(',');
        if !more { return; }
        sc.Emit(Drop, 0);
        ghost var r := Grammar.Conditional(sc.num, f0.locals, input, pos);
        ok := ParseConditional();
        if !ok { return; }
        left := Sequence(left, r.e);
      }
    }

    method ParseConditional() returns (ok: bool)
      requires pos <= |input|
      modifies this, sc
      ensures Compiled(sc.num, Grammar.Conditional(sc.num, sc.func.locals, input, old(pos)), old(sc.func), ok, pos, sc.func)
      decreases |input| - pos, 22
    {
      hide Grammar.Disjunction, Grammar.BothBranches,
        CodeGen.EmitLoad, CodeGen.EmitStore, CodeGen.EmitLiteral, CodeGen.EmitOp1, CodeGen.CompileArgs;
      ok := ParseLogicalOr();
      if !ok { return; }
      SkipWs();
      var question := Consume('?');
      if !question { return; }
      ok := ParseBranches();
    }

    /** The branches of a conditional whose test has just been compiled. */
    method ParseBranches() returns (ok: bool)
      requires pos <= |input|
      modifies this, sc
      ensures sc.func.locals == old(sc.func.locals)
      ensures match Grammar.BothBranches(sc.num, sc.func.locals, input, old(pos))
        case NoBranches => !ok
        case Two(a, b, p) => ok && pos == p && sc.func == CodeGen.BranchCode(sc.num, a, b, old(sc.func))
      decreases |input| - pos, 23
    {
      var jumpIfFalse := sc.EmitJump(JumpIfFalse);
      ok := ParseConditional();
      if !ok { return; }
      var jumpEnd := sc.EmitJump(Jump);
      sc.PatchJump(jumpIfFalse);
      SkipWs();
      ok := Consume(':');
      if !ok { return; }
      ok := ParseConditional();
      if !ok { return; }
      sc.PatchJump(jumpEnd);
    }

    method ParseLogicalOr() returns (ok: bool)
      requires pos <= |input|
      modifies this, sc
      ensures Compiled(sc.num, Grammar.Disjunction(sc.num, sc.func.locals, input, old(pos)), old(sc.func), ok, pos, sc.func)
      decreases |input| - pos, 20
    {
      hide Grammar.Conjunction,
        CodeGen.EmitLoad, CodeGen.EmitStore, CodeGen.EmitLiteral, CodeGen.EmitOp1, CodeGen.Patch, CodeGen.CompileArgs;
      ghost var p0, f0 := pos, sc.func;
      ok := ParseLogicalAnd();
      if !ok { return; }
      ghost var left := Grammar.Conjunction(sc.num, sc.func.locals, input, p0).e;
      while true
        invariant p0 <= pos <= |input| && sc.func.locals == f0.locals
        invariant sc.func == CodeGen.CompileExpr(sc.num, left, f0)
        invariant Grammar.Disjunction(sc.num, f0.locals, input, p0)
               == Grammar.DisjunctionRest(sc.num, f0.locals, input, left, pos)
        decreases |input| - pos
      {
        SkipWs();
        var more := ConsumeSeq("||");
        if !more { return; }
        ghost var r := Grammar.Conjunction(sc.num, f0.locals, input, pos);
        ok := ParseLogicalAnd();
        if !ok { return; }
        sc.Emit(Bin(Or), 0);
        left := Binop(Infix(Or), left, r.e);
      }
    }

    method ParseLogicalAnd() returns (ok: bool)
      requires pos <= |input|
      modifies this, sc
      ensures Compiled(sc.num, Grammar.Conjunction(sc.num, sc.func.locals, input, old(pos)), old(sc.func), ok, pos, sc.func)
      decreases |input| - pos, 18
    {
      hide Grammar.Comparison,
        CodeGen.EmitLoad, CodeGen.EmitStore, CodeGen.EmitLiteral, CodeGen.EmitOp1, CodeGen.Patch, CodeGen.CompileArgs;
      ghost var p0, f0 := pos, sc.func;
      ok := ParseComparison();
      if !ok { return; }
      ghost var left := Grammar.Comparison(sc.num, sc.func.locals, input, p0).e;
      while true
        invariant p0 <= pos <= |input| && sc.func.locals == f0.locals
        invariant sc.func == CodeGen.CompileExpr(sc.num, left, f0)
        invariant Grammar.Conjunction(sc.num, f0.locals, input, p0)
               == Grammar.ConjunctionRest(sc.num, f0.locals, input, left, pos)
        decreases |input| - pos
      {
        SkipWs();
        var more := ConsumeSeq("&&");
        if !more { return; }
        ghost var r := Grammar.Comparison(sc.num, f0.locals, input, pos);
        ok := ParseComparison();
        if !ok { return; }
        sc.Emit(Bin(And), 0);
        left := Binop(Infix(And), left, r.e);
      }
    }

    method ParseComparison() returns (ok: bool)
      requires pos <= |input|
      modifies this, sc
      ensures Compiled(sc.num, Grammar.Comparison(sc.num, sc.func.locals, input, old(pos)), old(sc.func), ok, pos, sc.func)
      decreases |input| - pos, 16
    {
      hide Grammar.Assignment,
        CodeGen.EmitLoad, CodeGen.EmitStore, CodeGen.EmitLiteral, CodeGen.EmitOp1, CodeGen.Patch, CodeGen.CompileArgs;
      ghost var p0, f0 := pos, sc.func;
      ok := ParseAssignment();
      if !ok { return; }
      ghost var left := Grammar.Assignment(sc.num, sc.func.locals, input, p0).e;
      while true
        invariant p0 <= pos <= |input| && sc.func.locals == f0.locals
        invariant sc.func == CodeGen.CompileExpr(sc.num, left, f0)
        invariant Grammar.Comparison(sc.num, f0.locals, input, p0)
               == Grammar.ComparisonRest(sc.num, f0.locals, input, left, pos)
        decreases |input| - pos
      {
        SkipWs();
        ghost var r := Grammar.CompareTail(sc.num, f0.locals, input, pos);
        var more: bool;
        ok, more := ParseCompareTail();
        if !ok || !more { return; }
        left := Binop(Infix(r.op), left, r.e);
      }
    }

    /** A comparison operator and its right operand, after the code of the left one. */
    method ParseCompareTail() returns (ok: bool, more: bool)
      requires pos <= |input|
      modifies this, sc
      ensures sc.func.locals == old(sc.func.locals)
      ensures match Grammar.CompareTail(sc.num, sc.func.locals, input, old(pos))
        case NoOp => ok && !more && pos == old(pos) && sc.func == old(sc.func)
        case BadOp => !ok
        case AnOp(op, e, p) =>
          ok && more && pos == p && sc.func == CodeGen.Emit(CodeGen.CompileExpr(sc.num, e, old(sc.func)), Bin(op), 0)
      decreases |input| - pos, 14
    {
      var found := Grammar.CompareOp(input, pos);
      if found.None? { return true, false; }
      var (op, length) := found.value;
      pos := pos + length;
      ok := ParseAssignment();
      if ok {
        sc.Emit(Bin(op), 0);
      }
      more := true;
    }

    method ParseAssignment() returns (ok: bool)
      requires pos <= |input|
      modifies this, sc
      ensures Compiled(sc.num, Grammar.Assignment(sc.num, sc.func.locals, input, old(pos)), old(sc.func), ok, pos, sc.func)
      decreases |input| - pos, 14
    {
      SkipWs();
      var start := pos;
      var name := ParseIdentifier();
      if name.Some? {
        ok := ParseAfterName(start, name.value);
      } else {
        ok := ParseExpr();
      }
    }

    /** Assigns to the name just read, or goes back to `start` and reads an operand there. */
    method ParseAfterName(start: nat, x: string) returns (ok: bool)
      requires start < pos <= |input| && x == input[start..pos]
      modifies this, sc
      ensures Compiled(sc.num, Grammar.AfterName(sc.num, sc.func.locals, input, start, old(pos)), old(sc.func), ok, pos, sc.func)
      decreases |input| - start, 13
    {
      hide Grammar.Sum, Grammar.Assignment, CodeGen.EmitLoad, CodeGen.EmitLiteral, CodeGen.EmitOp1, CodeGen.Patch,
        CodeGen.CompileArgs;
      SkipWs();
      var sign := ConsumeSeq("+=");
      if sign {
        ok := ParseUpdate(x, Add);
        return;
      }
      sign := ConsumeSeq("-=");
      if sign {
        var slot := sc.FindLocal(x);
        IndexOfFirst(sc.func.locals, x);
        if slot.None? { return false; }
        ok := ParseUpdate(x, Sub);
        return;
      }
      if Looking(input, pos, '=') && !Looking(input, pos + 1, '=') {
        pos := pos + 1;
        ok := ParseAssignment();
        if ok {
          sc.EmitStore(x);
        }
        return;
      }
      pos := start;
      ok := ParseExpr();
    }

    /** The rest of `x += e` or `x -= e` once the sign is read: `x` is loaded before `e` is compiled. */
    method ParseUpdate(x: string, op: BinOp) returns (ok: bool)
      requires pos <= |input|
      modifies this, sc
      ensures var r := Grammar.Sum(sc.num, sc.func.locals, input, old(pos));
        Compiled(sc.num, if r.Got? then Grammar.Got(Update(x, op, r.e), r.p) else Grammar.Fail, old(sc.func), ok, pos, sc.func)
      decreases |input| - pos, 14
    {
      sc.EmitLoad(x);
      ok := ParseExpr();
      if !ok { return; }
      sc.Emit(Bin(op), 0);
      sc.EmitStore(x);
    }

    method ParseExpr() returns (ok: bool)
      requires pos <= |input|
      modifies this, sc
      ensures Compiled(sc.num, Grammar.Sum(sc.num, sc.func.locals, input, old(pos)), old(sc.func), ok, pos, sc.func)
      decreases |input| - pos, 12
    {
      hide Grammar.Term,
        CodeGen.EmitLoad, CodeGen.EmitStore, CodeGen.EmitLiteral, CodeGen.EmitOp1, CodeGen.Patch, CodeGen.CompileArgs;
      ghost var p0, f0 := pos, sc.func;
      ok := ParseTerm();
      if !ok { return; }
      ghost var left := Grammar.Term(sc.num, sc.func.locals, input, p0).e;
      while true
        invariant p0 <= pos <= |input| && sc.func.locals == f0.locals
        invariant sc.func == CodeGen.CompileExpr(sc.num, left, f0)
        invariant Grammar.Sum(sc.num, f0.locals, input, p0) == Grammar.SumRest(sc.num, f0.locals, input, left, pos)
        decreases |input| - pos
      {
        SkipWs();
        if !Looking(input, pos, '+') && !Looking(input, pos, '-') { return; }
        var sign := input[pos];
        pos := pos + 1;
        if Looking(input, pos, sign) { return false; }
        ghost var r := Grammar.Term(sc.num, f0.locals, input, pos);
        ok := ParseTerm();
        if !ok { return; }
        var op := if sign == '+' then Add else Sub;
        sc.Emit(Bin(op), 0);
        left := Binop(Infix(op), left, r.e);
      }
    }

    method ParseTerm() returns (ok: bool)
      requires pos <= |input|
      modifies this, sc
      ensures Compiled(sc.num, Grammar.Term(sc.num, sc.func.locals, input, old(pos)), old(sc.func), ok, pos, sc.func)
      decreases |input| - pos, 10
    {
      hide Grammar.Factor,
        CodeGen.EmitLoad, CodeGen.EmitStore, CodeGen.EmitLiteral, CodeGen.EmitOp1, CodeGen.Patch, CodeGen.CompileArgs;
      ghost var p0, f0 := pos, sc.func;
      ok := ParseFactor();
      if !ok { return; }
      ghost var left := Grammar.Factor(sc.num, sc.func.locals, input, p0).e;
      while true
        invariant p0 <= pos <= |input| && sc.func.locals == f0.locals
        invariant sc.func == CodeGen.CompileExpr(sc.num, left, f0)
        invariant Grammar.Term(sc.num, f0.locals, input, p0) == Grammar.TermRest(sc.num, f0.locals, input, left, pos)
        decreases |input| - pos
      {
        SkipWs();
        if !Looking(input, pos, '*') && !Looking(input, pos, '/') && !Looking(input, pos, '%') { return; }
        var sign := input[pos];
        pos := pos + 1;
        ghost var r := Grammar.Factor(sc.num, f0.locals, input, pos);
        ok := ParseFactor();
        if !ok { return; }
        var op := if sign == '*' then Mul else if sign == '/' then Div else Mod;
        sc.Emit(Bin(op), 0);
        left := Binop(Infix(op), left, r.e);
      }
    }

    method ParseFactor() returns (ok: bool)
      requires pos <= |input|
      modifies this, sc
      ensures Compiled(sc.num, Grammar.Factor(sc.num, sc.func.locals, input, old(pos)), old(sc.func), ok, pos, sc.func)
      decreases |input| - pos, 8
    {
      SkipWs();
      if Looking(input, pos, '+') || Looking(input, pos, '-') || Looking(input, pos, '!') || Looking(input, pos, '~') {
        var sign := input[pos];
        pos := pos + 1;
        ok := ParseFactor();
        if ok && sign != '+' {
          sc.Emit(Un(if sign == '-' then Neg else if sign == '!' then Not else BitNot), 0);
        }
      } else {
        ok := ParsePostfix();
      }
    }

    method ParsePostfix() returns (ok: bool)
      requires pos <= |input|
      modifies this, sc
      ensures Compiled(sc.num, Grammar.Postfix(sc.num, sc.func.locals, input, old(pos)), old(sc.func), ok, pos, sc.func)
      decreases |input| - pos, 6
    {
      ghost var p0, f0 := pos, sc.func;
      ok := ParsePrimary();
      if !ok { return; }
      ghost var left := Grammar.Primary(sc.num, sc.func.locals, input, p0).e;
      var more := true;
      while more
        invariant p0 <= pos <= |input| && sc.func.locals == f0.locals && ok
        invariant sc.func == CodeGen.CompileExpr(sc.num, left, f0)
        invariant Grammar.Postfix(sc.num, f0.locals, input, p0)
               == if more then Grammar.PostfixRest(sc.num, f0.locals, input, left, pos) else Grammar.Got(left, pos)
        decreases |input| - pos, more
      {
        SkipWs();
        ghost var r := Grammar.OneSuffix(sc.num, f0.locals, input, pos);
        ok, more := ParseSuffix();
        if !ok { return; }
        if more {
          CodeGen.AttachCode(sc.num, left, r.suffix, f0);
          left := Attach(left, r.suffix);
        }
      }
    }

    /** One suffix of the operand that has just been compiled. */
    method ParseSuffix() returns (ok: bool, more: bool)
      requires pos <= |input|
      modifies this, sc
      ensures sc.func.locals == old(sc.func.locals)
      ensures match Grammar.OneSuffix(sc.num, sc.func.locals, input, old(pos))
        case End => ok && !more && pos == old(pos) && sc.func == old(sc.func)
        case Broken => !ok
        case More(suffix, p) => ok && more && pos == p && sc.func == CodeGen.SuffixCode(sc.num, suffix, old(sc.func))
      decreases |input| - pos, 4
    {
      ok, more := true, true;
      if Looking(input, pos, '.') {
        pos := pos + 1;
        ok := ParseProperty();
      } else if Looking(input, pos, '[') {
        pos := pos + 1;
        ok := ParseComma();
        if !ok { return; }
        SkipWs();
        ok := Consume(']');
        if !ok { return; }
        sc.Emit(GetElem, 0);
      } else if Looking(input, pos, '(') {
        pos := pos + 1;
        var argc: nat;
        ok, argc := ParseArguments();
        if !ok { return; }
        sc.Emit(Op.Call, argc);
      } else {
        more := false;
      }
    }

    /** A property read, or a method call that keeps its receiver under the function. */
    method ParseProperty() returns (ok: bool)
      requires pos <= |input|
      modifies this, sc
      ensures sc.func.locals == old(sc.func.locals)
      ensures match Grammar.AfterDot(sc.num, sc.func.locals, input, old(pos))
        case More(suffix, p) => ok && pos == p && sc.func == CodeGen.SuffixCode(sc.num, suffix, old(sc.func))
        case _ => !ok
      decreases |input| - pos, 25
    {
      hide Grammar.ArgumentList, CodeGen.CompileArgs;
      var prop := ParseIdentifier();
      if prop.None? { return false; }
      SkipWs();
      if Looking(input, pos, '(') {
        sc.Emit(Dup, 0);
        sc.EmitShared(Const, Str(prop.value));
        sc.Emit(GetProp, 0);
        pos := pos + 1;
        var argc: nat;
        ok, argc := ParseArguments();
        if !ok { return; }
        sc.Emit(CallMethod, argc);
      } else {
        sc.EmitShared(Const, Str(prop.value));
        sc.Emit(GetProp, 0);
        ok := true;
      }
    }

    /** Arguments up to the closing parenthesis, counted as they are compiled. */
    method ParseArguments() returns (ok: bool, argc: nat)
      requires pos <= |input|
      modifies this, sc
      ensures sc.func.locals == old(sc.func.locals)
      ensures var r := Grammar.ArgumentList(sc.num, sc.func.locals, input, old(pos));
        && ok == r.GotArgs?
        && (ok ==> pos == r.p && argc == Count(r.args)
                   && sc.func == CodeGen.CompileArgs(sc.num, r.args, old(sc.func)))
      decreases |input| - pos, 24
    {
      hide Grammar.Conditional, CodeGen.CompileExpr;
      ghost var p0, f0 := pos, sc.func;
      argc := 0;
      SkipWs();
      ok := Consume(')');
      if ok { return; }
      ghost var first := Grammar.Conditional(sc.num, f0.locals, input, pos);
      ok := ParseConditional();
      if !ok { return; }
      argc := 1;
      ghost var args := Snoc(NoArgs, first.e);
      while true
        invariant p0 <= pos <= |input| && sc.func.locals == f0.locals
        invariant argc == Count(args) && sc.func == CodeGen.CompileArgs(sc.num, args, f0)
        invariant Grammar.ArgumentList(sc.num, f0.locals, input, p0)
               == Grammar.ArgumentsRest(sc.num, f0.locals, input, args, pos)
        decreases |input| - pos
      {
        SkipWs();
        var more := Consume(',');
        if !more {
          ok := Consume(')');
          return;
        }
        ghost var r := Grammar.Conditional(sc.num, f0.locals, input, pos);
        ok := ParseConditional();
        if !ok { return; }
        argc := argc + 1;
        args := Snoc(args, r.e);
      }
    }

    /** A comma expression and its closing parenthesis. */
    method ParseEnclosed() returns (ok: bool)
      requires pos <= |input|
      modifies this, sc
      ensures Compiled(sc.num, Grammar.Enclosed(sc.num, sc.func.locals, input, old(pos)), old(sc.func), ok, pos, sc.func)
      decreases |input| - pos, 26
    {
      ok := ParseComma();
      if !ok { return; }
      SkipWs();
      ok := Consume(')');
    }

    method ParsePrimary() returns (ok: bool)
      requires pos <= |input|
      modifies this, sc
      ensures Compiled(sc.num, Grammar.Primary(sc.num, sc.func.locals, input, old(pos)), old(sc.func), ok, pos, sc.func)
      decreases |input| - pos, 4
    {
      SkipWs();
      if pos == |input| { return false; }
      var c := input[pos];
      if c == '(' {
        pos := pos + 1;
        ok := ParseEnclosed();
      } else if c == '\'' || c == '"' {
        var s := ParseStringLiteral();
        if s.None? { return false; }
        sc.EmitLiteral(Text(s.value));
        ok := true;
      } else if IsDigit(c) || c == '.' {
        var lexeme := ParseNumber();
        if sc.num(lexeme).None? { return false; }
        sc.EmitLiteral(Number(lexeme));
        ok := true;
      } else {
        var name := ParseIdentifier();
        if name.None? { return false; }
        ok := ParseWord(name.value);
      }
    }

    /** A word that was just read: a literal, a `Number(...)` conversion, the global `Number`, or a variable. */
    method ParseWord(x: string) returns (ok: bool)
      requires pos <= |input|
      modifies this, sc
      ensures Compiled(sc.num, Grammar.Word(sc.num, sc.func.locals, input, x, old(pos)), old(sc.func), ok, pos, sc.func)
      decreases |input| - pos, 1
    {
      ok := true;
      if x == "true" {
        sc.EmitLiteral(True);
      } else if x == "false" {
        sc.EmitLiteral(False);
      } else if x == "null" {
        sc.EmitLiteral(NullWord);
      } else if x == "undefined" {
        sc.EmitLiteral(UndefinedWord);
      } else if x == "Number" {
        SkipWs();
        var call := Consume('(');
        if call {
          ok := ParseEnclosed();
          if ok {
            sc.Emit(Un(ToNumber), 0);
          }
        } else {
          sc.EmitShared(LoadGlobal, Str(x));
        }
      } else {
        sc.EmitLoad(x);
      }
    }
  }
}
