/** Instructions and compiled functions (src/bytecode.rs), restricted to the opcodes the compiler emits. */
module Bytecode {
  import opened Values

  datatype Op =
    | Const | LoadGlobal | StoreGlobal | LoadLocal | StoreLocal
    | Bin(bop: BinOp) | Un(uop: UnOp)
    | Drop | Dup
    | Jump | JumpIfFalse | Return
    | Call | CallMethod | GetProp | GetElem
    | IncLocal

  /** `a` is a pool index, a slot, a jump target or an argument count; `b` is the increment of `IncLocal`. */
  datatype Instr = Instr(op: Op, a: nat, b: i32)

  datatype Func = Func(code: seq<Instr>, constants: seq<Value>, locals: seq<string>)

  const EMPTY_FUNC := Func([], [], [])

  /** First position of `x`, or the length of `s`. */
  function IndexOf<T(==)>(s: seq<T>, x: T): (i: nat)
    ensures i <= |s|
    ensures i < |s| ==> s[i] == x
  {
    if s == [] then 0 else if s[0] == x then 0 else 1 + IndexOf(s[1..], x)
  }

  lemma {:induction false} IndexOfFirst<T>(s: seq<T>, x: T)
    ensures forall j :: 0 <= j < IndexOf(s, x) ==> s[j] != x
    ensures IndexOf(s, x) < |s| <==> x in s
  {
    if s != [] && s[0] != x {
      IndexOfFirst(s[1..], x);
      assert forall j :: 0 < j < |s| ==> s[j] == s[1..][j - 1];
    }
  }

  /** Last position of `x`, or the length of `s`. */
  function LastIndexOf<T(==)>(s: seq<T>, x: T): (i: nat)
    ensures if x in s then i < |s| && s[i] == x else i == |s|
    ensures forall j :: i < j < |s| ==> s[j] != x
  {
    if s == [] then 0
    else if s[|s| - 1] == x then |s| - 1
    else
      var i := LastIndexOf(s[..|s| - 1], x);
      if i < |s| - 1 then i else |s|
  }

  predicate Distinct<T(==)>(s: seq<T>) {
    forall i, j :: 0 <= i < j < |s| ==> s[i] != s[j]
  }
}
