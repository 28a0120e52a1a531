/** The marker: a worklist over the object graph (src/context.rs, gc_collect and gc_mark_value). */
module Marker {
  import opened Values

  /** A value word as the marker sees it: a pointer, or anything else. The null pointer is address 0. */
  datatype Word = Pointer(addr: nat) | Plain

  /** A heap cell by its tag. Strings, doubles and unknown tags have no children. */
  datatype Cell =
    | Leaf
    | Object(proto: Word, params: Option<Word>, props: seq<Word>)
    | Array(proto: Word, params: Option<Word>, props: seq<Word>, elements: seq<Word>, live: nat)

  type Heap = map<nat, Cell>

  /** The roots: words that are marked at once, and words that wait on the worklist. */
  datatype Roots = Roots(marked: seq<Word>, waiting: seq<Word>)

  /** The context's root holders, in the order the marker visits them. An atom waits while it is referenced. */
  datatype Holders = Holders(global: Word, envs: seq<Word>, callStack: seq<Word>, exception: Word, returnValue: Word,
    objectProto: Word, arrayProto: Word, arrayPush: Word, arrayPop: Word, gcRefs: seq<Word>, atoms: seq<(Word, nat)>)

  function LiveAtoms(atoms: seq<(Word, nat)>): seq<Word> {
    if atoms == [] then []
    else (if atoms[0].1 > 0 then [atoms[0].0] else []) + LiveAtoms(atoms[1..])
  }

  function RootsOf(s: Holders): Roots {
    Roots([s.global] + s.envs + s.callStack
          + [s.exception, s.returnValue, s.objectProto, s.arrayProto, s.arrayPush, s.arrayPop],
          s.gcRefs + LiveAtoms(s.atoms))
  }

  function ParamWords(p: Option<Word>): seq<Word> {
    if p.Some? then [p.value] else []
  }

  /** The words a cell holds, in the order they are pushed. Only the live elements of an array count. */
  function WordsOf(cell: Cell): seq<Word> {
    match cell
    case Leaf => []
    case Object(proto, params, props) => [proto] + ParamWords(params) + props
    case Array(proto, params, props, elements, live) =>
      [proto] + ParamWords(params) + props + (if live <= |elements| then elements[..live] else elements)
  }

  function Children(heap: Heap, addr: nat): seq<Word> {
    if addr in heap then WordsOf(heap[addr]) else []
  }

  /** `w` leads to the object at `addr`. */
  predicate To(w: Word, addr: nat) {
    w == Pointer(addr) && addr != 0
  }

  ghost predicate Linked(heap: Heap, from: nat, to: nat) {
    exists w :: w in Children(heap, from) && To(w, to)
  }

  /** A chain of links through the graph. */
  ghost predicate IsPath(heap: Heap, path: seq<nat>) {
    path != [] && forall i :: 0 < i < |path| ==> Linked(heap, path[i - 1], path[i])
  }

  ghost predicate IsRoot(roots: Roots, addr: nat) {
    exists w :: (w in roots.marked || w in roots.waiting) && To(w, addr)
  }

  ghost predicate Reachable(heap: Heap, roots: Roots, addr: nat) {
    exists path :: IsPath(heap, path) && IsRoot(roots, path[0]) && path[|path| - 1] == addr
  }

  lemma ReachNext(heap: Heap, roots: Roots, a: nat, b: nat)
    requires Reachable(heap, roots, a) && Linked(heap, a, b)
    ensures Reachable(heap, roots, b)
  {
    var path :| IsPath(heap, path) && IsRoot(roots, path[0]) && path[|path| - 1] == a;
    PathGrows(heap, path, b);
    hide Linked, IsRoot, IsPath;
    var longer := path + [b];
    assert longer[0] == path[0] && longer[|longer| - 1] == b;
  }

  lemma PathGrows(heap: Heap, path: seq<nat>, b: nat)
    requires IsPath(heap, path) && Linked(heap, path[|path| - 1], b)
    ensures IsPath(heap, path + [b])
  {
    hide Linked;
    var longer := path + [b];
    forall i | 0 < i < |longer| ensures Linked(heap, longer[i - 1], longer[i]) {
      if i < |path| {
        assert Linked(heap, path[i - 1], path[i]);
      } else {
        assert longer[i - 1] == path[|path| - 1] && longer[i] == b;
      }
    }
  }

  lemma ReachRoot(heap: Heap, roots: Roots, a: nat)
    requires IsRoot(roots, a)
    ensures Reachable(heap, roots, a)
  {
    assert IsPath(heap, [a]);
  }

  /** A set that holds the roots and is closed under links holds everything reachable. */
  lemma {:induction false} ClosedHolds(heap: Heap, roots: Roots, marks: set<nat>, path: seq<nat>)
    requires IsPath(heap, path) && IsRoot(roots, path[0])
    requires forall a :: IsRoot(roots, a) ==> a in marks
    requires forall a, b :: a in marks && Linked(heap, a, b) ==> b in marks
    ensures path[|path| - 1] in marks
    decreases |path|
  {
    if |path| > 1 {
      var shorter := path[..|path| - 1];
      assert IsPath(heap, shorter);
      ClosedHolds(heap, roots, marks, shorter);
      assert Linked(heap, path[|path| - 2], path[|path| - 1]);
    }
  }

  /** All addresses that any word of the graph or the roots holds. */
  function Addresses(words: seq<Word>): set<nat> {
    set w | w in words && w.Pointer? :: w.addr
  }

  ghost function Universe(heap: Heap, roots: Roots): set<nat> {
    Addresses(roots.marked) + Addresses(roots.waiting) + set a, b | a in heap.Keys && b in Addresses(Children(heap, a)) :: b
  }

  /** What marking one word does to the marks and the worklist. */
  function Marked(heap: Heap, marks: set<nat>, stack: seq<Word>, w: Word): (set<nat>, seq<Word>) {
    if w.Pointer? && w.addr != 0 && w.addr !in marks then (marks + {w.addr}, stack + Children(heap, w.addr))
    else (marks, stack)
  }

  /** Between two rounds: marks and waiting words lead only to reachable objects, and whatever a word of `seen`
      or a marked cell leads to is marked or waits on the stack. */
  ghost predicate Inv(heap: Heap, roots: Roots, seen: seq<Word>, marks: set<nat>, stack: seq<Word>) {
    && (forall a :: a in marks ==> Reachable(heap, roots, a))
    && (forall w, a :: w in stack && To(w, a) ==> Reachable(heap, roots, a) && a in Universe(heap, roots))
    && (forall w, a :: w in seen && To(w, a) ==> a in marks || w in stack)
    && (forall a, w, b :: a in marks && w in Children(heap, a) && To(w, b) ==> b in marks || w in stack)
  }

  lemma InUniverse(heap: Heap, roots: Roots, a: nat, w: Word, b: nat)
    requires w in Children(heap, a) && To(w, b)
    ensures b in Universe(heap, roots)
  {
    assert a in heap.Keys && b in Addresses(Children(heap, a));
  }

  /** Taking `w` off the worklist and marking it keeps the invariant. */
  lemma MarkKeeps(heap: Heap, roots: Roots, seen: seq<Word>, marks: set<nat>, stack: seq<Word>, rest: seq<Word>, w: Word)
    requires Inv(heap, roots, seen, marks, stack) && w in stack
    requires forall x :: x in rest ==> x in stack
    requires forall x :: x in stack ==> x in rest || x == w
    ensures var (marks1, stack1) := Marked(heap, marks, rest, w);
      Inv(heap, roots, seen, marks1, stack1)
  {
    var (marks1, stack1) := Marked(heap, marks, rest, w);
    if marks1 != marks {
      var addr := w.addr;
      assert To(w, addr);
      forall x, b | x in Children(heap, addr) && To(x, b)
        ensures Reachable(heap, roots, b) && b in Universe(heap, roots)
      {
        assert Linked(heap, addr, b);
        ReachNext(heap, roots, addr, b);
        InUniverse(heap, roots, addr, x, b);
      }
    }
  }

  /** Marking a word of the worklist leaves the marks as they were or adds one address of the graph. */
  lemma MarkSteps(heap: Heap, roots: Roots, seen: seq<Word>, marks: set<nat>, stack: seq<Word>, rest: seq<Word>, w: Word)
    requires Inv(heap, roots, seen, marks, stack) && w in stack
    ensures var (marks1, stack1) := Marked(heap, marks, rest, w);
      || (marks1 == marks && stack1 == rest)
      || (exists a :: a in Universe(heap, roots) && a !in marks && marks1 == marks + {a})
  {
    hide Universe, Reachable, Children;
    assert w.Pointer? && w.addr != 0 ==> To(w, w.addr);
  }

  lemma RootsIn(heap: Heap, roots: Roots, marks: set<nat>)
    requires Inv(heap, roots, roots.marked + roots.waiting, marks, [])
    ensures forall a :: IsRoot(roots, a) ==> a in marks
  {
    hide Reachable, Universe, Children;
    forall a | IsRoot(roots, a) ensures a in marks {
      var w :| (w in roots.marked || w in roots.waiting) && To(w, a);
      assert w in roots.marked + roots.waiting;
    }
  }

  lemma LinksIn(heap: Heap, roots: Roots, marks: set<nat>)
    requires Inv(heap, roots, roots.marked + roots.waiting, marks, [])
    ensures forall a, b :: a in marks && Linked(heap, a, b) ==> b in marks
  {
    hide Reachable, Universe, Children;
    forall a, b | a in marks && Linked(heap, a, b) ensures b in marks {
      var w :| w in Children(heap, a) && To(w, b);
    }
  }

  /** With an empty worklist the marks are closed. */
  lemma Exact(heap: Heap, roots: Roots, marks: set<nat>)
    requires Inv(heap, roots, roots.marked + roots.waiting, marks, [])
    ensures forall a :: a in marks <==> Reachable(heap, roots, a)
  {
    hide IsRoot, Linked, Universe, Children;
    RootsIn(heap, roots, marks);
    LinksIn(heap, roots, marks);
    forall a | Reachable(heap, roots, a)
      ensures a in marks
    {
      var path :| IsPath(heap, path) && IsRoot(roots, path[0]) && path[|path| - 1] == a;
      ClosedHolds(heap, roots, marks, path);
    }
  }

  // ---- what is held, field by field ----

  /** One of the first `n` words is `w`. */
  ghost predicate Among(words: seq<Word>, n: nat, w: Word) {
    exists i :: 0 <= i < |words| && i < n && words[i] == w
  }

  /** A cell holds a word as its prototype, its parameters, the value of a property, or one of its live elements. */
  ghost predicate Keeps(cell: Cell, w: Word) {
    !cell.Leaf? &&
    (cell.proto == w || cell.params == Some(w) || Among(cell.props, |cell.props|, w)
     || (cell.Array? && Among(cell.elements, cell.live, w)))
  }

  ghost predicate Held(heap: Heap, from: nat, to: nat) {
    to != 0 && from in heap && Keeps(heap[from], Pointer(to))
  }

  lemma AmongIs(words: seq<Word>, n: nat, w: Word)
    ensures Among(words, n, w) <==> w in (if n <= |words| then words[..n] else words)
  {
    var part := if n <= |words| then words[..n] else words;
    if w in part {
      var i :| 0 <= i < |part| && part[i] == w;
      assert words[i] == w;
    }
    if Among(words, n, w) {
      var i :| 0 <= i < |words| && i < n && words[i] == w;
      assert part[i] == w;
    }
  }

  lemma WordsAre(cell: Cell, w: Word)
    ensures w in WordsOf(cell) <==> Keeps(cell, w)
  {
    if !cell.Leaf? {
      hide Among;
      AmongIs(cell.props, |cell.props|, w);
      if cell.Array? { AmongIs(cell.elements, cell.live, w); }
    }
  }

  /** The links of the graph are what the cells hold. */
  lemma LinkedIs(heap: Heap, from: nat, to: nat)
    ensures Linked(heap, from, to) <==> Held(heap, from, to)
  {
    hide WordsOf, Keeps;
    if from in heap { WordsAre(heap[from], Pointer(to)); }
    assert To(Pointer(to), to) <==> to != 0;
  }

  /** When marking is done everything a marked cell holds is marked, the live elements of an array among it. */
  lemma HeldMarked(heap: Heap, roots: Roots, marks: set<nat>, a: nat, b: nat)
    requires forall x :: x in marks <==> Reachable(heap, roots, x)
    requires a in marks && Held(heap, a, b)
    ensures b in marks
  {
    LinkedIs(heap, a, b);
    hide *;
    ReachNext(heap, roots, a, b);
  }

  /** And nothing else: what is marked is a root, or some marked cell holds it. */
  lemma MarkedHeld(heap: Heap, roots: Roots, marks: set<nat>, b: nat)
    requires forall x :: x in marks <==> Reachable(heap, roots, x)
    requires b in marks
    ensures IsRoot(roots, b) || exists a :: a in marks && Held(heap, a, b)
  {
    hide IsRoot, Linked, Held;
    var path :| IsPath(heap, path) && IsRoot(roots, path[0]) && path[|path| - 1] == b;
    if |path| > 1 {
      var shorter, a := path[..|path| - 1], path[|path| - 2];
      assert IsPath(heap, shorter) && Reachable(heap, roots, a);
      LinkedIs(heap, a, b);
    }
  }

  /** Elements past the live ones are nothing to the marker: whatever stands there, the same is reachable. */
  lemma PastLiveInert(heap: Heap, roots: Roots, a: nat, tail: seq<Word>, x: nat)
    requires a in heap && heap[a].Array? && heap[a].live <= |heap[a].elements|
    ensures var cell := heap[a].(elements := heap[a].elements[..heap[a].live] + tail);
      Reachable(heap, roots, x) <==> Reachable(heap[a := cell], roots, x)
  {
    var cell := heap[a].(elements := heap[a].elements[..heap[a].live] + tail);
    assert forall b :: Children(heap, b) == Children(heap[a := cell], b);
    hide Children, WordsOf;
    assert forall b, c :: Linked(heap, b, c) == Linked(heap[a := cell], b, c);
    hide Linked, IsRoot;
    assert forall path :: IsPath(heap, path) == IsPath(heap[a := cell], path);
  }

  // ---- the roots, holder by holder ----

  ghost predicate SomeAtom(atoms: seq<(Word, nat)>, w: Word) {
    exists i :: 0 <= i < |atoms| && atoms[i].0 == w && atoms[i].1 > 0
  }

  /** Each holder keeps its word, an atom only while it is referenced. */
  ghost predicate Rooted(s: Holders, w: Word) {
    || w in {s.global, s.exception, s.returnValue, s.objectProto, s.arrayProto, s.arrayPush, s.arrayPop}
    || Among(s.envs, |s.envs|, w) || Among(s.callStack, |s.callStack|, w) || Among(s.gcRefs, |s.gcRefs|, w)
    || SomeAtom(s.atoms, w)
  }

  lemma {:induction false} LiveAtomsAre(atoms: seq<(Word, nat)>, w: Word)
    ensures w in LiveAtoms(atoms) <==> SomeAtom(atoms, w)
  {
    if atoms != [] {
      LiveAtomsAre(atoms[1..], w);
      SomeAtomFirst(atoms, w);
    }
  }

  lemma SomeAtomFirst(atoms: seq<(Word, nat)>, w: Word)
    requires atoms != []
    ensures SomeAtom(atoms, w) <==> (atoms[0].0 == w && atoms[0].1 > 0) || SomeAtom(atoms[1..], w)
  {
    if SomeAtom(atoms[1..], w) {
      var i :| 0 <= i < |atoms[1..]| && atoms[1..][i].0 == w && atoms[1..][i].1 > 0;
      assert atoms[i + 1] == atoms[1..][i];
    }
    if SomeAtom(atoms, w) {
      var i :| 0 <= i < |atoms| && atoms[i].0 == w && atoms[i].1 > 0;
      if i > 0 { assert atoms[1..][i - 1] == atoms[i]; }
    }
  }

  lemma RootsAre(s: Holders, a: nat)
    ensures IsRoot(RootsOf(s), a) <==> a != 0 && Rooted(s, Pointer(a))
  {
    var w := Pointer(a);
    RootWords(s, w);
    AmongIs(s.envs, |s.envs|, w);
    AmongIs(s.callStack, |s.callStack|, w);
    AmongIs(s.gcRefs, |s.gcRefs|, w);
    LiveAtomsAre(s.atoms, w);
    hide RootsOf, LiveAtoms, Among, SomeAtom;
    assert To(w, a) <==> a != 0;
  }

  lemma RootWords(s: Holders, w: Word)
    ensures w in RootsOf(s).marked || w in RootsOf(s).waiting <==>
      w in {s.global, s.exception, s.returnValue, s.objectProto, s.arrayProto, s.arrayPush, s.arrayPop}
      || w in s.envs || w in s.callStack || w in s.gcRefs || w in LiveAtoms(s.atoms)
  {
    hide LiveAtoms;
  }

  class Collector {
    const heap: Heap
    var marks: set<nat>
    var stack: seq<Word>

    constructor (heap: Heap)
      ensures this.heap == heap && marks == {} && stack == []
    {
      this.heap := heap;
      marks, stack := {}, [];
    }

    /** Marks one word and pushes the words of its cell, unless it was marked before. */
    method MarkValue(w: Word)
      modifies this
      ensures (marks, stack) == Marked(heap, old(marks), old(stack), w)
    {
      if !w.Pointer? || w.addr == 0 || w.addr in marks { return; }
      hide WordsOf;
      var addr := w.addr;
      marks := marks + {addr};
      if addr in heap {
        PushCell(heap[addr]);
      } else {
        assert Children(heap, addr) == [] && stack == old(stack) + [];
      }
    }

    method PushCell(cell: Cell)
      modifies this`stack
      ensures stack == old(stack) + WordsOf(cell)
    {
      ghost var s := stack;
      match cell {
        case Leaf =>
        case Object(proto, params, props) =>
          PushObject(proto, params, props);
        case Array(proto, params, props, elements, live) =>
          PushObject(proto, params, props);
          var n := if live <= |elements| then live else |elements|;
          PushAll(elements, n);
          assert s + ([proto] + ParamWords(params) + props) + elements[..n]
              == s + ([proto] + ParamWords(params) + props + elements[..n]);
      }
    }

    method PushObject(proto: Word, params: Option<Word>, props: seq<Word>)
      modifies this`stack
      ensures stack == old(stack) + ([proto] + ParamWords(params) + props)
    {
      stack := stack + [proto];
      if params.Some? {
        stack := stack + [params.value];
      }
      PushAll(props, |props|);
    }

    method PushAll(words: seq<Word>, n: nat)
      requires n <= |words|
      modifies this`stack
      ensures stack == old(stack) + words[..n]
    {
      var i := 0;
      while i < n
        invariant 0 <= i <= n && stack == old(stack) + words[..i]
      {
        stack := stack + [words[i]];
        i := i + 1;
      }
    }

    /** Marking is exact: afterwards the marks are precisely the objects reachable from the roots,
        on any graph, cycles included. */
    method Collect(roots: Roots)
      modifies this
      ensures forall a :: a in marks <==> Reachable(heap, roots, a)
    {
      marks, stack := {}, [];
      var i := 0;
      while i < |roots.marked|
        invariant 0 <= i <= |roots.marked|
        invariant Inv(heap, roots, roots.marked[..i], marks, stack)
      {
        MarkRoot(roots, i);
        i := i + 1;
      }
      stack := stack + roots.waiting;
      ghost var seen := roots.marked + roots.waiting;
      RootsEnter(roots, marks, stack);
      while stack != []
        invariant Inv(heap, roots, seen, marks, stack)
        decreases Universe(heap, roots) - marks, |stack|
      {
        MarkTop(roots, seen);
      }
      hide Inv, Reachable;
      Exact(heap, roots, marks);
    }

    method GcCollect(s: Holders)
      modifies this
      ensures forall a :: a in marks <==> Reachable(heap, RootsOf(s), a)
      ensures forall a :: a != 0 && Rooted(s, Pointer(a)) ==> a in marks
      ensures forall a, b :: a in marks && Held(heap, a, b) ==> b in marks
    {
      Collect(RootsOf(s));
      hide RootsOf, Reachable, Rooted, Held, IsRoot;
      forall a | a != 0 && Rooted(s, Pointer(a)) ensures a in marks {
        RootsAre(s, a);
        ReachRoot(heap, RootsOf(s), a);
      }
      forall a, b | a in marks && Held(heap, a, b) ensures b in marks {
        HeldMarked(heap, RootsOf(s), marks, a, b);
      }
    }

    method MarkRoot(roots: Roots, i: nat)
      requires i < |roots.marked| && Inv(heap, roots, roots.marked[..i], marks, stack)
      modifies this
      ensures Inv(heap, roots, roots.marked[..i + 1], marks, stack)
    {
      var w := roots.marked[i];
      ghost var held := stack + [w];
      forall a | To(w, a)
        ensures Reachable(heap, roots, a) && a in Universe(heap, roots)
      {
        ReachRoot(heap, roots, a);
        assert a in Addresses(roots.marked);
      }
      assert Inv(heap, roots, roots.marked[..i + 1], marks, held);
      MarkKeeps(heap, roots, roots.marked[..i + 1], marks, held, stack, w);
      MarkValue(w);
    }

    lemma RootsEnter(roots: Roots, marks: set<nat>, stack: seq<Word>)
      requires exists before :: stack == before + roots.waiting && Inv(heap, roots, roots.marked, marks, before)
      ensures Inv(heap, roots, roots.marked + roots.waiting, marks, stack)
    {
      forall w, a | w in roots.waiting && To(w, a)
        ensures Reachable(heap, roots, a) && a in Universe(heap, roots)
      {
        ReachRoot(heap, roots, a);
        assert a in Addresses(roots.waiting);
      }
    }

    method MarkTop(roots: Roots, ghost seen: seq<Word>)
      requires stack != [] && Inv(heap, roots, seen, marks, stack)
      modifies this
      ensures Inv(heap, roots, seen, marks, stack)
      ensures (marks == old(marks) && |stack| < |old(stack)|)
           || (exists a :: a in Universe(heap, roots) && a !in old(marks) && marks == old(marks) + {a})
    {
      var w := stack[|stack| - 1];
      hide *;
      LastOf(stack);
      MarkKeeps(heap, roots, seen, marks, stack, stack[..|stack| - 1], w);
      MarkSteps(heap, roots, seen, marks, stack, stack[..|stack| - 1], w);
      stack := stack[..|stack| - 1];
      MarkValue(w);
    }

    lemma LastOf(stack: seq<Word>)
      requires stack != []
      ensures stack[|stack| - 1] in stack
      ensures forall x :: x in stack[..|stack| - 1] ==> x in stack
      ensures forall x :: x in stack ==> x in stack[..|stack| - 1] || x == stack[|stack| - 1]
    {
    }
  }
}
