/** `splice` and `sort`, in place on an array's elements (src/api/eval_expr.rs). */
module ArrayBuiltins {
  import opened Values
  import Arena

  /** The elements of an array object, through the calls the builtins use. */
  class Elements {
    var items: seq<Value>

    constructor (n: nat)
      ensures items == Arena.Undefs(n)
    {
      items := Arena.Undefs(n);
    }

    function Get(i: nat): Value
      reads this
    {
      if i < |items| then items[i] else Undefined
    }

    method Set(i: nat, v: Value)
      modifies this
      ensures items == Arena.Written(old(items), i, v)
    {
      items := Arena.Written(items, i, v);
    }

    method Push(v: Value)
      modifies this
      ensures items == old(items) + [v]
    {
      items := items + [v];
    }

    method SetLength(n: nat)
      modifies this
      ensures items == Arena.Resized(old(items), n)
    {
      items := Arena.Resized(items, n);
    }
  }

  // ---- splice ----

  /** The start index: from the end when negative, kept inside the array, 0 when not an integer. */
  function StartOf(len: nat, args: seq<Value>): (start: nat)
    ensures start <= len
  {
    if |args| == 0 || !args[0].Int? then 0
    else if args[0].n < 0 then (if len + args[0].n < 0 then 0 else len + args[0].n)
    else if args[0].n < len then args[0].n else len
  }

  /** How many go: none without arguments, all to the end without a count. */
  function CountOf(len: nat, start: nat, args: seq<Value>): (count: nat)
    requires start <= len
    ensures start + count <= len
  {
    if |args| == 0 then 0
    else if |args| == 1 || !args[1].Int? then len - start
    else if args[1].n < 0 then 0
    else if args[1].n < len - start then args[1].n else len - start
  }

  /** A start that is not negative counts from the front, a negative one from the end; both stop at the other end. */
  lemma StartFromEnd(len: nat, n: i32, more: seq<Value>)
    ensures var start := StartOf(len, [Int(n)] + more);
      if n >= 0 then start == Min(n, len) else len - start == Min(0 - n, len)
  {
  }

  function Min(a: int, b: int): int {
    if a < b then a else b
  }

  function Max(a: int, b: int): int {
    if a > b then a else b
  }

  /** `splice(at, n, ...)` removes `n` elements from the start on, as far as there are so many; none when `n` is negative. */
  lemma RemovesCount(c: seq<Value>, at: Value, n: i32, more: seq<Value>)
    ensures var args := [at, Int(n)] + more; var start := StartOf(|c|, args);
      |c[start..start + CountOf(|c|, start, args)]| == Min(Max(n, 0), |c| - start) && ItemsOf(args) == more
  {
  }

  /** `splice(-k)` takes the last `k` elements off, and `splice(k)` all but the first `k`. */
  lemma TakesTail(c: seq<Value>, n: i32)
    ensures var start := StartOf(|c|, [Int(n)]);
      var kept := if n >= 0 then Min(n, |c|) else |c| - Min(0 - n, |c|);
      Spliced(c, start, CountOf(|c|, start, [Int(n)]), ItemsOf([Int(n)])) == c[..kept]
  {
    assert [Int(n)] + [] == [Int(n)];
    StartFromEnd(|c|, n, []);
  }

  /** Without arguments nothing goes. A start that is no integer is 0, and without an integer count all goes from the start. */
  lemma SpliceDefaults(c: seq<Value>, n: i32, v: Value, more: seq<Value>)
    requires !v.Int?
    ensures CutBy(c, []) == c
    ensures CutBy(c, [v]) == []
    ensures CutBy(c, [v, Int(n)]) == c[Min(Max(n, 0), |c|)..]
    ensures CutBy(c, [Int(n), v] + more) == CutBy(c, [Int(n)]) + more
  {
    var args := [Int(n), v] + more;
    assert args[0] == Int(n) && args[1] == v && args[2..] == more;
    StartFromEnd(|c|, n, [v] + more);
    assert [Int(n)] + ([v] + more) == args;
  }

  /** What the arguments leave of the elements. */
  function CutBy(c: seq<Value>, args: seq<Value>): seq<Value> {
    var start := StartOf(|c|, args);
    Spliced(c, start, CountOf(|c|, start, args), ItemsOf(args))
  }

  function ItemsOf(args: seq<Value>): seq<Value> {
    if |args| > 2 then args[2..] else []
  }

  /** Reference: the elements with a stretch replaced. */
  function Spliced(c: seq<Value>, start: nat, count: nat, items: seq<Value>): seq<Value>
    requires start + count <= |c|
  {
    c[..start] + items + c[start + count..]
  }

  method Splice(a: Elements, args: seq<Value>) returns (result: Elements)
    modifies a
    ensures var c := old(a.items); var start := StartOf(|c|, args); var count := CountOf(|c|, start, args);
      a.items == Spliced(c, start, count, ItemsOf(args)) && fresh(result) && result.items == c[start..start + count]
  {
    ghost var c := a.items;
    var len := |a.items|;
    var start := StartOf(len, args);
    var count := CountOf(len, start, args);
    var items := ItemsOf(args);
    result := Removed(a, start, count);
    var newLen := len + |items| - count;
    if |items| < count {
      ShiftLeft(a, start + |items|, newLen, count - |items|);
    } else if |items| > count {
      ShiftRight(a, start + count, |items| - count);
    }
    assert ShiftDone(c, a.items, start, count, |items|) by {
      if |items| == count { assert a.items[start + |items|..newLen] == c[start + count..]; }
    }
    Insert(a, start, count, items, c);
    a.SetLength(newLen);
  }

  /** A new array with the elements that go. */
  method Removed(a: Elements, start: nat, count: nat) returns (result: Elements)
    requires start + count <= |a.items|
    ensures fresh(result) && result.items == a.items[start..start + count]
  {
    result := new Elements(count);
    for i := 0 to count
      invariant fresh(result) && unchanged(a) && |result.items| == count && result.items[..i] == a.items[start..start + i]
    {
      result.Set(i, a.Get(start + i));
    }
  }

  /** The elements before the stretch and after it are where they will stay. */
  ghost predicate ShiftDone(c: seq<Value>, now: seq<Value>, start: nat, count: nat, n: nat)
    requires start + count <= |c|
  {
    var end := |c| + n - count;
    |now| >= end && now[..start] == c[..start] && now[start + n..end] == c[start + count..]
  }

  /** Puts the new elements in; the length comes later. */
  method Insert(a: Elements, start: nat, ghost count: nat, items: seq<Value>, ghost c: seq<Value>)
    requires start + count <= |c| && ShiftDone(c, a.items, start, count, |items|)
    modifies a
    ensures |a.items| == |old(a.items)| && a.items[..|c| + |items| - count] == Spliced(c, start, count, items)
  {
    ghost var before := a.items;
    ghost var end := |c| + |items| - count;
    for i := 0 to |items|
      invariant a.items == before[..start] + items[..i] + before[start + i..]
    {
      a.Set(start + i, items[i]);
    }
    assert a.items[..end] == before[..start] + items + before[start + |items|..end];
  }

  /** Elements moved `gap` places down, as far as place `i`. */
  function Lowered(c: seq<Value>, from: nat, i: nat, gap: nat): seq<Value>
    requires from <= i && i + gap <= |c|
  {
    c[..from] + c[from + gap..i + gap] + c[i..]
  }

  /** Moves elements `gap` places down, from the left, over places that may still be read. */
  method ShiftLeft(a: Elements, from: nat, to: nat, gap: nat)
    requires from <= to && to + gap == |a.items|
    modifies a
    ensures var c := old(a.items); a.items == c[..from] + c[from + gap..] + c[to..]
  {
    hide Lowered;
    ghost var c := a.items;
    ShiftEnds(c, from, to, gap);
    for i := from to to
      invariant a.items == Lowered(c, from, i, gap)
    {
      ShiftStep(c, from, i, gap);
      a.Set(i, a.Get(i + gap));
    }
  }

  lemma ShiftEnds(c: seq<Value>, from: nat, to: nat, gap: nat)
    requires from <= to && to + gap == |c|
    ensures Lowered(c, from, from, gap) == c && Lowered(c, from, to, gap) == c[..from] + c[from + gap..] + c[to..]
  {
    assert c[..from] + c[from + gap..from + gap] == c[..from] && c[..from] + c[from..] == c;
    assert c[from + gap..to + gap] == c[from + gap..];
  }

  lemma ShiftStep(c: seq<Value>, from: nat, i: nat, gap: nat)
    requires from <= i && i + gap < |c|
    ensures var now := Lowered(c, from, i, gap); |now| == |c| && now[i := now[i + gap]] == Lowered(c, from, i + 1, gap)
  {
    var now := Lowered(c, from, i, gap);
    assert now[i + gap] == c[i + gap];
  }

  /** Makes room and moves elements `gap` places up, from the right. */
  method ShiftRight(a: Elements, from: nat, gap: nat)
    requires from <= |a.items|
    modifies a
    ensures var c := old(a.items); |a.items| == |c| + gap && a.items[..from] == c[..from] && a.items[from + gap..] == c[from..]
  {
    ghost var c := a.items;
    for n := 0 to gap
      invariant a.items == c + Arena.Undefs(n)
    {
      a.Push(Undefined);
    }
    var i := |a.items|;
    while i > from + gap
      invariant from + gap <= i <= |c| + gap && |a.items| == |c| + gap
      invariant forall k :: 0 <= k < |a.items| ==>
        (k >= i ==> a.items[k] == c[k - gap]) && (k < i && k < |c| ==> a.items[k] == c[k])
    {
      i := i - 1;
      a.Set(i, a.Get(i - gap));
    }
  }

  /** Nothing is lost or made up: what was there and what came in is what is there and what went out. */
  lemma SpliceConserves(c: seq<Value>, start: nat, count: nat, items: seq<Value>)
    requires start + count <= |c|
    ensures multiset(Spliced(c, start, count, items)) + multiset(c[start..start + count]) == multiset(c) + multiset(items)
  {
    assert c == c[..start] + c[start..start + count] + c[start + count..];
  }

  /** Splicing the removed stretch back over the inserted items undoes a splice. */
  lemma SpliceBack(c: seq<Value>, start: nat, count: nat, items: seq<Value>)
    requires start + count <= |c|
    ensures Spliced(Spliced(c, start, count, items), start, |items|, c[start..start + count]) == c
  {
    var s := Spliced(c, start, count, items);
    assert s[..start] == c[..start] && s[start + |items|..] == c[start + count..];
  }

  // ---- sort ----

  /** `a` must go behind `b`: undefined behind everything, else as the comparator says (its answer is above 0). */
  predicate Above(a: Value, b: Value, gt: (Value, Value) -> bool) {
    if a == Undefined then b != Undefined else b != Undefined && gt(a, b)
  }

  /** The comparator orders the values it is asked about, ties allowed: those of `m` that are not undefined. */
  ghost predicate Preorder(gt: (Value, Value) -> bool, m: multiset<Value>) {
    && (forall a, b :: Asked(a, m) && Asked(b, m) ==> !(gt(a, b) && gt(b, a)))
    && (forall a, b, c :: Asked(a, m) && Asked(b, m) && Asked(c, m) && gt(a, c) ==> gt(a, b) || gt(b, c))
  }

  predicate Asked(a: Value, m: multiset<Value>) {
    a in m && a != Undefined
  }

  ghost predicate Ordered(s: seq<Value>, gt: (Value, Value) -> bool) {
    forall i, j :: 0 <= i < j < |s| ==> !Above(s[i], s[j], gt)
  }

  predicate Same(a: Value, b: Value, gt: (Value, Value) -> bool) {
    !Above(a, b, gt) && !Above(b, a, gt)
  }

  /** The elements that tie with `x`, in their order. */
  function Ties(s: seq<Value>, x: Value, gt: (Value, Value) -> bool): seq<Value> {
    if |s| == 0 then []
    else Ties(s[..|s| - 1], x, gt) + if Same(s[|s| - 1], x, gt) then [s[|s| - 1]] else []
  }

  /** Ties keep their order: that, for every element, is what stable means. */
  ghost predicate Stable(s: seq<Value>, t: seq<Value>, gt: (Value, Value) -> bool) {
    forall x :: x in s ==> Ties(s, x, gt) == Ties(t, x, gt)
  }

  lemma StableOn(s: seq<Value>, t: seq<Value>, u: seq<Value>, gt: (Value, Value) -> bool)
    requires multiset(s) == multiset(t) && Stable(s, t, gt) && Stable(t, u, gt)
    ensures Stable(s, u, gt)
  {
    hide Ties;
    forall x | x in s ensures Ties(s, x, gt) == Ties(u, x, gt) {
      assert x in multiset(s);
      assert x in t;
    }
  }

  ghost predicate UndefinedLast(s: seq<Value>) {
    forall i, j :: 0 <= i < j < |s| && s[i] == Undefined ==> s[j] == Undefined
  }

  lemma {:induction false} TiesSplit(s: seq<Value>, t: seq<Value>, x: Value, gt: (Value, Value) -> bool)
    ensures Ties(s + t, x, gt) == Ties(s, x, gt) + Ties(t, x, gt)
    decreases |t|
  {
    if |t| == 0 {
      assert s + t == s;
    } else {
      assert (s + t)[..|s + t| - 1] == s + t[..|t| - 1];
      TiesSplit(s, t[..|t| - 1], x, gt);
    }
  }

  function Swapped(s: seq<Value>, j: nat): seq<Value>
    requires j + 1 < |s|
  {
    s[j := s[j + 1]][j + 1 := s[j]]
  }

  lemma SwapKeepsTies(s: seq<Value>, j: nat, x: Value, gt: (Value, Value) -> bool)
    requires j + 1 < |s| && Preorder(gt, multiset(s)) && Above(s[j], s[j + 1], gt) && x in s
    ensures Ties(Swapped(s, j), x, gt) == Ties(s, x, gt)
  {
    var a, b, l, r := s[j], s[j + 1], s[..j], s[j + 2..];
    assert a in multiset(s) && b in multiset(s) && x in multiset(s);
    NotBoth(a, b, x, gt, multiset(s));
    One(a, x, gt);
    One(b, x, gt);
    hide *;
    SwapSplit(s, j);
    TiesAround(l, a, b, r, x, gt);
    TiesAround(l, b, a, r, x, gt);
    OneEmpty(Ties([a], x, gt), Ties([b], x, gt), Ties(r, x, gt));
  }

  lemma SwapSplit(s: seq<Value>, j: nat)
    requires j + 1 < |s|
    ensures var a, b, l, r := s[j], s[j + 1], s[..j], s[j + 2..];
      s == l + ([a] + ([b] + r)) && Swapped(s, j) == l + ([b] + ([a] + r))
  {
  }

  lemma TiesAround(l: seq<Value>, a: Value, b: Value, r: seq<Value>, x: Value, gt: (Value, Value) -> bool)
    ensures Ties(l + ([a] + ([b] + r)), x, gt) == Ties(l, x, gt) + (Ties([a], x, gt) + (Ties([b], x, gt) + Ties(r, x, gt)))
  {
    hide *;
    TiesSplit(l, [a] + ([b] + r), x, gt);
    TiesSplit([a], [b] + r, x, gt);
    TiesSplit([b], r, x, gt);
  }

  lemma OneEmpty(p: seq<Value>, q: seq<Value>, r: seq<Value>)
    requires p == [] || q == []
    ensures p + (q + r) == q + (p + r)
  {
    if p == [] {
      assert p + (q + r) == q + r && p + r == r;
    } else {
      assert q + (p + r) == p + r && q + r == r;
    }
  }

  lemma One(a: Value, x: Value, gt: (Value, Value) -> bool)
    ensures Ties([a], x, gt) == if Same(a, x, gt) then [a] else []
  {
    assert Ties([a][..0], x, gt) == [];
  }

  lemma NotBoth(a: Value, b: Value, x: Value, gt: (Value, Value) -> bool, m: multiset<Value>)
    requires Preorder(gt, m) && a in m && b in m && x in m && Above(a, b, gt)
    ensures !(Same(a, x, gt) && Same(b, x, gt))
  {
  }

  /** What one comparison leaves. */
  function Compared(s: seq<Value>, j: nat, gt: (Value, Value) -> bool): (t: seq<Value>)
    requires j + 1 < |s|
    ensures |t| == |s|
  {
    if Above(s[j], s[j + 1], gt) then Swapped(s, j) else s
  }

  /** What a pass over the first `n` elements leaves, from element `j` on. */
  function Passed(s: seq<Value>, j: nat, n: nat, gt: (Value, Value) -> bool): (t: seq<Value>)
    requires j < n <= |s|
    ensures |t| == |s|
    decreases n - j
  {
    if j + 1 == n then s else Passed(Compared(s, j, gt), j + 1, n, gt)
  }

  /** What the passes over ever fewer elements leave. */
  function Bubbled(s: seq<Value>, n: nat, gt: (Value, Value) -> bool): (t: seq<Value>)
    requires n <= |s|
    ensures |t| == |s|
    decreases n
  {
    if n == 0 then s else Bubbled(Passed(s, 0, n, gt), n - 1, gt)
  }

  /** The bubble sort. For any comparator it permutes and puts undefined last; when the comparator orders the elements that
      are not undefined, it sorts stably. */
  method Sort(a: Elements, gt: (Value, Value) -> bool)
    modifies a
    ensures a.items == Bubbled(old(a.items), |old(a.items)|, gt)
    ensures multiset(a.items) == multiset(old(a.items)) && UndefinedLast(a.items)
    ensures Preorder(gt, multiset(old(a.items))) ==> Ordered(a.items, gt) && Stable(old(a.items), a.items, gt)
  {
    hide Passed, Preorder, Stable;
    ghost var s := a.items;
    var len := |a.items|;
    StableSelf(s, gt);
    for i := 0 to len
      invariant |a.items| == len && multiset(a.items) == multiset(s)
      invariant Bubbled(s, len, gt) == Bubbled(a.items, len - i, gt)
      invariant Settled(a.items, len - i, gt)
      invariant Preorder(gt, multiset(s)) ==> Stable(s, a.items, gt)
    {
      ghost var t := a.items;
      Pass(a, len - i, gt);
      if Preorder(gt, multiset(s)) { StableOn(s, t, a.items, gt); }
    }
    SettledAll(a.items, gt);
  }

  lemma StableSelf(s: seq<Value>, gt: (Value, Value) -> bool)
    ensures Stable(s, s, gt)
  {
  }

  lemma SettledAll(s: seq<Value>, gt: (Value, Value) -> bool)
    requires Settled(s, 0, gt)
    ensures UndefinedLast(s) && (Preorder(gt, multiset(s)) ==> Ordered(s, gt))
  {
    hide Above, Preorder;
  }

  /** Everything from `n` on is in its place. */
  ghost predicate Settled(s: seq<Value>, n: int, gt: (Value, Value) -> bool) {
    && (forall k, m :: 0 <= k < m < |s| && n <= m && s[k] == Undefined ==> s[m] == Undefined)
    && (Preorder(gt, multiset(s)) ==> forall k, m :: 0 <= k < m < |s| && n <= m ==> !Above(s[k], s[m], gt))
  }

  /** Element `j` is the one the pass carries: nothing before it must go behind it. */
  ghost predicate Carried(s: seq<Value>, j: int, gt: (Value, Value) -> bool) {
    0 <= j < |s| &&
    (forall k :: 0 <= k < j && s[k] == Undefined ==> s[j] == Undefined)
    && (Preorder(gt, multiset(s)) ==> forall k :: 0 <= k < j ==> !Above(s[k], s[j], gt))
  }

  method Pass(a: Elements, n: nat, gt: (Value, Value) -> bool)
    requires 0 < n <= |a.items| && Settled(a.items, n, gt)
    modifies a
    ensures |a.items| == |old(a.items)| && multiset(a.items) == multiset(old(a.items))
    ensures a.items == Passed(old(a.items), 0, n, gt)
    ensures Settled(a.items, n - 1, gt)
    ensures Preorder(gt, multiset(old(a.items))) ==> Stable(old(a.items), a.items, gt)
  {
    ghost var s := a.items;
    StableSelf(s, gt);
    NothingBefore(s, gt);
    hide Preorder, Stable, Settled, Carried, Compared;
    for j := 0 to n - 1
      invariant |a.items| == |s| && multiset(a.items) == multiset(s)
      invariant Passed(s, 0, n, gt) == Passed(a.items, j, n, gt)
      invariant Settled(a.items, n, gt) && Carried(a.items, j, gt)
      invariant Preorder(gt, multiset(s)) ==> Stable(s, a.items, gt)
    {
      ghost var t := a.items;
      Compare(a, j, n, gt);
      if Preorder(gt, multiset(s)) { StableOn(s, t, a.items, gt); }
    }
    OneMoreSettled(a.items, n, gt);
  }

  lemma NothingBefore(s: seq<Value>, gt: (Value, Value) -> bool)
    requires |s| > 0
    ensures Carried(s, 0, gt)
  {
  }

  lemma OneMoreSettled(s: seq<Value>, n: nat, gt: (Value, Value) -> bool)
    requires 0 < n <= |s| && Settled(s, n, gt) && Carried(s, n - 1, gt)
    ensures Settled(s, n - 1, gt)
  {
    hide Above, Preorder;
  }

  /** One comparison, with its exchange. */
  method Compare(a: Elements, j: nat, n: nat, gt: (Value, Value) -> bool)
    requires j + 1 < n <= |a.items| && Settled(a.items, n, gt) && Carried(a.items, j, gt)
    modifies a
    ensures a.items == Compared(old(a.items), j, gt) && multiset(a.items) == multiset(old(a.items))
    ensures Settled(a.items, n, gt) && Carried(a.items, j + 1, gt)
    ensures Preorder(gt, multiset(old(a.items))) ==> Stable(old(a.items), a.items, gt)
  {
    hide Preorder, Stable, Settled, Carried;
    ghost var s := a.items;
    var x := a.Get(j);
    var y := a.Get(j + 1);
    if x == Undefined {
      if y != Undefined {
        a.Set(j, y);
        a.Set(j + 1, x);
      }
    } else if y != Undefined {
      if gt(x, y) {
        a.Set(j, y);
        a.Set(j + 1, x);
      }
    }
    if Above(x, y, gt) {
      SwapSettled(s, j, n, gt);
    } else {
      KeepCarried(s, j, gt);
      StableSelf(s, gt);
    }
  }

  lemma SwapSettled(s: seq<Value>, j: nat, n: nat, gt: (Value, Value) -> bool)
    requires j + 1 < n <= |s| && Settled(s, n, gt) && Carried(s, j, gt) && Above(s[j], s[j + 1], gt)
    ensures var t := Swapped(s, j); multiset(t) == multiset(s) && Settled(t, n, gt) && Carried(t, j + 1, gt)
    ensures Preorder(gt, multiset(s)) ==> Stable(s, Swapped(s, j), gt)
  {
    var t := Swapped(s, j);
    SwapCarried(s, j, n, gt);
    if Preorder(gt, multiset(s)) {
      hide Ties, Preorder;
      forall x | x in s ensures Ties(s, x, gt) == Ties(t, x, gt) { SwapKeepsTies(s, j, x, gt); }
    }
  }

  lemma SwapCarried(s: seq<Value>, j: nat, n: nat, gt: (Value, Value) -> bool)
    requires j + 1 < n <= |s| && Settled(s, n, gt) && Carried(s, j, gt) && Above(s[j], s[j + 1], gt)
    ensures var t := Swapped(s, j); multiset(t) == multiset(s) && Settled(t, n, gt) && Carried(t, j + 1, gt)
  {
    SwapPermutes(s, j);
    UndefinedUp(s, j, gt);
    if Preorder(gt, multiset(s)) { AboveOneWay(s[j], s[j + 1], gt, multiset(s)); }
    hide Preorder, Above, Swapped;
    var t := Swapped(s, j);
    forall k | 0 <= k < |s| ensures t[k] == s[SwappedFrom(j, k)] { SwappedAt(s, j, k); }
    forall k, m | 0 <= k < m < |t| && n <= m
      ensures t[k] == Undefined ==> t[m] == Undefined
      ensures Preorder(gt, multiset(s)) ==> !Above(t[k], t[m], gt)
    {
      assert t[m] == s[m] && t[k] == s[SwappedFrom(j, k)] && SwappedFrom(j, k) < m;
    }
  }

  /** Where the element comes from that an exchange puts at `k`. */
  function SwappedFrom(j: nat, k: nat): nat {
    if k == j then j + 1 else if k == j + 1 then j else k
  }

  lemma SwappedAt(s: seq<Value>, j: nat, k: nat)
    requires j + 1 < |s| && k < |s|
    ensures |Swapped(s, j)| == |s| && Swapped(s, j)[k] == s[SwappedFrom(j, k)]
  {
  }

  lemma SwapPermutes(s: seq<Value>, j: nat)
    requires j + 1 < |s|
    ensures multiset(Swapped(s, j)) == multiset(s)
  {
  }

  lemma UndefinedUp(s: seq<Value>, j: nat, gt: (Value, Value) -> bool)
    requires j + 1 < |s| && Above(s[j], s[j + 1], gt)
    ensures s[j + 1] != Undefined
  {
  }

  lemma AboveOneWay(a: Value, b: Value, gt: (Value, Value) -> bool, m: multiset<Value>)
    requires Preorder(gt, m) && a in m && b in m && Above(a, b, gt)
    ensures !Above(b, a, gt)
  {
  }

  lemma KeepCarried(s: seq<Value>, j: nat, gt: (Value, Value) -> bool)
    requires j + 1 < |s| && Carried(s, j, gt) && !Above(s[j], s[j + 1], gt)
    ensures Carried(s, j + 1, gt)
  {
    if Preorder(gt, multiset(s)) {
      forall k | 0 <= k < j + 1 ensures !Above(s[k], s[j + 1], gt) {
        if k < j { NotAboveOn(s[k], s[j], s[j + 1], gt, multiset(s)); }
      }
    }
    hide Preorder;
  }

  lemma NotAboveOn(a: Value, b: Value, c: Value, gt: (Value, Value) -> bool, m: multiset<Value>)
    requires Preorder(gt, m) && a in m && b in m && c in m && !Above(a, b, gt) && !Above(b, c, gt)
    ensures !Above(a, c, gt)
  {
  }

  // ---- a stable sort is determined ----

  /** There is only one way to sort a sequence stably. */
  lemma {:induction false} StableSortIsUnique(s: seq<Value>, t: seq<Value>, gt: (Value, Value) -> bool)
    requires multiset(s) == multiset(t) && Preorder(gt, multiset(s))
    requires Ordered(s, gt) && Ordered(t, gt) && Stable(s, t, gt)
    ensures s == t
    decreases |s|
  {
    hide Ties, Above, Same, Preorder;
    if |s| == 0 {
      assert |t| == |multiset(t)| == |multiset(s)| == 0;
    } else {
      SameLast(s, t, gt);
      var x, s1, t1 := s[|s| - 1], s[..|s| - 1], t[..|t| - 1];
      WithoutLast(s);
      WithoutLast(t);
      FewerOrdered(gt, multiset(s), multiset(s1));
      FewerStable(s1, t1, x, gt);
      hide Stable;
      StableSortIsUnique(s1, t1, gt);
    }
  }

  lemma WithoutLast(s: seq<Value>)
    requires |s| > 0
    ensures var x, s1 := s[|s| - 1], s[..|s| - 1];
      s == s1 + [x] && multiset(s1) == multiset(s) - multiset{x} && multiset(s1) <= multiset(s)
  {
    var x, s1 := s[|s| - 1], s[..|s| - 1];
    assert s == s1 + [x];
    assert multiset(s) == multiset(s1) + multiset{x};
  }

  lemma FewerOrdered(gt: (Value, Value) -> bool, m: multiset<Value>, m1: multiset<Value>)
    requires Preorder(gt, m) && m1 <= m
    ensures Preorder(gt, m1)
  {
    assert forall a :: Asked(a, m1) ==> Asked(a, m);
  }

  lemma FewerStable(s1: seq<Value>, t1: seq<Value>, x: Value, gt: (Value, Value) -> bool)
    requires Stable(s1 + [x], t1 + [x], gt)
    ensures Stable(s1, t1, gt)
  {
    hide Same, Ties;
    forall z | z in s1 ensures Ties(s1, z, gt) == Ties(t1, z, gt) {
      assert z in s1 + [x];
      assert Ties(s1 + [x], z, gt) == Ties(t1 + [x], z, gt);
      TiesSplit(s1, [x], z, gt);
      TiesSplit(t1, [x], z, gt);
      Cancel(Ties(s1, z, gt), Ties(t1, z, gt), Ties([x], z, gt));
    }
  }

  lemma Cancel(a: seq<Value>, b: seq<Value>, tail: seq<Value>)
    requires a + tail == b + tail
    ensures a == b
  {
    assert (a + tail)[..|a|] == a && (b + tail)[..|b|] == b;
  }

  lemma SameLast(s: seq<Value>, t: seq<Value>, gt: (Value, Value) -> bool)
    requires multiset(s) == multiset(t) && Preorder(gt, multiset(s))
    requires Ordered(s, gt) && Ordered(t, gt) && Stable(s, t, gt) && |s| > 0
    ensures |t| > 0 && s[|s| - 1] == t[|t| - 1]
  {
    hide Preorder;
    var x := s[|s| - 1];
    assert x in multiset(s) && x in multiset(t) && x in s && x in t;
    var y := t[|t| - 1];
    assert y in multiset(t) && y in multiset(s) && y in s && y in t;
    LastTies(s, y, gt);
    LastTies(t, x, gt);
    SelfSame(x, gt, multiset(s));
    SelfSame(y, gt, multiset(s));
    hide Above;
    LastTie(s, x, gt);
    LastTie(t, x, gt);
  }

  lemma SelfSame(x: Value, gt: (Value, Value) -> bool, m: multiset<Value>)
    requires Preorder(gt, m) && x in m
    ensures Same(x, x, gt)
  {
  }

  /** Nothing in an ordered sequence is above its last element. */
  lemma LastTies(s: seq<Value>, y: Value, gt: (Value, Value) -> bool)
    requires Ordered(s, gt) && y in s
    ensures y == s[|s| - 1] || !Above(y, s[|s| - 1], gt)
  {
  }

  lemma LastTie(s: seq<Value>, x: Value, gt: (Value, Value) -> bool)
    requires |s| > 0 && Same(s[|s| - 1], x, gt)
    ensures Ties(s, x, gt) != [] && Ties(s, x, gt)[|Ties(s, x, gt)| - 1] == s[|s| - 1]
  {
  }

  // ---- comparators ----

  /** Comparing by a key orders any values. */
  lemma KeyOrders(gt: (Value, Value) -> bool, key: Value -> real, m: multiset<Value>)
    requires forall a, b :: Asked(a, m) && Asked(b, m) ==> (gt(a, b) <==> key(a) > key(b))
    ensures Preorder(gt, m)
  {
  }

  /** Whatever a comparator says of other values: when it answers `a > b` on integers, an array of integers and undefined
      is sorted into the integers, ascending, then undefined. */
  lemma IntegersAscend(s: seq<Value>, t: seq<Value>, gt: (Value, Value) -> bool)
    requires forall i :: 0 <= i < |s| ==> s[i].Int? || s[i].Undefined?
    requires forall a: i32, b: i32 :: gt(Int(a), Int(b)) <==> a > b
    requires multiset(t) == multiset(s) && UndefinedLast(t) && (Preorder(gt, multiset(s)) ==> Ordered(t, gt))
    ensures var n := |s| - multiset(s)[Undefined];
      && 0 <= n <= |t| == |s|
      && (forall i :: 0 <= i < n ==> t[i].Int?)
      && (forall i, j :: 0 <= i < j < n ==> t[i].n <= t[j].n)
      && forall i :: n <= i < |t| ==> t[i] == Undefined
  {
    var m := multiset(s);
    forall a | a in m ensures a.Int? || a.Undefined? { assert a in s; }
    IntegersOrder(gt, m);
    hide Preorder;
    assert |t| == |m| == |s|;
    forall i | 0 <= i < |t| ensures t[i].Int? || t[i].Undefined? { assert t[i] in multiset(t); }
    UndefinedCounted(t);
    forall i, j | 0 <= i < j < |t| && t[i].Int? && t[j].Int? ensures t[i].n <= t[j].n {
      assert !Above(t[i], t[j], gt);
    }
  }

  lemma IntegersOrder(gt: (Value, Value) -> bool, m: multiset<Value>)
    requires forall a :: a in m ==> a.Int? || a.Undefined?
    requires forall a: i32, b: i32 :: gt(Int(a), Int(b)) <==> a > b
    ensures Preorder(gt, m)
  {
  }

  /** Undefined last: as many as there are. */
  lemma {:induction false} UndefinedCounted(t: seq<Value>)
    requires UndefinedLast(t)
    ensures var n := |t| - multiset(t)[Undefined];
      0 <= n && forall i :: 0 <= i < |t| ==> (t[i] == Undefined <==> i >= n)
    decreases |t|
  {
    if t != [] {
      var front, last := t[..|t| - 1], t[|t| - 1];
      assert t == front + [last];
      assert multiset(t) == multiset(front) + multiset{last};
      UndefinedCounted(front);
    }
  }

  /** The comparison without a comparator: by number, and false when one of the two has none (it is NaN). An infinity is a
      number beyond the finite ones of the array. */
  predicate ByNumber(num: Value -> Option<real>, a: Value, b: Value) {
    num(a).Some? && num(b).Some? && num(a).value > num(b).value
  }

  /** It orders an array if and only if every element has a number, or no two have different ones. */
  lemma DefaultOrders(num: Value -> Option<real>, m: multiset<Value>)
    ensures Preorder((a, b) => ByNumber(num, a, b), m) <==>
      || (forall a :: Asked(a, m) ==> num(a).Some?)
      || (forall a, b :: Asked(a, m) && Asked(b, m) ==> !ByNumber(num, a, b))
  {
    var gt := (a, b) => ByNumber(num, a, b);
    if a, b, z :| Asked(a, m) && Asked(b, m) && Asked(z, m) && num(z).None? && ByNumber(num, a, b) {
      assert gt(a, b) && !gt(a, z) && !gt(z, b);
    }
  }

  /** An element without a number stands in the way: `[p, NaN, q]` stays as it is, even if `p` is the greater. */
  lemma NoNumberBlocks(num: Value -> Option<real>, p: Value, z: Value, q: Value)
    requires p != Undefined && z != Undefined && q != Undefined && num(z).None?
    ensures Bubbled([p, z, q], 3, (a, b) => ByNumber(num, a, b)) == [p, z, q]
  {
    Unmoved([p, z, q], 3, (a, b) => ByNumber(num, a, b));
  }

  /** A sequence with no neighbours to exchange stays as it is. */
  lemma {:induction false} Unmoved(s: seq<Value>, n: nat, gt: (Value, Value) -> bool)
    requires n <= |s| && forall j :: 0 <= j < |s| - 1 ==> !Above(s[j], s[j + 1], gt)
    ensures Bubbled(s, n, gt) == s
    decreases n
  {
    if n > 0 {
      PassUnmoved(s, 0, n, gt);
      Unmoved(s, n - 1, gt);
    }
  }

  lemma {:induction false} PassUnmoved(s: seq<Value>, j: nat, n: nat, gt: (Value, Value) -> bool)
    requires j < n <= |s| && forall k :: 0 <= k < |s| - 1 ==> !Above(s[k], s[k + 1], gt)
    ensures Passed(s, j, n, gt) == s
    decreases n - j
  {
    if j + 1 < n { PassUnmoved(s, j + 1, n, gt); }
  }
}
