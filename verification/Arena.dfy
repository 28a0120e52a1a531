/** The bump arena, tagged words, and the arrays that grow inside the arena (src/context.rs, src/value.rs). */
module Arena {
  import opened Values
  import opened Arithmetic

  // ---- tagged words (64-bit) ----

  const WORD := 0x1_0000_0000_0000_0000

  type word = n: int | 0 <= n < 0x1_0000_0000_0000_0000

  /** `(v as isize as usize) << 1`, the integer tag being 0. */
  function FromInt32(v: i32): word {
    (v % WORD * 2) % WORD
  }

  /** Arithmetic shift right by one, cut to 32 bits. */
  function ToInt32(w: word): i32 {
    var signed: int := if w >= 0x8000_0000_0000_0000 then w - WORD else w;
    Wrap32(signed / 2)
  }

  /** `ptr | 1` */
  function FromPtr(p: word): word {
    if p % 2 == 0 then p + 1 else p
  }

  /** `w & !7` */
  function AsPtr(w: word): word {
    w - w % 8
  }

  predicate IsInt(w: word) {
    w % 2 == 0
  }

  predicate IsPtr(w: word) {
    w % 8 == 1
  }

  /** A special word: tag 3, one of eight kinds, and a payload above five bits. */
  function Special(kind: nat, payload: nat): nat
    requires kind < 8
  {
    3 + 4 * kind + 32 * payload
  }

  /** Every 32-bit integer survives tagging, as an integer and as nothing else. */
  lemma IntRoundTrip(v: i32)
    ensures IsInt(FromInt32(v)) && !IsPtr(FromInt32(v)) && ToInt32(FromInt32(v)) == v
  {
    var n: int := v;
    assert v % WORD == if n >= 0 then n else n + WORD;
  }

  /** A pointer survives tagging if and only if it is 8-aligned; then it is a pointer word and nothing else. */
  lemma PtrRoundTrip(p: word)
    ensures AsPtr(FromPtr(p)) == p <==> p % 8 == 0
    ensures p % 8 == 0 ==> IsPtr(FromPtr(p)) && !IsInt(FromPtr(p))
  {
    var q, r := p / 8, p % 8;
    assert p == 8 * q + r;
    assert p % 2 == r % 2;
    var w: int := FromPtr(p);
    assert w == 8 * q + if r % 2 == 0 then r + 1 else r;
    assert w % 8 == if r % 2 == 0 then r + 1 else r;
  }

  /** Special words are neither integers nor pointers, and keep their kind and payload. */
  lemma SpecialApart(kind: nat, payload: nat)
    requires kind < 8 && Special(kind, payload) < WORD
    ensures !IsInt(Special(kind, payload)) && !IsPtr(Special(kind, payload))
    ensures Special(kind, payload) % 32 / 4 == kind && Special(kind, payload) / 32 == payload
  {
    var half := kind / 2;
    var odd := kind - 2 * half;
    Quotient(1 + 2 * kind + 16 * payload, 1, 2);
    Quotient(half + 4 * payload, 3 + 4 * odd, 8);
    Quotient(payload, 3 + 4 * kind, 32);
    Quotient(kind, 3, 4);
  }

  // ---- the arena ----

  function AlignUp(v: nat, align: nat): (r: nat)
    requires align > 0
  {
    (v + align - 1) / align * align
  }

  lemma AlignUpFits(v: nat, align: nat)
    requires align > 0
    ensures v <= AlignUp(v, align) < v + align && AlignUp(v, align) % align == 0
  {
    var n := v + align - 1;
    var q, r := n / align, n % align;
    assert n == q * align + r;
    Quotient(q, 0, align);
  }

  /** In an arena that starts 8-aligned, every block allocated with the alignment of a word has a taggable address. */
  lemma ArenaPointers(start: word, offset: nat)
    requires start % 8 == 0 && start + AlignUp(offset, 8) < WORD
    ensures var p: word := start + AlignUp(offset, 8); IsPtr(FromPtr(p)) && AsPtr(FromPtr(p)) == p
  {
    hide AlignUp, IsPtr, FromPtr, AsPtr;
    AlignUpFits(offset, 8);
    AlignedSum(start, AlignUp(offset, 8));
    PtrRoundTrip(start + AlignUp(offset, 8));
  }

  lemma AlignedSum(a: nat, b: nat)
    requires a % 8 == 0 && b % 8 == 0
    ensures (a + b) % 8 == 0
  {
  }

  // ---- arrays as sequences ----

  function Undefs(n: nat): (s: seq<Value>)
    ensures |s| == n && forall i :: 0 <= i < n ==> s[i] == Undefined
  {
    seq(n, _ => Undefined)
  }

  /** An indexed write: past the end the holes become undefined. */
  function Written(c: seq<Value>, idx: nat, v: Value): seq<Value> {
    if idx < |c| then c[idx := v] else c + Undefs(idx - |c|) + [v]
  }

  function Resized(c: seq<Value>, n: nat): seq<Value> {
    if n <= |c| then c[..n] else c + Undefs(n - |c|)
  }

  /** Every place after a write: the new value, the old one, or undefined. */
  lemma WrittenReads(c: seq<Value>, idx: nat, v: Value, j: nat)
    ensures |Written(c, idx, v)| == if idx < |c| then |c| else idx + 1
    ensures j < |Written(c, idx, v)| ==> Written(c, idx, v)[j] == if j == idx then v else if j < |c| then c[j] else Undefined
  {
  }

  /** Every place after a change of length: the old value or undefined. */
  lemma ResizedReads(c: seq<Value>, n: nat, j: nat)
    ensures |Resized(c, n)| == n
    ensures j < n ==> Resized(c, n)[j] == if j < |c| then c[j] else Undefined
  {
  }

  function Max(a: nat, b: nat): nat {
    if a < b then b else a
  }

  /** Clearing a stretch after `n` words leaves those as they were and follows them with undefined. */
  lemma ClearedSlice(w: seq<Value>, now: seq<Value>, at: nat, n: nat, lo: nat, hi: nat)
    requires |now| == |w| && at + n == lo <= hi <= |w|
    requires forall k :: 0 <= k < |w| ==> now[k] == if lo <= k < hi then Undefined else w[k]
    ensures now[at..lo] == w[at..lo] && now[at..hi] == w[at..lo] + Undefs(hi - lo)
  {
  }

  lemma SameSlice(w: seq<Value>, now: seq<Value>, lo: nat, hi: nat)
    requires |now| == |w| && lo <= hi <= |w| && forall k :: lo <= k < hi ==> now[k] == w[k]
    ensures now[lo..hi] == w[lo..hi]
  {
  }

  class JSArray {
    var len: nat
    var cap: nat
    /** The element block, as a word index into the arena: its byte offset over 8. */
    var at: Option<nat>
    /** The greatest length so far, and the slots of all blocks this array was ever given. */
    ghost var peak: nat
    ghost var total: nat

    constructor ()
      ensures len == 0 && cap == 0 && at == None && peak == 0 && total == 0
    {
      len, cap, at, peak, total := 0, 0, None, 0, 0;
    }

    /** The array's own invariant; its last line is the amortised bound in the making. */
    ghost predicate Shape()
      reads this
    {
      && len <= cap && len <= peak && (cap > 0 <==> at.Some?)
      && (cap == 0 ==> total == 0)
      && (cap > 0 ==> 1 <= peak && 4 <= cap <= Max(4, 2 * peak - 2) && total <= 2 * cap - 4)
    }
  }

  /** However an array that started empty was pushed, popped, written and resized, all its blocks together
      take at most four slots per element of its greatest length. */
  lemma GrowthBound(a: JSArray)
    requires a.Shape()
    ensures a.total <= 4 * a.peak
  {
  }

  class Region {
    const size: nat
    var offset: nat
    /** The arena as 8-byte words. */
    var words: array<Value>

    constructor (size: nat)
      ensures this.size == size && offset == 0 && fresh(words) && words.Length == size / 8
    {
      this.size := size;
      offset := 0;
      words := new Value[size / 8](_ => Undefined);
    }

    ghost predicate Placed(a: JSArray)
      reads this, a
    {
      a.Shape() && (a.at.Some? ==> 8 * (a.at.value + a.cap) <= offset)
    }

    static ghost predicate Apart(a: JSArray, b: JSArray)
      reads a, b
    {
      a.at.Some? && b.at.Some? ==> a.at.value + a.cap <= b.at.value || b.at.value + b.cap <= a.at.value
    }

    /** Blocks lie in the used part of the arena, and no two arrays share a slot. */
    ghost predicate Valid(all: set<JSArray>)
      reads this, all
    {
      && offset <= size && words.Length == size / 8
      && (forall a :: a in all ==> Placed(a))
      && (forall a, b :: a in all && b in all && a != b ==> Apart(a, b))
    }

    /** The block of one array is in the arena. */
    ghost predicate Holds(a: JSArray)
      reads this, a
    {
      a.len <= a.cap && if a.at.Some? then a.at.value + a.cap <= words.Length else a.cap == 0
    }

    /** The sequence an array stands for. */
    ghost function Contents(a: JSArray): seq<Value>
      reads this, words, a
    {
      if a.at.Some? && a.at.value + a.len <= words.Length then words[a.at.value..a.at.value + a.len] else []
    }

    /** An allocation for anything: it leaves every array as it was. */
    method Alloc(ghost all: set<JSArray>, bytes: nat, align: nat) returns (start: Option<nat>)
      requires Valid(all) && align > 0
      modifies this`offset
      ensures Valid(all)
      ensures var p := AlignUp(old(offset), align);
        if p + bytes <= size then start == Some(p) && offset == p + bytes else start == None && offset == old(offset)
    {
      AlignUpFits(offset, align);
      var aligned := AlignUp(offset, align);
      if aligned + bytes > size { return None; }
      offset := aligned + bytes;
      start := Some(aligned);
    }

    /** Only slots of the block of `a` have changed. */
    twostate predicate OnlyBlockOf(a: JSArray)
      reads this, words, a
    {
      words == old(words) &&
      forall k :: 0 <= k < words.Length && !(a.at.Some? && a.at.value <= k < a.at.value + a.cap) ==> words[k] == old(words[k])
    }

    /** Fills the slots from `lo` up to `hi` with undefined. */
    method Clear(lo: nat, hi: nat)
      requires lo <= hi <= words.Length
      modifies words
      ensures forall k :: 0 <= k < words.Length ==> words[k] == if lo <= k < hi then Undefined else old(words[k])
    {
      var i := lo;
      while i < hi
        invariant lo <= i <= hi
        invariant forall k :: 0 <= k < words.Length ==> words[k] == if lo <= k < i then Undefined else old(words[k])
      {
        words[i] := Undefined;
        i := i + 1;
      }
    }

    /** Copies `n` slots to a block that starts after them. */
    method Copy(from: nat, to: nat, n: nat)
      requires from + n <= to && to + n <= words.Length
      modifies words
      ensures words[to..to + n] == old(words[from..from + n])
      ensures forall k :: 0 <= k < words.Length && !(to <= k < to + n) ==> words[k] == old(words[k])
    {
      var i := 0;
      while i < n
        invariant 0 <= i <= n
        invariant words[to..to + i] == old(words[from..from + i])
        invariant forall k :: 0 <= k < words.Length && !(to <= k < to + n) ==> words[k] == old(words[k])
      {
        words[to + i] := words[from + i];
        i := i + 1;
      }
    }

    /** A block of 8-byte slots, by its word index. */
    method AllocSlots(ghost all: set<JSArray>, n: nat) returns (base: Option<nat>)
      requires Valid(all)
      modifies this`offset
      ensures Valid(all) && old(offset) <= offset
      ensures base.None? ==> offset == old(offset)
      ensures base.Some? ==> old(offset) <= 8 * base.value == AlignUp(old(offset), 8) && offset == 8 * (base.value + n)
    {
      AlignUpFits(offset, 8);
      var start := Alloc(all, n * 8, 8);
      base := if start.Some? then Some(start.value / 8) else None;
    }

    /** Gives the array a fresh block: cleared, then the elements copied. */
    method Relocate(a: JSArray, base: nat, newCap: nat)
      requires Holds(a) && (a.at.Some? ==> a.at.value + a.cap <= base) && base + newCap <= words.Length && a.len <= newCap
      modifies words, a`cap, a`at
      ensures a.cap == newCap && a.at == Some(base) && Contents(a) == old(Contents(a)) && OnlyBlockOf(a)
    {
      Clear(base, base + newCap);
      if a.at.Some? {
        Copy(a.at.value, base, a.len);
      }
      a.at := Some(base);
      a.cap := newCap;
    }

    /** The same, with the books kept. */
    method Move(a: JSArray, base: nat, newCap: nat, ghost needed: nat)
      requires a.Shape() && Holds(a) && (a.at.Some? ==> a.at.value + a.cap <= base) && base + newCap <= words.Length
      requires a.cap < needed <= newCap && newCap == Max(if a.cap == 0 then 4 else 2 * a.cap, needed)
      modifies words, a`cap, a`at, a`peak, a`total
      ensures a.cap == newCap && a.at == Some(base) && a.peak == Max(old(a.peak), needed) && a.total == old(a.total) + newCap
      ensures a.Shape() && Contents(a) == old(Contents(a)) && OnlyBlockOf(a)
    {
      a.peak := Max(a.peak, needed);
      a.total := a.total + newCap;
      Relocate(a, base, newCap);
    }

    /** A new block of at least `needed` slots, the elements copied, the old block abandoned. */
    method Grow(ghost all: set<JSArray>, a: JSArray, needed: nat) returns (ok: bool)
      requires Valid(all) && a in all && needed > a.cap
      modifies this`offset, words, a`cap, a`at, a`peak, a`total
      ensures Valid(all) && OnlyBlockOf(a)
      ensures !ok ==> offset == old(offset) && unchanged(a) && unchanged(words)
      ensures ok ==> a.cap >= needed && a.peak == Max(old(a.peak), needed) && Contents(a) == old(Contents(a))
      ensures ok ==> offset == AlignUp(old(offset), 8) + 8 * a.cap && a.total == old(a.total) + a.cap
    {
      var newCap := if a.cap == 0 then 4 else a.cap * 2;
      if newCap < needed {
        newCap := needed;
      }
      var base := AllocSlots(all, newCap);
      ok := base.Some?;
      if ok {
        Move(a, base.value, newCap, needed);
        forall b | b in all && b != a ensures Placed(b) && Apart(a, b) && Apart(b, a) {}
      }
    }

    /** Room for `n` elements. */
    method Reserve(ghost all: set<JSArray>, a: JSArray, n: nat) returns (ok: bool)
      requires Valid(all) && a in all
      modifies this`offset, words, a`cap, a`at, a`peak, a`total
      ensures Valid(all) && OnlyBlockOf(a) && Contents(a) == old(Contents(a)) && a.len == old(a.len)
      ensures ok ==> a.cap >= n && old(a.peak) <= a.peak <= Max(old(a.peak), n)
      ensures ok ==> 0 <= offset - old(offset) - 8 * (a.total - old(a.total)) < 8
      ensures ok || (n > old(a.cap) && unchanged(a) && unchanged(words))
    {
      ok := true;
      if n > a.cap {
        ok := Grow(all, a, n);
      }
    }

    /** Stores past the end, the holes made undefined. */
    method Append(a: JSArray, idx: nat, v: Value)
      requires Holds(a) && a.len <= idx < a.cap
      modifies words, a`len
      ensures a.len == idx + 1 && Contents(a) == Written(old(Contents(a)), idx, v) && OnlyBlockOf(a)
    {
      ghost var w := words[..];
      var start := a.at.value;
      Clear(start + a.len, start + idx);
      ClearedSlice(w, words[..], start, a.len, start + a.len, start + idx);
      words[start + idx] := v;
      a.len := idx + 1;
      assert words[start..start + idx] == w[start..start + old(a.len)] + Undefs(idx - old(a.len));
      assert words[start..start + idx + 1] == words[start..start + idx] + [v];
    }

    method Overwrite(a: JSArray, idx: nat, v: Value)
      requires Holds(a) && idx < a.len
      modifies words
      ensures Contents(a) == Written(old(Contents(a)), idx, v) && OnlyBlockOf(a)
    {
      words[a.at.value + idx] := v;
    }

    /** Sets the length, clearing whatever enters or leaves the array. */
    method Cut(a: JSArray, n: nat)
      requires Holds(a) && n <= a.cap
      modifies words, a`len
      ensures a.len == n && Contents(a) == Resized(old(Contents(a)), n) && OnlyBlockOf(a)
    {
      ghost var w := words[..];
      if n > a.len {
        Clear(a.at.value + a.len, a.at.value + n);
        ClearedSlice(w, words[..], a.at.value, a.len, a.at.value + a.len, a.at.value + n);
      } else if n < a.len {
        Clear(a.at.value + n, a.at.value + a.len);
        ClearedSlice(w, words[..], a.at.value, n, a.at.value + n, a.at.value + a.len);
      }
      a.len := n;
    }

    /** A greater peak is all that a longer length asks of the books. */
    ghost method Note(all: set<JSArray>, a: JSArray, n: nat)
      requires Valid(all) && a in all && n <= a.cap
      modifies a`peak
      ensures Valid(all) && a.peak == Max(old(a.peak), n) && Contents(a) == old(Contents(a))
    {
      a.peak := Max(a.peak, n);
    }

    /** A write inside the capacity. */
    method Store(ghost all: set<JSArray>, a: JSArray, idx: nat, v: Value)
      requires Valid(all) && a in all && idx < a.cap && idx < a.peak
      modifies words, a`len
      ensures Valid(all) && OnlyBlockOf(a) && Contents(a) == Written(old(Contents(a)), idx, v)
      ensures a.len == Max(old(a.len), idx + 1)
    {
      hide Undefs, Contents, OnlyBlockOf;
      if idx >= a.len {
        Append(a, idx, v);
      } else {
        Overwrite(a, idx, v);
      }
    }

    /** `a[idx] = v`: extends the array past its end, or fails without effect when the arena is full. */
    method Set(ghost all: set<JSArray>, a: JSArray, idx: nat, v: Value) returns (ok: bool)
      requires Valid(all) && a in all
      modifies this`offset, words, a
      ensures Valid(all) && OnlyBlockOf(a)
      ensures Contents(a) == if ok then Written(old(Contents(a)), idx, v) else old(Contents(a))
      ensures ok || (idx >= old(a.cap) && unchanged(a))
      ensures ok ==> a.peak == Max(old(a.peak), a.len) && 0 <= offset - old(offset) - 8 * (a.total - old(a.total)) < 8
    {
      hide Written, Resized, Undefs, Contents;
      ok := Reserve(all, a, idx + 1);
      if ok {
        Note(all, a, idx + 1);
        Store(all, a, idx, v);
      }
    }

    /** `a.length = n` */
    method SetLength(ghost all: set<JSArray>, a: JSArray, n: nat) returns (ok: bool)
      requires Valid(all) && a in all
      modifies this`offset, words, a
      ensures Valid(all) && OnlyBlockOf(a)
      ensures Contents(a) == if ok then Resized(old(Contents(a)), n) else old(Contents(a))
      ensures ok || (n > old(a.cap) && unchanged(a))
      ensures ok ==> a.peak == Max(old(a.peak), a.len) && 0 <= offset - old(offset) - 8 * (a.total - old(a.total)) < 8
    {
      hide Written, Resized, Undefs, Contents;
      ok := Reserve(all, a, n);
      if ok {
        Note(all, a, n);
        CutTo(all, a, n);
      }
    }

    method CutTo(ghost all: set<JSArray>, a: JSArray, n: nat)
      requires Valid(all) && a in all && n <= a.cap && n <= a.peak
      modifies words, a`len
      ensures Valid(all) && OnlyBlockOf(a) && Contents(a) == Resized(old(Contents(a)), n) && a.len == n
    {
      hide Resized, Undefs, Contents, OnlyBlockOf;
      Cut(a, n);
    }

    method Push(ghost all: set<JSArray>, a: JSArray, v: Value) returns (ok: bool)
      requires Valid(all) && a in all
      modifies this`offset, words, a
      ensures Valid(all) && OnlyBlockOf(a)
      ensures Contents(a) == if ok then old(Contents(a)) + [v] else old(Contents(a))
      ensures ok || unchanged(a)
      ensures ok ==> a.peak == Max(old(a.peak), a.len) && 0 <= offset - old(offset) - 8 * (a.total - old(a.total)) < 8
    {
      ok := Set(all, a, a.len, v);
    }

    /** The last element, or undefined; its slot keeps the value but no longer belongs to the array. */
    method Pop(ghost all: set<JSArray>, a: JSArray) returns (v: Value)
      requires Valid(all) && a in all
      modifies a`len
      ensures Valid(all)
      ensures var c := old(Contents(a));
        if c == [] then v == Undefined && Contents(a) == [] else v == c[|c| - 1] && Contents(a) == c[..|c| - 1]
    {
      if a.len == 0 { return Undefined; }
      v := words[a.at.value + a.len - 1];
      a.len := a.len - 1;
    }
  }

  // ---- whole runs over many arrays ----

  datatype Edit = Push(v: Value) | Pop | Write(idx: nat, v: Value) | Resize(n: nat)

  /** What an edit that finds room does to a sequence. */
  function Applied(c: seq<Value>, e: Edit): seq<Value> {
    match e
    case Push(v) => c + [v]
    case Pop => if c == [] then [] else c[..|c| - 1]
    case Write(idx, v) => Written(c, idx, v)
    case Resize(n) => Resized(c, n)
  }

  /** The sequences after edits to chosen arrays; an edit the arena had no room for changes nothing. */
  function After(cs: seq<seq<Value>>, edits: seq<(nat, Edit)>, done: seq<bool>): (r: seq<seq<Value>>)
    requires |done| == |edits| && forall i :: 0 <= i < |edits| ==> edits[i].0 < |cs|
    ensures |r| == |cs|
  {
    if |edits| == 0 then cs
    else
      var n := |edits| - 1;
      var before := After(cs, edits[..n], done[..n]);
      if done[n] then before[edits[n].0 := Applied(before[edits[n].0], edits[n].1)] else before
  }

  /** One edit. */
  method PerformOn(r: Region, ghost all: set<JSArray>, a: JSArray, e: Edit) returns (ok: bool)
    requires r.Valid(all) && a in all
    modifies r`offset, r.words, a
    ensures r.Valid(all) && r.OnlyBlockOf(a)
    ensures r.Contents(a) == if ok then Applied(old(r.Contents(a)), e) else old(r.Contents(a))
    ensures a.peak == Max(old(a.peak), a.len) && (e.Pop? ==> ok)
  {
    match e {
      case Push(v) => ok := r.Push(all, a, v);
      case Pop => var _ := r.Pop(all, a); ok := true;
      case Write(idx, v) => ok := r.Set(all, a, idx, v);
      case Resize(n) => ok := r.SetLength(all, a, n);
    }
    assert r.Placed(a);
  }

  /** One edit leaves the sequence of every other array as it was. */
  method Perform(r: Region, ghost all: set<JSArray>, a: JSArray, e: Edit) returns (ok: bool)
    requires r.Valid(all) && a in all
    modifies r`offset, r.words, a
    ensures r.Valid(all) && r.words == old(r.words) && (e.Pop? ==> ok)
    ensures a.peak == Max(old(a.peak), |r.Contents(a)|)
    ensures r.Contents(a) == if ok then Applied(old(r.Contents(a)), e) else old(r.Contents(a))
    ensures forall b :: b in all && b != a ==> r.Contents(b) == old(r.Contents(b))
  {
    ok := PerformOn(r, all, a, e);
    assert r.Placed(a);
    forall b | b in all && b != a ensures r.Contents(b) == old(r.Contents(b)) {
      assert Region.Apart(a, b) && r.Placed(b);
      if b.at.Some? {
        SameSlice(old(r.words[..]), r.words[..], b.at.value, b.at.value + b.len);
      }
    }
  }

  ghost predicate Stand(r: Region, arrays: seq<JSArray>, cs: seq<seq<Value>>)
    reads r, r.words, arrays
  {
    |cs| == |arrays| && forall i :: 0 <= i < |arrays| ==> r.Contents(arrays[i]) == cs[i]
  }

  /** The greatest length of each array so far. */
  function Longest(cs: seq<seq<Value>>, ps: seq<nat>, edits: seq<(nat, Edit)>, done: seq<bool>): (r: seq<nat>)
    requires |done| == |edits| && |ps| == |cs| && forall i :: 0 <= i < |edits| ==> edits[i].0 < |cs|
    ensures |r| == |cs|
  {
    if |edits| == 0 then ps
    else
      var n := |edits| - 1;
      var at := edits[n].0;
      var before := Longest(cs, ps, edits[..n], done[..n]);
      before[at := Max(before[at], |After(cs, edits, done)[at]|)]
  }

  ghost predicate Peaks(arrays: seq<JSArray>, ps: seq<nat>)
    reads arrays
  {
    |ps| == |arrays| && forall i :: 0 <= i < |arrays| ==> arrays[i].peak == ps[i]
  }

  ghost predicate Distinct(arrays: seq<JSArray>) {
    forall i, j :: 0 <= i < j < |arrays| ==> arrays[i] != arrays[j]
  }

  method PerformAt(r: Region, arrays: seq<JSArray>, at: nat, e: Edit, ghost all: set<JSArray>,
                   ghost cs: seq<seq<Value>>, ghost ps: seq<nat>)
    returns (ok: bool)
    requires r.Valid(all) && (forall a :: a in arrays ==> a in all) && Distinct(arrays)
    requires Stand(r, arrays, cs) && Peaks(arrays, ps) && at < |arrays|
    modifies r`offset, r.words, arrays
    ensures r.Valid(all) && r.words == old(r.words)
    ensures var now := if ok then cs[at := Applied(cs[at], e)] else cs;
      Stand(r, arrays, now) && Peaks(arrays, ps[at := Max(ps[at], |now[at]|)])
  {
    ok := Perform(r, all, arrays[at], e);
    ghost var now := if ok then cs[at := Applied(cs[at], e)] else cs;
    forall i | 0 <= i < |arrays| ensures r.Contents(arrays[i]) == now[i] {
      if i != at {
        assert arrays[i] in all;
      }
    }
  }

  /** Any interleaving of edits on any number of arrays: every array stays the sequence the edits say, and all the
      blocks it was ever given take at most four slots per element of its greatest length. */
  method PerformAll(r: Region, arrays: seq<JSArray>, edits: seq<(nat, Edit)>, ghost all: set<JSArray>,
                    ghost cs: seq<seq<Value>>, ghost ps: seq<nat>)
    returns (done: seq<bool>)
    requires r.Valid(all) && (forall a :: a in arrays ==> a in all) && Distinct(arrays)
    requires Stand(r, arrays, cs) && Peaks(arrays, ps)
    requires forall i :: 0 <= i < |edits| ==> edits[i].0 < |arrays|
    modifies r`offset, r.words, arrays
    ensures r.Valid(all) && |done| == |edits| && Stand(r, arrays, After(cs, edits, done))
    ensures forall i :: 0 <= i < |arrays| ==> arrays[i].total <= 4 * Longest(cs, ps, edits, done)[i]
  {
    hide *;
    AtFirst(r, arrays, cs, ps, edits);
    done := [];
    while |done| < |edits|
      invariant |done| <= |edits| && r.Valid(all) && r.words == old(r.words)
      invariant Reached(r, arrays, cs, ps, edits, done)
    {
      var ok := PerformNext(r, arrays, edits, all, cs, ps, done, |done|);
      done := done + [ok];
    }
    AtLast(r, arrays, cs, ps, edits, done);
    AllBounded(r, arrays, all, Longest(cs, ps, edits, done));
  }

  /** The edits that are done have had their effect. */
  ghost predicate Reached(r: Region, arrays: seq<JSArray>, cs: seq<seq<Value>>, ps: seq<nat>, edits: seq<(nat, Edit)>,
                          done: seq<bool>)
    requires |done| <= |edits|
    reads r, r.words, arrays
  {
    && |cs| == |ps| == |arrays|
    && (forall i :: 0 <= i < |edits| ==> edits[i].0 < |cs|)
    && Stand(r, arrays, After(cs, edits[..|done|], done))
    && Peaks(arrays, Longest(cs, ps, edits[..|done|], done))
  }

  method PerformNext(r: Region, arrays: seq<JSArray>, edits: seq<(nat, Edit)>, ghost all: set<JSArray>,
                     ghost cs: seq<seq<Value>>, ghost ps: seq<nat>, ghost done: seq<bool>, i: nat)
    returns (ok: bool)
    requires r.Valid(all) && (forall a :: a in arrays ==> a in all) && Distinct(arrays)
    requires i == |done| < |edits| && Reached(r, arrays, cs, ps, edits, done)
    modifies r`offset, r.words, arrays
    ensures r.Valid(all) && r.words == old(r.words) && Reached(r, arrays, cs, ps, edits, done + [ok])
  {
    hide After, Longest, Stand, Peaks, Distinct;
    var (at, e) := edits[i];
    ok := PerformAt(r, arrays, at, e, all, After(cs, edits[..i], done), Longest(cs, ps, edits[..i], done));
    AfterOne(cs, ps, edits, done, ok);
  }

  lemma AllBounded(r: Region, arrays: seq<JSArray>, all: set<JSArray>, ps: seq<nat>)
    requires r.Valid(all) && (forall a :: a in arrays ==> a in all) && Peaks(arrays, ps)
    ensures forall i :: 0 <= i < |arrays| ==> arrays[i].total <= 4 * ps[i]
  {
    forall i | 0 <= i < |arrays| ensures arrays[i].total <= 4 * ps[i] {
      assert r.Placed(arrays[i]);
      GrowthBound(arrays[i]);
    }
  }

  lemma AtFirst(r: Region, arrays: seq<JSArray>, cs: seq<seq<Value>>, ps: seq<nat>, edits: seq<(nat, Edit)>)
    requires Stand(r, arrays, cs) && Peaks(arrays, ps) && forall i :: 0 <= i < |edits| ==> edits[i].0 < |arrays|
    ensures Reached(r, arrays, cs, ps, edits, [])
  {
    assert edits[..0] == [];
  }

  lemma AtLast(r: Region, arrays: seq<JSArray>, cs: seq<seq<Value>>, ps: seq<nat>, edits: seq<(nat, Edit)>, done: seq<bool>)
    requires |done| == |edits| && Reached(r, arrays, cs, ps, edits, done)
    ensures |cs| == |ps| == |arrays| && forall i :: 0 <= i < |edits| ==> edits[i].0 < |cs|
    ensures Stand(r, arrays, After(cs, edits, done)) && Peaks(arrays, Longest(cs, ps, edits, done))
  {
    hide After, Longest, Stand, Peaks;
    assert edits[..|done|] == edits;
  }

  lemma AfterOne(cs: seq<seq<Value>>, ps: seq<nat>, edits: seq<(nat, Edit)>, done: seq<bool>, ok: bool)
    requires |done| < |edits| && |ps| == |cs| && forall i :: 0 <= i < |edits| ==> edits[i].0 < |cs|
    ensures var n := |done|; var at := edits[n].0;
      var before, longest := After(cs, edits[..n], done), Longest(cs, ps, edits[..n], done);
      var now := if ok then before[at := Applied(before[at], edits[n].1)] else before;
      && After(cs, edits[..n + 1], done + [ok]) == now
      && Longest(cs, ps, edits[..n + 1], done + [ok]) == longest[at := Max(longest[at], |now[at]|)]
  {
    var n := |done|;
    assert edits[..n + 1][..n] == edits[..n] && (done + [ok])[..n] == done;
  }

  /** The values an edit brings in. */
  function Brought(e: Edit): set<Value> {
    if e.Push? || e.Write? then {e.v} else {}
  }

  function AllApplied(c: seq<Value>, es: seq<Edit>): seq<Value> {
    if |es| == 0 then c else Applied(AllApplied(c, es[..|es| - 1]), es[|es| - 1])
  }

  /** Whatever an array holds after a run was in it before, or is undefined, or was stored by the run. So a value
      popped or cut off never comes back by itself. */
  lemma {:induction false} NothingReappears(c: seq<Value>, es: seq<Edit>, v: Value)
    requires v in AllApplied(c, es)
    ensures v in c || v == Undefined || exists i :: 0 <= i < |es| && v in Brought(es[i])
  {
    if |es| > 0 {
      var n := |es| - 1;
      var before := AllApplied(c, es[..n]);
      if v !in before && v != Undefined {
        assert v in Brought(es[n]);
      } else if v != Undefined {
        NothingReappears(c, es[..n], v);
        if i :| 0 <= i < n && v in Brought(es[..n][i]) { assert v in Brought(es[i]); }
      }
    }
  }
}
