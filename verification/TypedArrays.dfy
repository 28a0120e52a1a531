/** Integer typed arrays: views that share the bytes of a buffer (src/api/typed_array.rs, src/api/eval_expr.rs). */
module TypedArrays {
  import opened Values
  import opened Arithmetic

  datatype Kind = Uint8 | Uint8Clamped | Int8 | Int16 | Uint16 | Int32 | Uint32 {
    function Size(): nat {
      match this
      case Uint8 => 1
      case Uint8Clamped => 1
      case Int8 => 1
      case Int16 => 2
      case Uint16 => 2
      case Int32 => 4
      case Uint32 => 4
    }

    predicate Signed() {
      Int8? || Int16? || Int32?
    }
  }

  // ---- numbers as bytes ----

  function Width(size: nat): (w: nat)
    ensures w > 0
  {
    if size == 0 then 1 else 256 * Width(size - 1)
  }

  /** Little-endian bytes. */
  function Bytes(n: nat, size: nat): (b: seq<byte>)
    ensures |b| == size
  {
    if size == 0 then [] else [n % 256] + Bytes(n / 256, size - 1)
  }

  function Number(b: seq<byte>): nat {
    if |b| == 0 then 0 else b[0] + 256 * Number(b[1..])
  }

  lemma {:induction false} NumberOfBytes(n: nat, size: nat)
    requires n < Width(size)
    ensures Number(Bytes(n, size)) == n
    decreases size
  {
    if size > 0 {
      var b := Bytes(n, size);
      NumberOfBytes(n / 256, size - 1);
      assert b[1..] == Bytes(n / 256, size - 1);
    }
  }

  function Clamp(n: int): byte {
    if n <= 0 then 0 else if n >= 255 then 255 else n
  }

  /** A number as a 64-bit signed integer: a double outside that range becomes its nearer end. */
  function Saturated(n: int): (r: int)
    ensures -TWO_TO_63 <= r < TWO_TO_63
  {
    if n < -TWO_TO_63 then -TWO_TO_63 else if n >= TWO_TO_63 then TWO_TO_63 - 1 else n
  }

  const TWO_TO_63: int := 0x8000_0000_0000_0000

  /** The kinds whose writes go through a 64-bit integer; those of 32 bits take the remainder of the double itself. */
  predicate Narrow(k: Kind) {
    k.Uint8? || k.Int8? || k.Int16? || k.Uint16?
  }

  /** The bytes an element of a kind keeps of a number. */
  function Encoded(k: Kind, n: int): (b: seq<byte>)
    ensures |b| == k.Size()
  {
    if k.Uint8Clamped? then [Clamp(n)]
    else Bytes((if Narrow(k) then Saturated(n) else n) % Width(k.Size()), k.Size())
  }

  function Decoded(k: Kind, b: seq<byte>): int
    requires |b| == k.Size()
  {
    var n := Number(b);
    if k.Signed() && n >= Width(k.Size()) / 2 then n - Width(k.Size()) else n
  }

  predicate InRange(k: Kind, n: int) {
    var w := Width(k.Size());
    if k.Signed() then 0 - w / 2 <= n < w / 2 else 0 <= n < w
  }

  lemma Widths()
    ensures Width(1) == 0x100 && Width(2) == 0x1_0000 && Width(4) == 0x1_0000_0000
  {
    assert Width(2) == 256 * Width(1) && Width(3) == 256 * Width(2) && Width(4) == 256 * Width(3);
  }

  /** The numbers a wrapping kind wraps. Past 64 bits the ends of that range are stored instead, all ones above and all
      zeros below, so only the numbers with those low bits still agree. */
  predicate Wraps(k: Kind, n: int) {
    var w := Width(k.Size());
    if !Narrow(k) || -TWO_TO_63 <= n < TWO_TO_63 then true
    else if n > 0 then n % w == w - 1 else n % w == 0
  }

  /** What is read back is a number of the kind's range: for the clamped kind the nearest one, and for a wrapping kind the
      one that differs by a multiple of its width, exactly for the numbers that it wraps. */
  lemma ReadBack(k: Kind, n: int)
    ensures var r := Decoded(k, Encoded(k, n));
      && InRange(k, r)
      && (k.Uint8Clamped? ==> r == Clamp(n))
      && (!k.Uint8Clamped? ==> ((r - n) % Width(k.Size()) == 0 <==> Wraps(k, n)))
  {
    HalfWidth(k);
    if k.Uint8Clamped? {
      ReadBackClamped(n);
    } else {
      var kept := if Narrow(k) then Saturated(n) else n;
      FoldedIs(k, n);
      KeptAgrees(k, n);
      hide Width, Decoded, Encoded, Clamp, Kind.Size, Wraps, Saturated;
      var w, r := Width(k.Size()), Decoded(k, Encoded(k, n));
      Congruent(kept, w);
      SameRemainder(r, kept, n, w);
    }
  }

  /** The remainders of the two ends of the 64-bit range. */
  lemma EndsModulo(k: Kind)
    requires !k.Uint8Clamped?
    ensures (TWO_TO_63 - 1) % Width(k.Size()) == Width(k.Size()) - 1 && -TWO_TO_63 % Width(k.Size()) == 0
  {
    Widths();
  }

  lemma KeptAgrees(k: Kind, n: int)
    requires !k.Uint8Clamped?
    ensures var w := Width(k.Size()); (if Narrow(k) then Saturated(n) else n) % w == n % w <==> Wraps(k, n)
  {
    EndsModulo(k);
    hide Width, Kind.Size;
  }

  lemma SameRemainder(r: int, kept: int, n: int, w: nat)
    requires w > 0 && (r - kept) % w == 0
    ensures (r - n) % w == 0 <==> kept % w == n % w
  {
    var p, q := (r - kept) / w, n / w;
    assert r - kept == p * w && n == q * w + n % w && kept == kept / w * w + kept % w;
    var c := p + kept / w - q;
    var d := kept % w - n % w;
    assert r - n == c * w + d;
    if d >= 0 { Quotient(c, d, w); } else { assert r - n == (c - 1) * w + (d + w); Quotient(c - 1, d + w, w); }
  }

  /** Two numbers that are stored as the end of the 64-bit range: 2 to the 64 in a byte, which reads 255, and 2 to the 63
      in a signed element, which reads -1. A wrapping conversion gives 0 for both. */
  lemma SaturationSeen()
    ensures Decoded(Uint8, Encoded(Uint8, 2 * TWO_TO_63)) == 255 && 2 * TWO_TO_63 % 256 == 0
    ensures Decoded(Int16, Encoded(Int16, TWO_TO_63)) == -1 && TWO_TO_63 % 0x1_0000 == 0
  {
    Widths();
    FoldedIs(Uint8, 2 * TWO_TO_63);
    FoldedIs(Int16, TWO_TO_63);
  }

  function TwoTo(e: nat): (r: nat)
    ensures r > 0
  {
    if e == 0 then 1 else 2 * TwoTo(e - 1)
  }

  /** The integers that are finite doubles. */
  ghost predicate IsDouble(n: int) {
    exists m: int, e: nat :: IsScaled(n, m, e)
  }

  predicate IsScaled(n: int, m: int, e: nat) {
    -0x20_0000_0000_0000 <= m <= 0x20_0000_0000_0000 && n == m * TwoTo(e)
  }

  lemma {:induction false} TwoToSplit(e: nat, d: nat)
    requires d <= e
    ensures TwoTo(e) == TwoTo(e - d) * TwoTo(d)
    decreases d
  {
    if d > 0 {
      TwoToSplit(e, d - 1);
      var a, b := TwoTo(e - d), TwoTo(d - 1);
      assert TwoTo(e - (d - 1)) == 2 * a && TwoTo(d) == 2 * b;
      hide TwoTo;
      assert 2 * a * b == a * (2 * b);
    }
  }

  lemma {:induction false} TwoToGrows(e: nat, d: nat)
    ensures TwoTo(e) <= TwoTo(e + d)
    decreases d
  {
    if d > 0 { TwoToGrows(e, d - 1); }
  }

  lemma TwoToValues()
    ensures TwoTo(9) == 512 && TwoTo(10) == 1024 && TwoTo(11) == 2048
  {
    assert TwoTo(1) == 2 && TwoTo(2) == 4 && TwoTo(3) == 8;
    assert TwoTo(4) == 16 && TwoTo(5) == 32 && TwoTo(6) == 64;
    assert TwoTo(7) == 128 && TwoTo(8) == 256 && TwoTo(9) == 512;
  }

  /** A double of 64 bits or more is a multiple of 2048. */
  lemma LargeDoubles(n: int)
    requires IsDouble(n) && (n >= TWO_TO_63 || n < -TWO_TO_63)
    ensures n % 2048 == 0
  {
    var m: int, e: nat :| IsScaled(n, m, e);
    var k := TwoTo(e);
    assert n == m * k && -0x20_0000_0000_0000 <= m <= 0x20_0000_0000_0000;
    hide IsScaled, TwoTo;
    TwoToValues();
    if e >= 11 {
      TwoToSplit(e, 11);
      MultipleOf(n, m, TwoTo(e - 11), 2048);
    } else if e == 10 {
      assert n == TWO_TO_63;
    } else {
      TwoToGrows(e, 9 - e);
      Product(m, k);
    }
  }

  lemma MultipleOf(n: int, m: int, j: int, w: nat)
    requires n == m * (j * w) && w > 0
    ensures n % w == 0
  {
    Regrouped(m, j, w);
    var q := m * j;
    assert n == q * w;
    Quotient(q, 0, w);
  }

  lemma Regrouped(a: int, b: int, c: int)
    ensures a * (b * c) == a * b * c
  {
  }

  lemma Product(m: int, k: nat)
    requires -0x20_0000_0000_0000 <= m <= 0x20_0000_0000_0000 && k <= 512
    ensures -TWO_TO_63 <= m * k < TWO_TO_63
  {
    MulMono(m, 0x20_0000_0000_0000, k);
    MulMono(-0x20_0000_0000_0000, m, k);
  }

  /** A multiple of 2048 is one of 256, and does not end in sixteen ones. */
  lemma LowBits(n: int)
    requires n % 2048 == 0
    ensures n % 256 == 0 && n % 0x1_0000 != 0xFFFF
  {
    var q, p := n / 2048, n / 0x1_0000;
    assert n == 2048 * q && n == 0x1_0000 * p + n % 0x1_0000;
    Quotient(8 * q, 0, 256);
    assert n % 0x1_0000 == 2048 * (q - 32 * p);
  }

  lemma NarrowWidth(k: Kind)
    requires Narrow(k)
    ensures k.Size() == 1 || k.Size() == 2
    ensures Width(k.Size()) == if k.Size() == 1 then 256 else 0x1_0000
  {
    Widths();
  }

  /** For a double, the condition in full: past 64 bits nothing positive wraps, every negative number wraps in one byte,
      and in two bytes those that are multiples of the width. */
  lemma DoublesThatWrap(k: Kind, n: int)
    requires IsDouble(n)
    ensures Wraps(k, n) <==> !Narrow(k) || -TWO_TO_63 <= n < TWO_TO_63 || (n < 0 && (k.Size() == 1 || n % 0x1_0000 == 0))
  {
    if Narrow(k) && !(-TWO_TO_63 <= n < TWO_TO_63) {
      hide IsDouble, Width, Kind.Size;
      LargeDoubles(n);
      LowBits(n);
      NarrowWidth(k);
    }
  }

  lemma ReadBackClamped(n: int)
    ensures Decoded(Uint8Clamped, Encoded(Uint8Clamped, n)) == Clamp(n) && Width(Uint8Clamped.Size()) == 256
  {
    Widths();
    hide Width;
    var c := Clamp(n);
    assert [c][1..] == [] && Number([]) == 0;
    assert Number([c]) == c;
  }

  lemma FoldedIs(k: Kind, n: int)
    requires !k.Uint8Clamped?
    ensures var w := Width(k.Size()); var m := (if Narrow(k) then Saturated(n) else n) % w;
      0 <= m < w && Decoded(k, Encoded(k, n)) == if k.Signed() && m >= w / 2 then m - w else m
  {
    NumberOfBytes((if Narrow(k) then Saturated(n) else n) % Width(k.Size()), k.Size());
  }

  lemma HalfWidth(k: Kind)
    ensures var w := Width(k.Size()); w == w / 2 + w / 2
  {
    Widths();
  }

  lemma Congruent(n: int, w: nat)
    requires w > 0
    ensures (n % w - n) % w == 0 && (n % w - w - n) % w == 0
  {
    var q := n / w;
    assert n == q * w + n % w;
    Quotient(-q, 0, w);
    Quotient(-q - 1, 0, w);
    assert (-q) * w == n % w - n && (-q - 1) * w == n % w - w - n;
  }

  lemma InRangeWraps(k: Kind, n: int)
    requires InRange(k, n)
    ensures Wraps(k, n)
  {
    Widths();
  }

  /** A number of the range comes back as itself. */
  lemma ReadBackExact(k: Kind, n: int)
    ensures Decoded(k, Encoded(k, n)) == n <==> InRange(k, n)
  {
    ReadBack(k, n);
    if InRange(k, n) && !k.Uint8Clamped? {
      InRangeWraps(k, n);
      hide Width, Decoded, Encoded, Kind.Size;
      HalfWidth(k);
      var w, r := Width(k.Size()), Decoded(k, Encoded(k, n));
      assert 0 - w < r - n < w;
      NoOtherMultiple(r - n, w);
    } else if k.Uint8Clamped? {
      Widths();
    }
  }

  // ---- views ----

  class ArrayBuffer {
    var bytes: seq<byte>

    /** `create_arraybuffer` */
    constructor (n: nat)
      ensures |bytes| == n && forall i :: 0 <= i < n ==> bytes[i] == 0
    {
      bytes := seq(n, _ => 0);
    }
  }

  /** A typed array: it never changes, the buffer does. */
  datatype View = View(buffer: ArrayBuffer, offset: nat, length: nat, kind: Kind) {
    function Start(i: nat): nat {
      offset + i * kind.Size()
    }
  }

  /** The bytes with a stretch replaced. */
  function Patched(bytes: seq<byte>, start: nat, b: seq<byte>): (r: seq<byte>)
    requires start + |b| <= |bytes|
    ensures |r| == |bytes|
  {
    bytes[..start] + b + bytes[start + |b|..]
  }

  /** Element `i` of a view, over given bytes; none past the view or past the buffer. */
  function Element(bytes: seq<byte>, v: View, i: nat): Option<int> {
    var start := v.Start(i);
    if i < v.length && start + v.kind.Size() <= |bytes| then Some(Decoded(v.kind, bytes[start..start + v.kind.Size()])) else None
  }

  /** `typed_array_get_element` */
  method GetElement(v: View, i: nat) returns (r: Option<int>)
    ensures r == Element(v.buffer.bytes, v, i)
  {
    if i >= v.length { return None; }
    var size := v.kind.Size();
    var start := v.offset + i * size;
    if start + size > |v.buffer.bytes| { return None; }
    var b := v.buffer.bytes[start..start + size];
    r := Some(Decoded(v.kind, b));
  }

  /** `typed_array_set_element`, for an integer. */
  method SetElement(v: View, i: nat, n: int) returns (ok: bool)
    modifies v.buffer
    ensures ok == Element(old(v.buffer.bytes), v, i).Some?
    ensures v.buffer.bytes == if ok then Patched(old(v.buffer.bytes), v.Start(i), Encoded(v.kind, n)) else old(v.buffer.bytes)
  {
    if i >= v.length { return false; }
    var size := v.kind.Size();
    var start := v.offset + i * size;
    if start + size > |v.buffer.bytes| { return false; }
    v.buffer.bytes := Patched(v.buffer.bytes, start, Encoded(v.kind, n));
    ok := true;
  }

  /** The view lies in its buffer. */
  predicate Fits(bytes: seq<byte>, v: View) {
    v.Start(v.length) <= |bytes|
  }

  lemma EveryElement(bytes: seq<byte>, v: View, i: nat)
    requires Fits(bytes, v)
    ensures Element(bytes, v, i).Some? <==> i < v.length
  {
    if i < v.length { Steps(v, i + 1, v.length); }
  }

  lemma Steps(v: View, i: nat, j: nat)
    requires i <= j
    ensures v.Start(i) <= v.Start(j) && v.Start(i + 1) == v.Start(i) + v.kind.Size()
  {
  }

  // ---- the bytes of an element ----

  function TwoBytes(a: int, b: int): int {
    a + 0x100 * b
  }

  function FourBytes(a: int, b: int, c: int, d: int): int {
    a + 0x100 * b + 0x1_0000 * c + 0x100_0000 * d
  }

  /** Bytes stand for a number with the least significant first. */
  lemma NumberIs(b: seq<byte>)
    ensures |b| == 1 ==> Number(b) == b[0]
    ensures |b| == 2 ==> Number(b) == TwoBytes(b[0], b[1])
    ensures |b| == 4 ==> Number(b) == FourBytes(b[0], b[1], b[2], b[3])
  {
    assert Number([]) == 0;
    if |b| == 1 {
      assert b[1..] == [];
    } else if |b| == 2 {
      assert b[1..][1..] == [];
      assert Number(b[1..]) == b[1];
    } else if |b| == 4 {
      assert b[1..][1..] == b[2..] && b[2..][1..] == b[3..] && b[3..][1..] == [];
      assert Number(b[3..]) == b[3];
      assert Number(b[2..]) == b[2] + 0x100 * Number(b[3..]);
      assert Number(b[1..]) == b[1] + 0x100 * Number(b[2..]);
    }
  }

  /** A number read as signed from `w` values. */
  function AsSigned(n: int, w: int): int {
    if n < w / 2 then n else n - w
  }

  /** Element `i` by its bytes, the least significant first, and the place where each kind has them. */
  lemma ElementIs(bytes: seq<byte>, v: View, i: nat)
    requires i < v.length && v.Start(i) + v.kind.Size() <= |bytes|
    ensures v.kind.Uint8? || v.kind.Uint8Clamped? ==> v.offset + i < |bytes| && Element(bytes, v, i) == Some(bytes[v.offset + i] as int)
    ensures v.kind.Int8? ==> v.offset + i < |bytes| && Element(bytes, v, i) == Some(AsSigned(bytes[v.offset + i], 0x100))
    ensures v.kind.Uint16? || v.kind.Int16? ==>
      v.offset + 2 * i + 2 <= |bytes| && var n := TwoBytes(bytes[v.offset + 2 * i], bytes[v.offset + 2 * i + 1]);
        Element(bytes, v, i) == Some(if v.kind.Int16? then AsSigned(n, 0x1_0000) else n)
    ensures v.kind.Uint32? || v.kind.Int32? ==>
      v.offset + 4 * i + 4 <= |bytes| && var s := v.offset + 4 * i;
        var n := FourBytes(bytes[s], bytes[s + 1], bytes[s + 2], bytes[s + 3]);
        Element(bytes, v, i) == Some(if v.kind.Int32? then AsSigned(n, 0x1_0000_0000) else n)
  {
    var s, z := v.Start(i), v.kind.Size();
    var b := bytes[s..s + z];
    PlaceIs(v, i);
    assert forall k :: 0 <= k < z ==> b[k] == bytes[s + k];
    NumberIs(b);
    Widths();
    hide Number, Width;
  }

  lemma PlaceIs(v: View, i: nat)
    ensures v.Start(i) == v.offset + (
      if v.kind.Int16? || v.kind.Uint16? then 2 * i else if v.kind.Int32? || v.kind.Uint32? then 4 * i else i)
  {
  }

  /** The numbers of each kind. */
  lemma RangesAre(n: int)
    ensures InRange(Uint8, n) <==> 0 <= n <= 255
    ensures InRange(Uint8Clamped, n) <==> 0 <= n <= 255
    ensures InRange(Int8, n) <==> -128 <= n <= 127
    ensures InRange(Uint16, n) <==> 0 <= n <= 0xFFFF
    ensures InRange(Int16, n) <==> -0x8000 <= n <= 0x7FFF
    ensures InRange(Uint32, n) <==> 0 <= n <= 0xFFFF_FFFF
    ensures InRange(Int32, n) <==> -0x8000_0000 <= n <= 0x7FFF_FFFF
  {
    Widths();
    hide Width;
  }

  function Distance(a: int, b: int): nat {
    if a < b then b - a else a - b
  }

  /** Clamping takes the nearest byte. */
  lemma ClampNearest(n: int, m: byte)
    ensures Distance(Clamp(n), n) <= Distance(m, n)
  {
  }

  /** A write reads back through every view that has an element of that kind at that place. */
  lemma WriteSeen(bytes: seq<byte>, v: View, i: nat, n: int, w: View, j: nat)
    requires Element(bytes, v, i).Some? && Element(bytes, w, j).Some?
    requires w.kind == v.kind && w.Start(j) == v.Start(i)
    ensures Element(Patched(bytes, v.Start(i), Encoded(v.kind, n)), w, j) == Some(Decoded(v.kind, Encoded(v.kind, n)))
  {
    var after := Patched(bytes, v.Start(i), Encoded(v.kind, n));
    assert after[v.Start(i)..v.Start(i) + v.kind.Size()] == Encoded(v.kind, n);
  }

  lemma PatchedApart(bytes: seq<byte>, start: nat, b: seq<byte>, p: nat, q: nat)
    requires start + |b| <= |bytes| && p <= q <= |bytes| && (q <= start || start + |b| <= p)
    ensures Patched(bytes, start, b)[p..q] == bytes[p..q]
  {
    var after := Patched(bytes, start, b);
    forall k | p <= k < q ensures after[k] == bytes[k] {
      if k >= start + |b| { assert after[k] == bytes[start + |b|..][k - start - |b|]; }
    }
  }

  /** A write changes its own bytes only: an element of any kind that shares none of them is as it was. */
  lemma WriteApart(bytes: seq<byte>, v: View, i: nat, n: int, w: View, j: nat)
    requires Element(bytes, v, i).Some?
    requires w.Start(j) + w.kind.Size() <= v.Start(i) || v.Start(i) + v.kind.Size() <= w.Start(j)
    ensures Element(Patched(bytes, v.Start(i), Encoded(v.kind, n)), w, j) == Element(bytes, w, j)
  {
    var start, size := w.Start(j), w.kind.Size();
    if start + size <= |bytes| {
      PatchedApart(bytes, v.Start(i), Encoded(v.kind, n), start, start + size);
    }
  }

  /** Within one view, a write changes one element. */
  lemma WriteOne(bytes: seq<byte>, v: View, i: nat, n: int, j: nat)
    requires Element(bytes, v, i).Some? && j != i
    ensures Element(Patched(bytes, v.Start(i), Encoded(v.kind, n)), v, j) == Element(bytes, v, j)
  {
    if i < j { Steps(v, i + 1, j); } else { Steps(v, j + 1, i); }
    Steps(v, i, i);
    Steps(v, j, j);
    WriteApart(bytes, v, i, n, v, j);
  }

  // ---- subarray ----

  /** An index counted from the end when negative, kept between 0 and the length. */
  function Relative(len: nat, at: int): (r: nat)
    ensures r <= len
  {
    if at < 0 then (if len + at < 0 then 0 else len + at)
    else if at > len then len else at
  }

  /** Reference: the stretch `[begin, end)` of a view, empty when the ends cross. */
  function SubView(v: View, begin: int, end: int): View {
    var b := Relative(v.length, begin);
    var e := Relative(v.length, end);
    View(v.buffer, v.Start(b), if e < b then 0 else e - b, v.kind)
  }

  /** `subarray`; a missing begin is 0, a missing end the length. */
  method Subarray(v: View, args: seq<i32>) returns (r: View)
    ensures r == SubView(v, if |args| >= 1 then args[0] else 0, if |args| >= 2 then args[1] else v.length)
  {
    var len: int := v.length;
    var begin: int := if |args| >= 1 then args[0] else 0;
    var end: int := if |args| >= 2 then args[1] else len;
    if begin < 0 { begin := if len + begin > 0 then len + begin else 0; }
    if end < 0 { end := if len + end > 0 then len + end else 0; }
    if begin > len { begin := len; }
    if end > len { end := len; }
    if end < begin { end := begin; }
    r := View(v.buffer, v.offset + begin * v.kind.Size(), end - begin, v.kind);
  }

  /** A subarray stays inside its parent. */
  lemma SubInside(v: View, begin: int, end: int)
    ensures var s := SubView(v, begin, end);
      v.Start(0) <= s.Start(0) && s.Start(s.length) <= v.Start(v.length) && s.buffer == v.buffer && s.kind == v.kind
  {
    var s := SubView(v, begin, end);
    var b := Relative(v.length, begin);
    Steps(v, 0, b);
    Shifted(v, s, b, s.length);
    Steps(v, b + s.length, v.length);
  }

  lemma Shifted(v: View, s: View, b: nat, i: nat)
    requires s.kind == v.kind && s.offset == v.Start(b)
    ensures s.Start(i) == v.Start(b + i)
  {
  }

  /** Element `i` of a subarray is element `begin + i` of its parent: they are read and written at the same place. */
  lemma SubElement(bytes: seq<byte>, v: View, begin: int, end: int, i: nat)
    requires Fits(bytes, v)
    ensures var s := SubView(v, begin, end); var b := Relative(v.length, begin);
      Fits(bytes, s) && s.Start(i) == v.Start(b + i)
      && Element(bytes, s, i) == if i < s.length then Element(bytes, v, b + i) else None
  {
    var s := SubView(v, begin, end);
    var b := Relative(v.length, begin);
    SubInside(v, begin, end);
    Shifted(v, s, b, i);
  }

  /** A nonnegative begin and end are element numbers, and an end past the length is the length. */
  lemma SubFrom(bytes: seq<byte>, v: View, begin: nat, end: nat, i: nat)
    requires Fits(bytes, v) && begin <= end && begin <= v.length
    ensures var s := SubView(v, begin, end);
      && s.length == (if end <= v.length then end else v.length) - begin
      && (i < s.length ==> Element(bytes, s, i) == Element(bytes, v, begin + i) && Element(bytes, s, i).Some?)
  {
    SubElement(bytes, v, begin, end, i);
    EveryElement(bytes, SubView(v, begin, end), i);
  }

  /** `subarray(-k)`, with an end past the length or none, is the last `k` elements. */
  lemma SubTail(bytes: seq<byte>, v: View, k: int, end: int, i: nat)
    requires Fits(bytes, v) && 0 < k <= v.length <= end
    ensures var s := SubView(v, -k, end);
      && s.length == k
      && (i < k ==> Element(bytes, s, i) == Element(bytes, v, v.length - k + i) && Element(bytes, s, i).Some?)
  {
    SubElement(bytes, v, -k, end, i);
    EveryElement(bytes, SubView(v, -k, end), i);
  }

  /** `subarray(b, -k)` leaves out the last `k`. */
  lemma SubDrop(bytes: seq<byte>, v: View, begin: nat, k: int, i: nat)
    requires Fits(bytes, v) && k > 0 && begin + k <= v.length
    ensures var s := SubView(v, begin, -k);
      && s.length == v.length - k - begin
      && (i < s.length ==> Element(bytes, s, i) == Element(bytes, v, begin + i) && Element(bytes, s, i).Some?)
  {
    SubElement(bytes, v, begin, -k, i);
    EveryElement(bytes, SubView(v, begin, -k), i);
  }

  /** An end counted past the front is the front, one past the length is the length, and crossed ends leave nothing. */
  lemma SubPast(v: View, begin: int, end: int)
    ensures begin + v.length < 0 ==> SubView(v, begin, end) == SubView(v, 0, end)
    ensures end + v.length < 0 ==> SubView(v, begin, end) == SubView(v, begin, 0)
    ensures begin > v.length ==> SubView(v, begin, end) == SubView(v, v.length, end)
    ensures end > v.length ==> SubView(v, begin, end) == SubView(v, begin, v.length)
    ensures 0 <= end <= begin ==> SubView(v, begin, end).length == 0
    ensures begin < 0 && end <= begin ==> SubView(v, begin, end).length == 0
  {
  }

  /** A subarray of a subarray is a subarray of the first view. */
  lemma SubOfSub(v: View, b1: int, e1: int, b2: int, e2: int)
    ensures var s := SubView(v, b1, e1); var b := Relative(v.length, b1) + Relative(s.length, b2);
      SubView(s, b2, e2) == SubView(v, b, b + SubView(s, b2, e2).length)
  {
    var s := SubView(v, b1, e1);
    Shifted(v, s, Relative(v.length, b1), Relative(s.length, b2));
  }

  /** A write through a subarray is seen in the parent, at the matching element and nowhere else. */
  lemma SubWrite(bytes: seq<byte>, v: View, begin: int, end: int, i: nat, n: int, j: nat)
    requires Fits(bytes, v) && i < SubView(v, begin, end).length && j < v.length
    ensures var s := SubView(v, begin, end);
      && Element(bytes, s, i).Some?
      && Element(Patched(bytes, s.Start(i), Encoded(s.kind, n)), v, j)
         == if j == Relative(v.length, begin) + i then Some(Decoded(v.kind, Encoded(v.kind, n))) else Element(bytes, v, j)
  {
    var s := SubView(v, begin, end);
    var k := Relative(v.length, begin) + i;
    SubElement(bytes, v, begin, end, i);
    EveryElement(bytes, v, k);
    EveryElement(bytes, v, j);
    if j == k {
      WriteSeen(bytes, v, k, n, v, k);
    } else {
      WriteOne(bytes, v, k, n, j);
    }
  }
}
