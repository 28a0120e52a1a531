/** Texts as bytes: UTF-8 (section 3 of RFC 3629), and the cast that takes each byte for a character. */
module Utf8 {
  import opened Values
  import opened Arithmetic

  predicate AsciiChar(c: char) {
    c as int < 0x80
  }

  predicate Ascii(s: string) {
    forall i :: 0 <= i < |s| ==> AsciiChar(s[i])
  }

  /** A byte after the first: the top bits `10`, then six bits. */
  function Tail(n: nat): (b: byte)
    ensures 0x80 <= b < 0xC0
  {
    0x80 + n % 0x40
  }

  function Encoded(c: char): (b: seq<byte>)
    ensures 1 <= |b| <= 4 && (AsciiChar(c) ==> b == [c as int]) && (|b| == 1 ==> AsciiChar(c))
    ensures !AsciiChar(c) ==> forall i :: 0 <= i < |b| ==> b[i] >= 0x80
  {
    var n := c as int;
    if n < 0x80 then [n]
    else if n < 0x800 then [0xC0 + n / 0x40, Tail(n)]
    else if n < 0x1_0000 then [0xE0 + n / 0x1000, Tail(n / 0x40), Tail(n)]
    else [0xF0 + n / 0x4_0000, Tail(n / 0x1000), Tail(n / 0x40), Tail(n)]
  }

  function Bytes(s: string): seq<byte> {
    if s == "" then [] else Encoded(s[0]) + Bytes(s[1..])
  }

  /** How many bytes the character has that starts with `b`. */
  function Length(b: byte): nat {
    if b < 0x80 then 1 else if b < 0xE0 then 2 else if b < 0xF0 then 3 else 4
  }

  /** The bits of a byte above a marker. */
  function Bits(b: byte, marker: int): int {
    b as int - marker
  }

  /** The code point of an encoded character. */
  function CodePoint(b: seq<byte>): int
    requires 1 <= |b| <= 4
  {
    if |b| == 1 then b[0]
    else if |b| == 2 then Bits(b[0], 0xC0) * 0x40 + Bits(b[1], 0x80)
    else if |b| == 3 then (Bits(b[0], 0xE0) * 0x40 + Bits(b[1], 0x80)) * 0x40 + Bits(b[2], 0x80)
    else ((Bits(b[0], 0xF0) * 0x40 + Bits(b[1], 0x80)) * 0x40 + Bits(b[2], 0x80)) * 0x40 + Bits(b[3], 0x80)
  }

  /** The first byte tells the length, and the bytes tell the character. */
  lemma DecodesBack(c: char)
    ensures |Encoded(c)| == Length(Encoded(c)[0]) && CodePoint(Encoded(c)) == c as int
  {
    var n := c as int;
    assert n == n / 0x40 * 0x40 + n % 0x40;
    assert n / 0x40 == n / 0x1000 * 0x40 + n / 0x40 % 0x40;
    assert n / 0x1000 == n / 0x4_0000 * 0x40 + n / 0x1000 % 0x40;
  }

  /** Encodings of two, three and four bytes. */
  lemma EncodedSeen()
    ensures Encoded('\U{00E9}') == [0xC3, 0xA9]
    ensures Encoded('\U{20AC}') == [0xE2, 0x82, 0xAC]
    ensures Encoded('\U{1F600}') == [0xF0, 0x9F, 0x98, 0x80]
  {
  }

  /** Different texts have different bytes. */
  lemma {:induction false} BytesInjective(s: string, t: string)
    requires Bytes(s) == Bytes(t)
    ensures s == t
    decreases |s|
  {
    if s == "" || t == "" {
    } else {
      DecodesBack(s[0]);
      DecodesBack(t[0]);
      var n := |Encoded(s[0])|;
      assert Bytes(s)[0] == Encoded(s[0])[0] && Bytes(t)[0] == Encoded(t[0])[0];
      assert Encoded(s[0]) == Bytes(s)[..n] && Encoded(t[0]) == Bytes(t)[..n];
      assert Bytes(s[1..]) == Bytes(s)[n..] && Bytes(t[1..]) == Bytes(t)[n..];
      BytesInjective(s[1..], t[1..]);
      assert s == [s[0]] + s[1..] && t == [t[0]] + t[1..];
    }
  }

  lemma {:induction false} BytesConcat(a: string, b: string)
    ensures Bytes(a + b) == Bytes(a) + Bytes(b)
    decreases |a|
  {
    if a == "" {
      assert a + b == b;
    } else {
      assert (a + b)[1..] == a[1..] + b;
      BytesConcat(a[1..], b);
    }
  }

  /** `b as char` on every byte: each byte becomes the character of that number. */
  function Latin(b: seq<byte>): (s: string)
    ensures |s| == |b| && forall i :: 0 <= i < |b| ==> s[i] == b[i] as char
  {
    seq(|b|, i requires 0 <= i < |b| => b[i] as char)
  }

  /** A text as a reader sees it that takes it byte by byte. */
  function AsRead(s: string): string {
    Latin(Bytes(s))
  }

  lemma AsReadConcat(a: string, b: string)
    ensures AsRead(a + b) == AsRead(a) + AsRead(b)
  {
    BytesConcat(a, b);
  }

  lemma AsReadCons(s: string)
    requires s != ""
    ensures AsRead(s) == Latin(Encoded(s[0])) + AsRead(s[1..])
  {
  }

  lemma AsciiCons(c: char, s: string)
    ensures Ascii([c] + s) <==> AsciiChar(c) && Ascii(s)
  {
    var t := [c] + s;
    if Ascii(t) {
      assert t[0] == c && forall i :: 0 <= i < |s| ==> s[i] == t[i + 1];
    }
  }

  lemma LatinAscii(c: char)
    requires AsciiChar(c)
    ensures Latin(Encoded(c)) == [c]
  {
  }

  lemma {:induction false} AsReadLonger(s: string)
    ensures |AsRead(s)| >= |s| && (|AsRead(s)| == |s| ==> Ascii(s)) && (Ascii(s) ==> AsRead(s) == s)
    decreases |s|
  {
    if s != "" {
      hide *;
      AsReadLonger(s[1..]);
      AsReadCons(s);
      LatinLonger(s[0]);
      AsciiCons(s[0], s[1..]);
      assert s == [s[0]] + s[1..];
    }
  }

  lemma LatinLonger(c: char)
    ensures |Latin(Encoded(c))| >= 1 && (|Latin(Encoded(c))| == 1 ==> AsciiChar(c))
    ensures AsciiChar(c) ==> Latin(Encoded(c)) == [c]
  {
    hide Latin, Encoded, AsciiChar;
    if AsciiChar(c) { LatinAscii(c); }
  }

  /** Only an ASCII text is read as it stands. */
  lemma AsReadSame(s: string)
    ensures AsRead(s) == s <==> Ascii(s)
  {
    AsReadLonger(s);
  }
}
