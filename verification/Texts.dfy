/** Positions in texts: what stands where, and what is skipped. */
module Texts {
  predicate IsSpace(c: char) {
    c == ' ' || c == '\n' || c == '\r' || c == '\t'
  }

  /** The Unicode white space characters, which trimming removes. */
  predicate IsWhite(c: char) {
    var n := c as int;
    9 <= n <= 13 || n == 0x20 || n == 0x85 || n == 0xA0 || n == 0x1680 || 0x2000 <= n <= 0x200A
    || n == 0x2028 || n == 0x2029 || n == 0x202F || n == 0x205F || n == 0x3000
  }

  predicate IsDigit(c: char) {
    '0' <= c <= '9'
  }

  /** The character `c` stands at `p`. */
  predicate Looking(t: string, p: nat, c: char) {
    p < |t| && t[p] == c
  }

  predicate LookingAt(t: string, p: nat, word: string) {
    p + |word| <= |t| && t[p..p + |word|] == word
  }

  function SkipSpace(t: string, p: nat): (q: nat)
    requires p <= |t|
    ensures p <= q <= |t|
    ensures q < |t| ==> !IsSpace(t[q])
    decreases |t| - p
  {
    if p < |t| && IsSpace(t[p]) then SkipSpace(t, p + 1) else p
  }

  function SkipDigits(t: string, p: nat): (q: nat)
    requires p <= |t|
    ensures p <= q <= |t|
    decreases |t| - p
  {
    if p < |t| && IsDigit(t[p]) then SkipDigits(t, p + 1) else p
  }

  /** Text made of two parts is one part after the other. */
  lemma Split(t: string, p: nat, a: string, b: string)
    ensures LookingAt(t, p, a + b) <==> LookingAt(t, p, a) && LookingAt(t, p + |a|, b)
  {
    if LookingAt(t, p, a + b) {
      assert t[p..p + |a|] == (a + b)[..|a|];
      assert t[p + |a|..p + |a| + |b|] == (a + b)[|a|..];
    }
    if LookingAt(t, p, a) && LookingAt(t, p + |a|, b) {
      assert t[p..p + |a + b|] == t[p..p + |a|] + t[p + |a|..p + |a| + |b|];
    }
  }

  lemma CharAt(t: string, p: nat, w: string, i: nat)
    requires LookingAt(t, p, w) && i < |w|
    ensures p + i < |t| && t[p + i] == w[i]
  {
    assert t[p..p + |w|][i] == w[i];
  }

  // ---- trimming ----

  function TrimStart(s: string): string {
    if s != "" && IsWhite(s[0]) then TrimStart(s[1..]) else s
  }

  function TrimEnd(s: string): string {
    if s != "" && IsWhite(s[|s| - 1]) then TrimEnd(s[..|s| - 1]) else s
  }

  function Trim(s: string): string {
    TrimEnd(TrimStart(s))
  }

  predicate White(s: string) {
    forall i :: 0 <= i < |s| ==> IsWhite(s[i])
  }

  /** No white space at either end. */
  predicate Solid(s: string) {
    s != "" ==> !IsWhite(s[0]) && !IsWhite(s[|s| - 1])
  }

  lemma {:induction false} TrimStartDrops(w: string, s: string)
    requires White(w) && (s != "" ==> !IsWhite(s[0]))
    ensures TrimStart(w + s) == s
    decreases |w|
  {
    if w == "" {
      assert w + s == s;
    } else {
      assert (w + s)[1..] == w[1..] + s;
      TrimStartDrops(w[1..], s);
    }
  }

  lemma {:induction false} TrimEndDrops(s: string, w: string)
    requires White(w) && (s != "" ==> !IsWhite(s[|s| - 1]))
    ensures TrimEnd(s + w) == s
    decreases |w|
  {
    if w == "" {
      assert s + w == s;
    } else {
      assert (s + w)[..|s + w| - 1] == s + w[..|w| - 1];
      TrimEndDrops(s, w[..|w| - 1]);
    }
  }

  lemma {:induction false} TrimStartWhite(w: string)
    requires White(w)
    ensures TrimStart(w) == ""
    decreases |w|
  {
    if w != "" { TrimStartWhite(w[1..]); }
  }

  /** Trimming takes the white space around a text and nothing else. */
  lemma TrimDrops(w0: string, s: string, w1: string)
    requires White(w0) && White(w1) && Solid(s)
    ensures Trim(w0 + (s + w1)) == s
  {
    if s == "" {
      assert w0 + (s + w1) == w0 + w1;
      TrimStartWhite(w0 + w1);
    } else {
      TrimStartDrops(w0, s + w1);
      TrimEndDrops(s, w1);
    }
  }

  lemma {:induction false} TrimStartParts(s: string) returns (w: string)
    ensures White(w) && s == w + TrimStart(s) && (TrimStart(s) != "" ==> !IsWhite(TrimStart(s)[0]))
    decreases |s|
  {
    w := "";
    if s != "" && IsWhite(s[0]) {
      var v := TrimStartParts(s[1..]);
      w := [s[0]] + v;
      assert s == [s[0]] + s[1..];
    }
  }

  lemma {:induction false} TrimEndParts(s: string) returns (w: string)
    ensures White(w) && s == TrimEnd(s) + w && (TrimEnd(s) != "" ==> !IsWhite(TrimEnd(s)[|TrimEnd(s)| - 1]))
    decreases |s|
  {
    w := "";
    if s != "" && IsWhite(s[|s| - 1]) {
      var v := TrimEndParts(s[..|s| - 1]);
      w := v + [s[|s| - 1]];
      assert s == s[..|s| - 1] + [s[|s| - 1]];
    }
  }

  /** A text is its trimmed form with white space around it. */
  lemma TrimParts(s: string) returns (w0: string, w1: string)
    ensures White(w0) && White(w1) && s == w0 + (Trim(s) + w1) && Solid(Trim(s))
  {
    w0 := TrimStartParts(s);
    var r := TrimStart(s);
    w1 := TrimEndParts(r);
    assert r == Trim(s) + w1;
    if Trim(s) != "" { assert r[0] == Trim(s)[0]; }
  }
}
