/** Comment stripping (src/evals.rs) and line and column lookup (src/context.rs). */
module Comments {
  import opened Values
  import Utf8

  const NEWLINE: byte := 10
  const SPACE: byte := 32
  const DOUBLE: byte := 34
  const SINGLE: byte := 39
  const STAR: byte := 42
  const SLASH: byte := 47
  const BACKSLASH: byte := 92

  // ---- the reference: one byte at a time ----

  /** Where a byte stands. `Opening*` and `Closing` are the second bytes of a comment's delimiters. */
  datatype State =
    | Code
    | Quoted(delim: byte)
    | Escape(delim: byte)
    | OpeningLine
    | Line
    | OpeningBlock(start: nat)
    | Block(start: nat)
    | Closing(start: nat)

  function At(t: seq<byte>, i: nat): Option<byte> {
    if i < |t| then Some(t[i]) else None
  }

  function Next(s: State, t: seq<byte>, i: nat): State
    requires i < |t|
  {
    var b, next := t[i], At(t, i + 1);
    match s
    case Code =>
      if b == SINGLE || b == DOUBLE then Quoted(b)
      else if b == SLASH && next == Some(SLASH) then OpeningLine
      else if b == SLASH && next == Some(STAR) then OpeningBlock(i)
      else Code
    case Quoted(d) => if b == BACKSLASH then Escape(d) else if b == d then Code else s
    case Escape(d) => Quoted(d)
    case OpeningLine => Line
    case Line => if b == NEWLINE then Code else Line
    case OpeningBlock(o) => Block(o)
    case Block(o) => if b == STAR && next == Some(SLASH) then Closing(o) else s
    case Closing(_) => Code
  }

  function StateAt(t: seq<byte>, i: nat): State
    requires i <= |t|
  {
    if i == 0 then Code else Next(StateAt(t, i - 1), t, i - 1)
  }

  /** The byte is part of a comment. The newline that ends a line comment is not. */
  predicate Masked(t: seq<byte>, i: nat)
    requires i < |t|
  {
    match StateAt(t, i)
    case Code => t[i] == SLASH && (At(t, i + 1) == Some(SLASH) || At(t, i + 1) == Some(STAR))
    case Quoted(_) => false
    case Escape(_) => false
    case Line => t[i] != NEWLINE
    case _ => true
  }

  function OutByte(t: seq<byte>, i: nat): byte
    requires i < |t|
  {
    if Masked(t, i) && t[i] != NEWLINE then SPACE else t[i]
  }

  /** The first `n` bytes, comments blanked. */
  function Stripped(t: seq<byte>, n: nat): (r: seq<byte>)
    requires n <= |t|
    ensures |r| == n && forall i :: 0 <= i < n ==> r[i] == OutByte(t, i)
  {
    if n == 0 then [] else Stripped(t, n - 1) + [OutByte(t, n - 1)]
  }

  datatype Result = Clean(text: seq<byte>) | Open(offset: nat)

  /** A text that ends inside a block comment is an error at the start of that comment. */
  function Strip(t: seq<byte>): Result {
    match StateAt(t, |t|)
    case OpeningBlock(o) => Open(o)
    case Block(o) => Open(o)
    case Closing(o) => Open(o)
    case _ => Clean(Stripped(t, |t|))
  }

  predicate InBlock(s: State) {
    s.OpeningBlock? || s.Block? || s.Closing?
  }

  // ---- the source's loop ----

  /** `strip_comments_checked`: jumps over escapes, delimiters and whole comments. */
  method StripCommentsChecked(t: seq<byte>) returns (r: Result)
    ensures r == Strip(t)
  {
    hide StateAt, Stripped, Next, OutByte, Masked, Strip;
    if SLASH !in t {
      NoSlash(t, |t|);
      assert t[..|t|] == t;
      WholeText(t);
      return Clean(t);
    }
    AtStart(t);
    var out, i, inString, delim := [], 0, false, 0;
    while i < |t|
      invariant i <= |t| && out == Stripped(t, i) && !InBlock(StateAt(t, i))
      invariant i < |t| ==> StateAt(t, i) == if inString then Quoted(delim) else Code
    {
      var b := t[i];
      if inString {
        out, i, inString := StringByte(t, i, out, delim);
        continue;
      }
      if b == SINGLE || b == DOUBLE {
        inString, delim := true, b;
      } else if b == SLASH && i + 1 < |t| {
        if t[i + 1] == SLASH {
          out, i := StripLine(t, i, out);
          continue;
        }
        if t[i + 1] == STAR {
          var start := i;
          var closed;
          out, i, closed := StripBlock(t, i, out);
          if !closed {
            WholeText(t);
            return Open(start);
          }
          continue;
        }
      }
      CodeByte(t, i);
      out := out + [b];
      i := i + 1;
    }
    WholeText(t);
    r := Clean(out);
  }

  lemma WholeText(t: seq<byte>)
    ensures !InBlock(StateAt(t, |t|)) ==> Strip(t) == Clean(Stripped(t, |t|))
    ensures forall o :: StateAt(t, |t|) == Block(o) ==> Strip(t) == Open(o)
  {
  }

  /** One byte of a string, or an escape in it, with the byte after the backslash. */
  method StringByte(t: seq<byte>, at: nat, before: seq<byte>, delim: byte) returns (out: seq<byte>, i: nat, inString: bool)
    requires at < |t| && StateAt(t, at) == Quoted(delim) && before == Stripped(t, at)
    ensures at < i <= |t| && out == Stripped(t, i) && !InBlock(StateAt(t, i))
    ensures i < |t| ==> StateAt(t, i) == if inString then Quoted(delim) else Code
  {
    QuotedByte(t, at, delim);
    hide StateAt, Stripped;
    var b := t[at];
    out, i, inString := before + [b], at, true;
    if b == BACKSLASH {
      if i + 1 < |t| {
        out := out + [t[i + 1]];
        i := i + 2;
        return;
      }
    } else if b == delim {
      inString := false;
    }
    i := i + 1;
  }

  /** The delimiters of comments, two bytes at a time. */
  lemma Delimiters(t: seq<byte>, i: nat)
    requires i + 1 < |t|
    ensures StateAt(t, i) == Code && t[i] == t[i + 1] == SLASH ==>
      StateAt(t, i + 2) == Line && Stripped(t, i + 2) == Stripped(t, i) + [SPACE, SPACE]
    ensures StateAt(t, i) == Code && t[i] == SLASH && t[i + 1] == STAR ==>
      StateAt(t, i + 2) == Block(i) && Stripped(t, i + 2) == Stripped(t, i) + [SPACE, SPACE]
    ensures StateAt(t, i).Block? && t[i] == STAR && t[i + 1] == SLASH ==>
      StateAt(t, i + 2) == Code && Stripped(t, i + 2) == Stripped(t, i) + [SPACE, SPACE]
  {
    assert StateAt(t, i + 1) == Next(StateAt(t, i), t, i) && StateAt(t, i + 2) == Next(StateAt(t, i + 1), t, i + 1);
    assert Stripped(t, i + 2) == Stripped(t, i) + [OutByte(t, i)] + [OutByte(t, i + 1)];
  }

  /** One byte of a string, or an escape in it. */
  lemma QuotedByte(t: seq<byte>, i: nat, d: byte)
    requires i < |t| && StateAt(t, i) == Quoted(d)
    ensures Stripped(t, i + 1) == Stripped(t, i) + [t[i]]
    ensures StateAt(t, i + 1) == if t[i] == BACKSLASH then Escape(d) else if t[i] == d then Code else Quoted(d)
    ensures t[i] == BACKSLASH && i + 1 < |t| ==>
      StateAt(t, i + 2) == Quoted(d) && Stripped(t, i + 2) == Stripped(t, i) + [t[i]] + [t[i + 1]]
  {
  }

  /** One byte of code that opens no comment. */
  lemma CodeByte(t: seq<byte>, i: nat)
    requires i < |t| && StateAt(t, i) == Code
    requires !(t[i] == SLASH && (At(t, i + 1) == Some(SLASH) || At(t, i + 1) == Some(STAR)))
    ensures Stripped(t, i + 1) == Stripped(t, i) + [t[i]]
    ensures StateAt(t, i + 1) == if t[i] == SINGLE || t[i] == DOUBLE then Quoted(t[i]) else Code
  {
  }

  /** One byte inside a comment. */
  lemma InnerByte(t: seq<byte>, i: nat)
    requires i < |t|
    ensures StateAt(t, i) == Line ==>
      StateAt(t, i + 1) == (if t[i] == NEWLINE then Code else Line)
      && Stripped(t, i + 1) == Stripped(t, i) + [if t[i] == NEWLINE then NEWLINE else SPACE]
    ensures StateAt(t, i).Block? && !(t[i] == STAR && At(t, i + 1) == Some(SLASH)) ==>
      StateAt(t, i + 1) == StateAt(t, i) && Stripped(t, i + 1) == Stripped(t, i) + [if t[i] == NEWLINE then NEWLINE else SPACE]
  {
  }

  lemma AtStart(t: seq<byte>)
    ensures StateAt(t, 0) == Code && Stripped(t, 0) == []
  {
  }

  /** A line comment, with the newline that ends it. */
  method StripLine(t: seq<byte>, start: nat, before: seq<byte>) returns (out: seq<byte>, i: nat)
    requires start + 1 < |t| && t[start] == t[start + 1] == SLASH && StateAt(t, start) == Code && before == Stripped(t, start)
    ensures start < i <= |t| && out == Stripped(t, i)
    ensures StateAt(t, i) == Code || (i == |t| && StateAt(t, i) == Line)
  {
    hide StateAt, Stripped;
    Delimiters(t, start);
    out := before + [SPACE, SPACE];
    i := start + 2;
    while i < |t| && t[i] != NEWLINE
      invariant start + 2 <= i <= |t| && StateAt(t, i) == Line && out == Stripped(t, i)
    {
      InnerByte(t, i);
      out := out + [SPACE];
      i := i + 1;
    }
    if i < |t| && t[i] == NEWLINE {
      InnerByte(t, i);
      out := out + [NEWLINE];
      i := i + 1;
    }
  }

  /** A block comment; not closed when the text ends first. */
  method StripBlock(t: seq<byte>, start: nat, before: seq<byte>) returns (out: seq<byte>, i: nat, closed: bool)
    requires start + 1 < |t| && t[start] == SLASH && t[start + 1] == STAR && StateAt(t, start) == Code
    requires before == Stripped(t, start)
    ensures closed ==> start < i <= |t| && out == Stripped(t, i) && StateAt(t, i) == Code
    ensures !closed ==> StateAt(t, |t|) == Block(start)
  {
    hide StateAt, Stripped;
    Delimiters(t, start);
    out := before + [SPACE, SPACE];
    i := start + 2;
    closed := false;
    while i + 1 < |t|
      invariant start + 2 <= i <= |t| && StateAt(t, i) == Block(start) && out == Stripped(t, i)
    {
      if t[i] == STAR && t[i + 1] == SLASH {
        Delimiters(t, i);
        out := out + [SPACE, SPACE];
        i := i + 2;
        closed := true;
        return;
      }
      InnerByte(t, i);
      out := out + [if t[i] == NEWLINE then NEWLINE else SPACE];
      i := i + 1;
    }
    if i < |t| { InnerByte(t, i); }
  }

  lemma {:induction false} NoSlash(t: seq<byte>, n: nat)
    requires n <= |t| && SLASH !in t
    ensures Stripped(t, n) == t[..n] && (StateAt(t, n).Code? || StateAt(t, n).Quoted? || StateAt(t, n).Escape?)
    decreases n
  {
    if n > 0 { NoSlash(t, n - 1); }
  }

  // ---- what stripping keeps ----

  ghost predicate SameLines(t: seq<byte>, s: seq<byte>) {
    |t| == |s| && forall i :: 0 <= i < |t| ==> (t[i] == NEWLINE <==> s[i] == NEWLINE)
  }

  /** Length and newlines stay; a byte outside comments stays; a comment's other bytes become spaces. */
  lemma StrippedKeeps(t: seq<byte>, i: nat)
    requires Strip(t).Clean? && i < |t|
    ensures SameLines(t, Strip(t).text)
    ensures Strip(t).text[i] == if Masked(t, i) && t[i] != NEWLINE then SPACE else t[i]
  {
    var s := Strip(t).text;
    forall k | 0 <= k < |t| ensures t[k] == NEWLINE <==> s[k] == NEWLINE { assert s[k] == OutByte(t, k); }
  }

  /** The automaton on the stripped text: the same strings, and no comments. */
  function Outside(s: State): State {
    if s.Quoted? || s.Escape? then s else Code
  }

  lemma {:induction false} StrippedStates(t: seq<byte>, i: nat)
    requires i <= |t|
    ensures StateAt(Stripped(t, |t|), i) == Outside(StateAt(t, i))
    decreases i
  {
    if i > 0 {
      StrippedStates(t, i - 1);
      var s := Stripped(t, |t|);
      assert s[i - 1] == OutByte(t, i - 1);
      if i < |t| { assert s[i] == OutByte(t, i); }
      SecondByte(t, i - 1);
    }
  }

  /** In the states that follow a delimiter's first byte, the second byte is there. */
  lemma SecondByte(t: seq<byte>, i: nat)
    requires i <= |t|
    ensures StateAt(t, i).OpeningLine? || StateAt(t, i).Closing? ==> At(t, i) == Some(SLASH)
    ensures StateAt(t, i).OpeningBlock? ==> At(t, i) == Some(STAR)
  {
  }

  /** Stripping a second time changes nothing. */
  lemma StripTwice(t: seq<byte>)
    requires Strip(t).Clean?
    ensures Strip(Strip(t).text) == Strip(t)
  {
    var s := Strip(t).text;
    StrippedStates(t, |t|);
    forall i | 0 <= i < |s| ensures Stripped(s, |s|)[i] == s[i] {
      StrippedStates(t, i);
      assert s[i] == OutByte(t, i);
      if i + 1 < |s| { assert s[i + 1] == OutByte(t, i + 1); }
    }
    assert Stripped(s, |s|) == s;
  }

  lemma {:induction false} OpeningBehind(t: seq<byte>, n: nat)
    requires n <= |t|
    ensures var s := StateAt(t, n);
      InBlock(s) ==>
        s.start + 1 < |t| && s.start < n && t[s.start] == SLASH && t[s.start + 1] == STAR && StateAt(t, s.start) == Code
        && forall k :: s.start < k <= n ==> InBlock(StateAt(t, k)) && StateAt(t, k).start == s.start
    decreases n
  {
    if n > 0 { OpeningBehind(t, n - 1); }
  }

  /** A block comment opens at `o`, and nothing after it closes it. */
  predicate LeftOpen(t: seq<byte>, o: nat) {
    && o + 1 < |t| && t[o] == SLASH && t[o + 1] == STAR && StateAt(t, o) == Code
    && forall k :: o + 2 <= k < |t| - 1 ==> !(t[k] == STAR && t[k + 1] == SLASH)
  }

  lemma {:induction false} StaysOpen(t: seq<byte>, o: nat, n: nat)
    requires LeftOpen(t, o) && o + 2 <= n <= |t|
    ensures StateAt(t, n) == Block(o)
    decreases n
  {
    if n == o + 2 {
      assert StateAt(t, o + 1) == OpeningBlock(o);
    } else {
      StaysOpen(t, o, n - 1);
    }
  }

  /** Stripping fails exactly when a block comment is left open, with the offset where that comment starts. */
  lemma OpenExactly(t: seq<byte>, o: nat)
    ensures Strip(t) == Open(o) <==> LeftOpen(t, o)
  {
    if LeftOpen(t, o) {
      StaysOpen(t, o, |t|);
    }
    if Strip(t) == Open(o) {
      OpeningBehind(t, |t|);
      forall k | o + 2 <= k < |t| - 1 ensures !(t[k] == STAR && t[k + 1] == SLASH) {
        assert InBlock(StateAt(t, k)) && InBlock(StateAt(t, k + 1)) && InBlock(StateAt(t, k + 2));
        assert !StateAt(t, k).OpeningBlock? by { assert StateAt(t, o + 1) == OpeningBlock(o); OpensOnce(t, o, k); }
      }
    }
  }

  lemma OpensOnce(t: seq<byte>, o: nat, k: nat)
    requires o + 2 <= k < |t| && InBlock(StateAt(t, k - 1))
    ensures !StateAt(t, k).OpeningBlock?
  {
  }

  /** A character of several bytes is blanked as a whole or not at all, so valid UTF-8 stays valid. */
  lemma NonAsciiTogether(t: seq<byte>, i: nat)
    requires i + 1 < |t| && t[i] >= 0x80 && t[i + 1] >= 0x80
    ensures Masked(t, i) == Masked(t, i + 1)
  {
    SecondByte(t, i);
  }

  lemma {:induction false} MaskedTogether(t: seq<byte>, p: nat, n: nat)
    requires 0 < n && p + n <= |t| && forall i :: p <= i < p + n ==> t[i] >= 0x80
    ensures forall i :: p <= i < p + n ==> Masked(t, i) == Masked(t, p)
  {
    if n > 1 {
      MaskedTogether(t, p, n - 1);
      NonAsciiTogether(t, p + n - 2);
    }
  }

  /** A character whose bytes stand at `p`, or as many spaces when it is part of a comment. */
  function BlankedChar(t: seq<byte>, p: nat, c: char): string
    requires p < |t|
  {
    if Masked(t, p) && c != '\n' then seq(|Utf8.Encoded(c)|, _ => ' ') else [c]
  }

  /** The characters of a text whose bytes stand at `p`, those of comments replaced by one space for each byte. */
  function Blanked(t: seq<byte>, p: nat, s: string): string
    requires p + |Utf8.Bytes(s)| <= |t|
    decreases |s|
  {
    if s == "" then "" else BlankedChar(t, p, s[0]) + Blanked(t, p + |Utf8.Encoded(s[0])|, s[1..])
  }

  lemma {:induction false} BytesOfSpaces(n: nat)
    ensures Utf8.Bytes(seq(n, _ => ' ')) == seq(n, _ => SPACE)
  {
    if n > 0 {
      var s := seq(n, _ => ' ');
      assert s[1..] == seq(n - 1, _ => ' ');
      BytesOfSpaces(n - 1);
      assert seq(n, _ => SPACE) == [SPACE] + seq(n - 1, _ => SPACE);
    }
  }

  lemma BlankedStands(t: seq<byte>, p: nat, c: char)
    requires p + |Utf8.Encoded(c)| <= |t| && t[p..p + |Utf8.Encoded(c)|] == Utf8.Encoded(c)
    ensures Stripped(t, |t|)[p..p + |Utf8.Encoded(c)|] == Utf8.Bytes(BlankedChar(t, p, c))
    ensures |Utf8.Bytes(BlankedChar(t, p, c))| == |Utf8.Encoded(c)|
  {
    BytesOfChar(t, p, c);
    hide *;
    var n, target := |Utf8.Encoded(c)|, Utf8.Bytes(BlankedChar(t, p, c));
    forall i | 0 <= i < n ensures OutByte(t, p + i) == target[i] {
      OutOfChar(t, p, c, i);
    }
    OutBytes(t, p, p + n, target);
  }

  lemma BytesOfChar(t: seq<byte>, p: nat, c: char)
    requires p < |t|
    ensures var b := Utf8.Encoded(c);
      var r := Utf8.Bytes(BlankedChar(t, p, c));
      |r| == |b| && r == if Masked(t, p) && c != '\n' then seq(|b|, _ => SPACE) else b
  {
    hide Masked, Utf8.Encoded;
    if Masked(t, p) && c != '\n' {
      BytesOfSpaces(|Utf8.Encoded(c)|);
    } else {
      assert [c][1..] == "" && Utf8.Bytes("") == [];
      assert Utf8.Bytes([c]) == Utf8.Encoded(c) + [];
    }
  }

  lemma OutOfChar(t: seq<byte>, p: nat, c: char, i: nat)
    requires p + |Utf8.Encoded(c)| <= |t| && t[p..p + |Utf8.Encoded(c)|] == Utf8.Encoded(c) && i < |Utf8.Encoded(c)|
    ensures i < |Utf8.Bytes(BlankedChar(t, p, c))| && OutByte(t, p + i) == Utf8.Bytes(BlankedChar(t, p, c))[i]
  {
    var b := Utf8.Encoded(c);
    BytesOfChar(t, p, c);
    hide Masked, Utf8.Encoded, BlankedChar, Utf8.Bytes;
    assert t[p + i] == t[p..p + |b|][i];
    if !Utf8.AsciiChar(c) { NonAsciiMasked(t, p, b); }
  }

  lemma OutBytes(t: seq<byte>, p: nat, q: nat, b: seq<byte>)
    requires p <= q <= |t| && |b| == q - p && forall i :: 0 <= i < |b| ==> OutByte(t, p + i) == b[i]
    ensures Stripped(t, |t|)[p..q] == b
  {
    hide OutByte, Stripped;
    var r := Stripped(t, |t|);
    forall i | 0 <= i < |b| ensures r[p..q][i] == b[i] {
      assert r[p + i] == OutByte(t, p + i);
    }
  }

  lemma NonAsciiMasked(t: seq<byte>, p: nat, b: seq<byte>)
    requires 0 < |b| && p + |b| <= |t| && t[p..p + |b|] == b && forall i :: 0 <= i < |b| ==> b[i] >= 0x80
    ensures forall i :: p <= i < p + |b| ==> Masked(t, i) == Masked(t, p)
  {
    forall i | p <= i < p + |b| ensures t[i] >= 0x80 {
      assert t[i] == b[i - p];
    }
    MaskedTogether(t, p, |b|);
  }

  /** From `p` on there are exactly these bytes. */
  predicate Rest(t: seq<byte>, p: nat, b: seq<byte>) {
    p <= |t| && t[p..] == b
  }

  lemma RestSplit(t: seq<byte>, p: nat, a: seq<byte>, b: seq<byte>)
    requires Rest(t, p, a + b)
    ensures |t| == p + |a| + |b| && t[p..p + |a|] == a && Rest(t, p + |a|, b)
  {
    assert t[p..p + |a|] == t[p..][..|a|] && t[p + |a|..] == t[p..][|a|..];
  }

  lemma RestJoin(t: seq<byte>, p: nat, a: seq<byte>, b: seq<byte>)
    requires p + |a| <= |t| && t[p..p + |a|] == a && Rest(t, p + |a|, b)
    ensures Rest(t, p, a + b)
  {
    assert t[p..] == t[p..p + |a|] + t[p + |a|..];
  }

  lemma {:induction false} BlankedBytes(t: seq<byte>, p: nat, s: string)
    requires Rest(t, p, Utf8.Bytes(s)) && p + |Utf8.Bytes(s)| == |t|
    ensures Rest(Stripped(t, |t|), p, Utf8.Bytes(Blanked(t, p, s)))
    decreases |s|
  {
    if s == "" {
      hide Stripped, Rest;
      NoneBlanked(t, p);
    } else {
      hide *;
      RestOfText(t, p, s);
      BlankedBytes(t, p + |Utf8.Encoded(s[0])|, s[1..]);
      BlankedStep(t, p, s);
    }
  }

  /** After the first character of a text comes the rest of it. */
  lemma RestOfText(t: seq<byte>, p: nat, s: string)
    requires s != "" && Rest(t, p, Utf8.Bytes(s))
    ensures var b := Utf8.Encoded(s[0]);
      |t| == p + |b| + |Utf8.Bytes(s[1..])| && t[p..p + |b|] == b && Rest(t, p + |b|, Utf8.Bytes(s[1..]))
  {
    hide *;
    BytesStep(s);
    RestSplit(t, p, Utf8.Encoded(s[0]), Utf8.Bytes(s[1..]));
  }

  lemma NoneBlanked(t: seq<byte>, p: nat)
    requires p == |t|
    ensures Rest(Stripped(t, |t|), p, []) && Utf8.Bytes(Blanked(t, p, "")) == []
  {
  }

  lemma BytesStep(s: string)
    requires s != ""
    ensures Utf8.Bytes(s) == Utf8.Encoded(s[0]) + Utf8.Bytes(s[1..])
  {
  }

  lemma BlankedCons(t: seq<byte>, p: nat, s: string)
    requires s != "" && p + |Utf8.Bytes(s)| <= |t|
    ensures Blanked(t, p, s) == BlankedChar(t, p, s[0]) + Blanked(t, p + |Utf8.Encoded(s[0])|, s[1..])
  {
  }

  /** One character more, blanked or not, in front of the rest. */
  lemma BlankedStep(t: seq<byte>, p: nat, s: string)
    requires s != "" && p + |Utf8.Bytes(s)| == |t|
    requires var b := Utf8.Encoded(s[0]);
      && p + |b| + |Utf8.Bytes(s[1..])| == |t| && t[p..p + |b|] == b
      && Rest(Stripped(t, |t|), p + |b|, Utf8.Bytes(Blanked(t, p + |b|, s[1..])))
    ensures Rest(Stripped(t, |t|), p, Utf8.Bytes(Blanked(t, p, s)))
  {
    hide *;
    BlankedCons(t, p, s);
    BlankedStands(t, p, s[0]);
    var c, more := BlankedChar(t, p, s[0]), Blanked(t, p + |Utf8.Encoded(s[0])|, s[1..]);
    Utf8.BytesConcat(c, more);
    RestJoin(Stripped(t, |t|), p, Utf8.Bytes(c), Utf8.Bytes(more));
  }

  /** Stripping the UTF-8 bytes of a text gives the UTF-8 bytes of a text. */
  lemma StripKeepsUtf8(s: string)
    requires Strip(Utf8.Bytes(s)).Clean?
    ensures Strip(Utf8.Bytes(s)).text == Utf8.Bytes(Blanked(Utf8.Bytes(s), 0, s))
  {
    var t := Utf8.Bytes(s);
    assert t[0..] == t && Stripped(t, |t|)[0..] == Stripped(t, |t|);
    assert Rest(t, 0, t);
    BlankedBytes(t, 0, s);
  }

  // ---- line and column ----

  /** Reference: walk over the first `n` bytes; a newline at the very end opens no further line. */
  function Walk(t: seq<byte>, n: nat): (nat, nat)
    requires n <= |t|
  {
    if n == 0 then (1, 1)
    else
      var (line, col) := Walk(t, n - 1);
      if t[n - 1] == NEWLINE && n < |t| then (line + 1, 1) else (line, col + 1)
  }

  /** The offsets where lines start, as far as the first `n` bytes tell. */
  function Starts(t: seq<byte>, n: nat): (s: seq<nat>)
    requires n <= |t|
    ensures |s| > 0 && s[|s| - 1] <= n
  {
    if n == 0 then [0] else Starts(t, n - 1) + if t[n - 1] == NEWLINE && n < |t| then [n] else []
  }

  function Clamped(t: seq<byte>, offset: nat): (end: nat)
    ensures end <= |t|
  {
    if offset < |t| then offset else |t|
  }

  lemma {:induction false} StartsSplit(t: seq<byte>, n: nat, m: nat)
    requires n <= m <= |t|
    ensures Starts(t, n) <= Starts(t, m)
    ensures forall k :: |Starts(t, n)| <= k < |Starts(t, m)| ==> Starts(t, m)[k] > n
    ensures forall k :: 0 <= k < |Starts(t, n)| ==> Starts(t, m)[k] <= n
    decreases m
  {
    if n < m {
      StartsSplit(t, n, m - 1);
    } else if n > 0 {
      StartsSplit(t, n - 1, n - 1);
    }
  }

  lemma {:induction false} WalkFromStarts(t: seq<byte>, n: nat)
    requires n <= |t|
    ensures var s := Starts(t, n); Walk(t, n) == (|s|, n - s[|s| - 1] + 1)
    decreases n
  {
    if n > 0 { WalkFromStarts(t, n - 1); }
  }

  /** The part of a context that knows the current source. */
  class Context {
    var source: seq<byte>
    var lineStarts: seq<nat>

    constructor ()
      ensures Valid() && source == []
    {
      source, lineStarts := [], [];
    }

    ghost predicate Valid()
      reads this
    {
      lineStarts == Starts(source, |source|) || (lineStarts == [] && source == [])
    }

    method SetCurrentSource(text: seq<byte>)
      modifies this
      ensures Valid() && source == text
    {
      source := text;
      lineStarts := [0];
      for i := 0 to |text|
        invariant source == text && lineStarts == Starts(text, i)
      {
        if text[i] == NEWLINE {
          if i + 1 < |text| {
            lineStarts := lineStarts + [i + 1];
          }
        }
      }
    }

    /** Binary search over the line starts; the offset of the line's start leads back to the offset asked for. */
    method ComputeLineCol(offset: nat) returns (line: nat, col: nat)
      requires Valid()
      ensures (line, col) == Walk(source, Clamped(source, offset))
      ensures line >= 1 && col >= 1
      ensures lineStarts != [] ==> line <= |lineStarts| && lineStarts[line - 1] + col - 1 == Clamped(source, offset)
    {
      var end := Clamped(source, offset);
      if lineStarts == [] { return 1, end + 1; }
      StartsSplit(source, end, |source|);
      WalkFromStarts(source, end);
      ghost var n := |Starts(source, end)|;
      var lo, hi := 0, |lineStarts|;
      while lo < hi
        invariant lo <= n <= hi <= |lineStarts|
      {
        var mid := (lo + hi) / 2;
        if lineStarts[mid] <= end {
          lo := mid + 1;
        } else {
          hi := mid;
        }
      }
      var index := lo - 1;
      line := index + 1;
      col := end - lineStarts[index] + 1;
    }
  }

  lemma {:induction false} SameWalk(t: seq<byte>, s: seq<byte>, n: nat)
    requires SameLines(t, s) && n <= |t|
    ensures Walk(t, n) == Walk(s, n)
    decreases n
  {
    if n > 0 { SameWalk(t, s, n - 1); }
  }

  /** Every offset has the same line and column in the stripped text as in the original. */
  lemma StrippedPositions(t: seq<byte>, offset: nat)
    requires Strip(t).Clean?
    ensures var s := Strip(t).text; Walk(s, Clamped(s, offset)) == Walk(t, Clamped(t, offset))
  {
    var s := Strip(t).text;
    if |t| > 0 { StrippedKeeps(t, 0); }
    SameWalk(t, s, Clamped(t, offset));
  }
}
