/** What stripping does to a text that is given piece by piece, and what lines and columns count (src/evals.rs, src/context.rs). */
module CommentPieces {
  import opened Values
  import opened Comments

  /** A byte of code, a whole string, or a whole comment. */
  datatype Piece =
    | Plain(b: byte)
    | Literal(delim: byte, body: seq<byte>)
    | LineComment(body: seq<byte>)
    | BlockComment(body: seq<byte>)

  /** The body of a string has its delimiter and backslashes only after a backslash. */
  predicate InLiteral(s: seq<byte>, delim: byte) {
    || s == []
    || (s[0] == BACKSLASH && |s| > 1 && InLiteral(s[2..], delim))
    || (s[0] != BACKSLASH && s[0] != delim && InLiteral(s[1..], delim))
  }

  predicate NoEnd(s: seq<byte>) {
    forall k :: 0 <= k < |s| - 1 ==> !(s[k] == STAR && s[k + 1] == SLASH)
  }

  predicate Whole(p: Piece) {
    match p
    case Plain(b) => b != SINGLE && b != DOUBLE
    case Literal(d, body) => (d == SINGLE || d == DOUBLE) && InLiteral(body, d)
    case LineComment(body) => NEWLINE !in body
    case BlockComment(body) => NoEnd(body)
  }

  function Source(p: Piece): (s: seq<byte>)
    ensures |s| > 0
  {
    match p
    case Plain(b) => [b]
    case Literal(d, body) => [d] + body + [d]
    case LineComment(body) => [SLASH, SLASH] + body + [NEWLINE]
    case BlockComment(body) => [SLASH, STAR] + body + [STAR, SLASH]
  }

  /** Spaces, but for the newlines. */
  function Spaces(s: seq<byte>): (r: seq<byte>)
    ensures |r| == |s| && forall i :: 0 <= i < |s| ==> r[i] == if s[i] == NEWLINE then NEWLINE else SPACE
  {
    if s == [] then [] else Spaces(s[..|s| - 1]) + [if s[|s| - 1] == NEWLINE then NEWLINE else SPACE]
  }

  function Kept(p: Piece): (r: seq<byte>)
    ensures |r| == |Source(p)|
  {
    if p.LineComment? || p.BlockComment? then Spaces(Source(p)) else Source(p)
  }

  function Sources(ps: seq<Piece>): seq<byte> {
    if ps == [] then [] else Sources(ps[..|ps| - 1]) + Source(ps[|ps| - 1])
  }

  function AllKept(ps: seq<Piece>): seq<byte> {
    if ps == [] then [] else AllKept(ps[..|ps| - 1]) + Kept(ps[|ps| - 1])
  }

  /** A slash of code is not followed by what would make it open a comment. */
  predicate NoOpening(p: Piece, t: seq<byte>, next: nat) {
    p == Plain(SLASH) ==> At(t, next) != Some(SLASH) && At(t, next) != Some(STAR)
  }

  /** How the pieces leave a text: at its end, or inside a last string or comment that nothing ends. */
  datatype Tail = NoTail | OpenLiteral(delim: byte, body: seq<byte>, escaping: bool) | LastLine(body: seq<byte>) | OpenBlock(body: seq<byte>)

  predicate WholeTail(x: Tail) {
    match x
    case NoTail => true
    case OpenLiteral(d, body, _) => (d == SINGLE || d == DOUBLE) && InLiteral(body, d)
    case LastLine(body) => NEWLINE !in body
    case OpenBlock(body) => NoEnd(body)
  }

  function TailSource(x: Tail): seq<byte> {
    match x
    case NoTail => []
    case OpenLiteral(d, body, escaping) => [d] + body + if escaping then [BACKSLASH] else []
    case LastLine(body) => [SLASH, SLASH] + body
    case OpenBlock(body) => [SLASH, STAR] + body
  }

  // ---- runs ----

  /** `s` stands at `p`. */
  predicate Stands(t: seq<byte>, p: nat, s: seq<byte>) {
    p + |s| <= |t| && forall i :: 0 <= i < |s| ==> t[p + i] == s[i]
  }

  lemma StandsSplit(t: seq<byte>, p: nat, a: seq<byte>, b: seq<byte>)
    ensures Stands(t, p, a + b) <==> Stands(t, p, a) && Stands(t, p + |a|, b)
  {
    var s := a + b;
    if Stands(t, p, s) {
      assert forall i :: 0 <= i < |a| ==> s[i] == a[i];
      assert forall i :: 0 <= i < |b| ==> s[|a| + i] == b[i] && t[p + (|a| + i)] == s[|a| + i];
    }
    if Stands(t, p, a) && Stands(t, p + |a|, b) {
      forall i | 0 <= i < |s| ensures t[p + i] == s[i] {
        if i >= |a| { assert t[p + |a| + (i - |a|)] == b[i - |a|]; }
      }
    }
  }

  lemma Standing(t: seq<byte>, p: nat, s: seq<byte>)
    requires Stands(t, p, s)
    ensures p + |s| <= |t|
    ensures |s| > 0 ==> t[p] == s[0]
    ensures |s| > 1 ==> t[p + 1] == s[1]
  {
  }

  lemma {:induction false} LiteralRun(t: seq<byte>, p: nat, s: seq<byte>, d: byte)
    requires InLiteral(s, d) && Stands(t, p, s) && StateAt(t, p) == Quoted(d)
    ensures p + |s| <= |t| && StateAt(t, p + |s|) == Quoted(d) && Stripped(t, p + |s|) == Stripped(t, p) + s
    decreases |s|
  {
    hide *;
    Standing(t, p, s);
    if s != [] {
      var n := LiteralUnit(s, d);
      Standing(t, p, s);
      QuotedByte(t, p, d);
      CutAt(s, n);
      StandsSplit(t, p, s[..n], s[n..]);
      LiteralRun(t, p + n, s[n..], d);
      Appended(Stripped(t, p), s, n);
    }
  }

  /** A string goes on with one byte, or with a backslash and the byte after it. */
  lemma LiteralUnit(s: seq<byte>, d: byte) returns (n: nat)
    requires s != [] && InLiteral(s, d)
    ensures 1 <= n <= 2 && n <= |s| && InLiteral(s[n..], d)
    ensures n == 2 <==> s[0] == BACKSLASH
    ensures n == 1 ==> s[0] != d
  {
    n := if s[0] == BACKSLASH then 2 else 1;
  }

  lemma CutAt(s: seq<byte>, n: nat)
    requires n <= |s|
    ensures s == s[..n] + s[n..]
  {
  }

  lemma Appended(out: seq<byte>, s: seq<byte>, n: nat)
    requires 1 <= n <= 2 && n <= |s|
    ensures (if n == 1 then out + [s[0]] else out + [s[0]] + [s[1]]) + s[n..] == out + s
  {
  }

  lemma {:induction false} LineRun(t: seq<byte>, p: nat, s: seq<byte>)
    requires NEWLINE !in s && Stands(t, p, s) && StateAt(t, p) == Line
    ensures StateAt(t, p + |s|) == Line && Stripped(t, p + |s|) == Stripped(t, p) + Spaces(s)
    decreases |s|
  {
    hide StateAt, Stripped;
    if s != [] {
      var front, n := s[..|s| - 1], |s| - 1;
      LineRun(t, p, front);
      assert t[p + n] == s[n];
      InnerByte(t, p + n);
    }
  }

  lemma {:induction false} BlockRun(t: seq<byte>, p: nat, s: seq<byte>, o: nat)
    requires NoEnd(s) && Stands(t, p, s) && StateAt(t, p) == Block(o)
    requires s != [] && s[|s| - 1] == STAR ==> At(t, p + |s|) != Some(SLASH)
    ensures StateAt(t, p + |s|) == Block(o) && Stripped(t, p + |s|) == Stripped(t, p) + Spaces(s)
    decreases |s|
  {
    hide StateAt, Stripped;
    if s != [] {
      var front, n := s[..|s| - 1], |s| - 1;
      assert t[p + n] == s[n];
      if n > 0 { assert !(s[n - 1] == STAR && s[n] == SLASH); }
      BlockRun(t, p, front, o);
      InnerByte(t, p + n);
    }
  }

  // ---- pieces ----

  lemma PlainStrips(t: seq<byte>, p: nat, b: byte)
    requires Whole(Plain(b)) && Stands(t, p, [b]) && StateAt(t, p) == Code && NoOpening(Plain(b), t, p + 1)
    ensures StateAt(t, p + 1) == Code && Stripped(t, p + 1) == Stripped(t, p) + [b]
  {
    assert t[p] == [b][0];
    CodeByte(t, p);
  }

  lemma OpenLiteralStrips(t: seq<byte>, p: nat, d: byte, body: seq<byte>)
    requires (d == SINGLE || d == DOUBLE) && InLiteral(body, d) && Stands(t, p, [d] + body) && StateAt(t, p) == Code
    ensures var q := p + 1 + |body|;
      q <= |t| && StateAt(t, q) == Quoted(d) && Stripped(t, q) == Stripped(t, p) + ([d] + body)
  {
    hide StateAt, Stripped, Stands, Spaces, InLiteral, NoEnd;
    StandsSplit(t, p, [d], body);
    Standing(t, p, [d]);
    CodeByte(t, p);
    LiteralRun(t, p + 1, body, d);
    Regroup(Stripped(t, p), [d], body);
  }

  lemma Regroup(a: seq<byte>, b: seq<byte>, c: seq<byte>)
    ensures a + b + c == a + (b + c)
  {
  }

  lemma LiteralStrips(t: seq<byte>, p: nat, d: byte, body: seq<byte>)
    requires (d == SINGLE || d == DOUBLE) && InLiteral(body, d) && Stands(t, p, [d] + body + [d]) && StateAt(t, p) == Code
    ensures var q := p + |body| + 2; StateAt(t, q) == Code && Stripped(t, q) == Stripped(t, p) + ([d] + body + [d])
  {
    hide StateAt, Stripped, InLiteral;
    var s := [d] + body + [d];
    assert forall i :: 0 <= i < |[d] + body| ==> ([d] + body)[i] == s[i];
    OpenLiteralStrips(t, p, d, body);
    assert t[p + 1 + |body|] == s[1 + |body|] == d;
    QuotedByte(t, p + 1 + |body|, d);
  }

  lemma LastLineStrips(t: seq<byte>, p: nat, body: seq<byte>)
    requires NEWLINE !in body && Stands(t, p, [SLASH, SLASH] + body) && StateAt(t, p) == Code
    ensures var q := p + 2 + |body|;
      q <= |t| && StateAt(t, q) == Line && Stripped(t, q) == Stripped(t, p) + Spaces([SLASH, SLASH] + body)
  {
    hide StateAt, Stripped, Stands, Spaces, InLiteral, NoEnd;
    StandsSplit(t, p, [SLASH, SLASH], body);
    Standing(t, p, [SLASH, SLASH]);
    Standing(t, p + 2, body);
    Delimiters(t, p);
    LineRun(t, p + 2, body);
    OpeningSpaces(SLASH, body);
    Regroup(Stripped(t, p), [SPACE, SPACE], Spaces(body));
  }

  lemma OpeningSpaces(b: byte, body: seq<byte>)
    requires b != NEWLINE
    ensures Spaces([SLASH, b] + body) == [SPACE, SPACE] + Spaces(body)
  {
  }

  lemma LineStrips(t: seq<byte>, p: nat, body: seq<byte>)
    requires NEWLINE !in body && Stands(t, p, [SLASH, SLASH] + body + [NEWLINE]) && StateAt(t, p) == Code
    ensures var q := p + 3 + |body|;
      StateAt(t, q) == Code && Stripped(t, q) == Stripped(t, p) + Spaces([SLASH, SLASH] + body + [NEWLINE])
  {
    hide StateAt, Stripped;
    var a := [SLASH, SLASH] + body;
    var s := a + [NEWLINE];
    assert forall i :: 0 <= i < |a| ==> a[i] == s[i];
    LastLineStrips(t, p, body);
    assert t[p + |a|] == s[|a|] == NEWLINE;
    InnerByte(t, p + |a|);
    assert Spaces(s) == Spaces(a) + [NEWLINE];
  }

  lemma OpenBlockStrips(t: seq<byte>, p: nat, body: seq<byte>)
    requires NoEnd(body) && Stands(t, p, [SLASH, STAR] + body) && StateAt(t, p) == Code
    requires body != [] && body[|body| - 1] == STAR ==> At(t, p + 2 + |body|) != Some(SLASH)
    ensures var q := p + 2 + |body|;
      q <= |t| && StateAt(t, q) == Block(p) && Stripped(t, q) == Stripped(t, p) + Spaces([SLASH, STAR] + body)
  {
    hide StateAt, Stripped, Stands, Spaces, InLiteral, NoEnd;
    StandsSplit(t, p, [SLASH, STAR], body);
    Standing(t, p, [SLASH, STAR]);
    Standing(t, p + 2, body);
    Delimiters(t, p);
    BlockRun(t, p + 2, body, p);
    OpeningSpaces(STAR, body);
    Regroup(Stripped(t, p), [SPACE, SPACE], Spaces(body));
  }

  lemma BlockStrips(t: seq<byte>, p: nat, body: seq<byte>)
    requires NoEnd(body) && Stands(t, p, [SLASH, STAR] + body + [STAR, SLASH]) && StateAt(t, p) == Code
    ensures var q := p + 4 + |body|;
      StateAt(t, q) == Code && Stripped(t, q) == Stripped(t, p) + Spaces([SLASH, STAR] + body + [STAR, SLASH])
  {
    hide StateAt, Stripped, NoEnd;
    var a := [SLASH, STAR] + body;
    var s := a + [STAR, SLASH];
    assert forall i :: 0 <= i < |a| ==> a[i] == s[i];
    assert t[p + |a|] == s[|a|] == STAR && t[p + |a| + 1] == s[|a| + 1] == SLASH;
    OpenBlockStrips(t, p, body);
    Delimiters(t, p + |a|);
    assert Spaces(s) == Spaces(a) + [SPACE, SPACE];
  }

  lemma PieceStrips(t: seq<byte>, p: nat, x: Piece)
    requires Whole(x) && Stands(t, p, Source(x)) && StateAt(t, p) == Code && NoOpening(x, t, p + |Source(x)|)
    ensures StateAt(t, p + |Source(x)|) == Code && Stripped(t, p + |Source(x)|) == Stripped(t, p) + Kept(x)
  {
    hide StateAt, Stripped, Stands, InLiteral, NoEnd, NoOpening;
    match x
    case Plain(b) => PlainStrips(t, p, b);
    case Literal(d, body) => LiteralStrips(t, p, d, body);
    case LineComment(body) => LineStrips(t, p, body);
    case BlockComment(body) => BlockStrips(t, p, body);
  }

  /** Every piece is whole, and its slashes open nothing. */
  predicate WholePieces(ps: seq<Piece>, t: seq<byte>) {
    ps != [] ==>
      && WholePieces(ps[..|ps| - 1], t)
      && Whole(ps[|ps| - 1]) && NoOpening(ps[|ps| - 1], t, |Sources(ps)|)
  }

  lemma {:induction false} PiecesStrip(t: seq<byte>, ps: seq<Piece>)
    requires WholePieces(ps, t) && Stands(t, 0, Sources(ps))
    ensures |Sources(ps)| <= |t| && StateAt(t, |Sources(ps)|) == Code && Stripped(t, |Sources(ps)|) == AllKept(ps)
    decreases |ps|
  {
    hide *;
    if ps == [] {
      AtStart(t);
      NoPieces();
    } else {
      var front, x := ps[..|ps| - 1], ps[|ps| - 1];
      LastPiece(ps, t);
      StandsSplit(t, 0, Sources(front), Source(x));
      Standing(t, |Sources(front)|, Source(x));
      PiecesStrip(t, front);
      PieceStrips(t, |Sources(front)|, x);
    }
  }

  lemma NoPieces()
    ensures Sources([]) == [] && AllKept([]) == []
  {
  }

  lemma LastPiece(ps: seq<Piece>, t: seq<byte>)
    requires ps != [] && WholePieces(ps, t)
    ensures var front, x := ps[..|ps| - 1], ps[|ps| - 1];
      && WholePieces(front, t) && Whole(x) && NoOpening(x, t, |Sources(front)| + |Source(x)|)
      && Sources(ps) == Sources(front) + Source(x) && AllKept(ps) == AllKept(front) + Kept(x)
  {
    hide Whole, NoOpening, Source, Kept;
  }

  /** A text in pieces: code and strings stay, comments become spaces but for their newlines, a last string may be left
      open, a last line comment needs no newline, and a last block comment that is left open is an error where it starts. */
  lemma StripOfPieces(ps: seq<Piece>, x: Tail)
    requires WholePieces(ps, Sources(ps) + TailSource(x)) && WholeTail(x)
    ensures Strip(Sources(ps) + TailSource(x)) ==
      match x
      case NoTail => Clean(AllKept(ps))
      case OpenLiteral(_, _, _) => Clean(AllKept(ps) + TailSource(x))
      case LastLine(_) => Clean(AllKept(ps) + Spaces(TailSource(x)))
      case OpenBlock(_) => Open(|Sources(ps)|)
  {
    hide *;
    var t := Sources(ps) + TailSource(x);
    AllStands(t);
    StandsSplit(t, 0, Sources(ps), TailSource(x));
    PiecesStrip(t, ps);
    TailStrips(t, |Sources(ps)|, x);
  }

  lemma AllStands(t: seq<byte>)
    ensures Stands(t, 0, t)
  {
  }

  lemma OpenLiteralEnds(t: seq<byte>, p: nat, d: byte, body: seq<byte>, escaping: bool)
    requires (d == SINGLE || d == DOUBLE) && InLiteral(body, d) && p <= |t| && StateAt(t, p) == Code
    requires var s := TailSource(OpenLiteral(d, body, escaping)); Stands(t, p, s) && p + |s| == |t|
    ensures StateAt(t, |t|) == (if escaping then Escape(d) else Quoted(d))
    ensures Stripped(t, |t|) == Stripped(t, p) + TailSource(OpenLiteral(d, body, escaping))
  {
    hide StateAt, Stripped, InLiteral, Stands;
    if escaping {
      StandsSplit(t, p, [d] + body, [BACKSLASH]);
      OpenLiteralStrips(t, p, d, body);
      Standing(t, p + 1 + |body|, [BACKSLASH]);
      QuotedByte(t, p + 1 + |body|, d);
      Regroup(Stripped(t, p), [d] + body, [BACKSLASH]);
    } else {
      assert [d] + body + [] == [d] + body;
      OpenLiteralStrips(t, p, d, body);
    }
  }

  lemma TailStrips(t: seq<byte>, p: nat, x: Tail)
    requires WholeTail(x) && p + |TailSource(x)| == |t| && Stands(t, p, TailSource(x)) && StateAt(t, p) == Code
    ensures Strip(t) ==
      match x
      case NoTail => Clean(Stripped(t, p))
      case OpenLiteral(_, _, _) => Clean(Stripped(t, p) + TailSource(x))
      case LastLine(_) => Clean(Stripped(t, p) + Spaces(TailSource(x)))
      case OpenBlock(_) => Open(p)
  {
    hide StateAt, Stripped, InLiteral, NoEnd, Strip, Stands, Spaces;
    WholeText(t);
    match x
    case NoTail =>
    case OpenLiteral(d, body, escaping) => OpenLiteralEnds(t, p, d, body, escaping);
    case LastLine(body) => LastLineStrips(t, p, body);
    case OpenBlock(body) => OpenBlockStrips(t, p, body);
  }

  // ---- lines and columns ----

  /** The line is one more than the newlines before; the newline that ends the text does not count. */
  lemma {:induction false} LineIsCount(t: seq<byte>, n: nat)
    requires n <= |t|
    ensures Walk(t, n).0 == 1 + multiset(t[..if n == |t| > 0 then n - 1 else n])[NEWLINE]
  {
    Newlines(t, if n == |t| > 0 then n - 1 else n);
  }

  lemma {:induction false} Newlines(t: seq<byte>, n: nat)
    requires n < |t| || n == |t| == 0
    ensures Walk(t, n).0 == 1 + multiset(t[..n])[NEWLINE]
    decreases n
  {
    if n > 0 {
      Newlines(t, n - 1);
      assert t[..n] == t[..n - 1] + [t[n - 1]];
    }
  }

  /** The column counts from the start of the line. */
  lemma {:induction false} ColumnIsDistance(t: seq<byte>, n: nat, start: nat)
    requires start <= n <= |t| && (start == 0 || t[start - 1] == NEWLINE) && start < |t|
    requires forall k :: start <= k < n && k + 1 < |t| ==> t[k] != NEWLINE
    ensures Walk(t, n).1 == n - start + 1
    decreases n
  {
    if n > start { ColumnIsDistance(t, n - 1, start); }
  }
}
