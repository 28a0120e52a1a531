/** Tokens of the expression language, read from a text at a position (src/compiler.rs, src/helpers.rs). */
module Lexer {
  import opened Values
  import opened Texts

  predicate IsIdentStart(c: char) {
    'a' <= c <= 'z' || 'A' <= c <= 'Z' || c == '_' || c == '$'
  }

  predicate IsIdentPart(c: char) {
    IsIdentStart(c) || IsDigit(c)
  }

  predicate IsIdentifier(s: string) {
    s != "" && IsIdentStart(s[0]) && forall i :: 0 < i < |s| ==> IsIdentPart(s[i])
  }

  function SkipIdent(t: string, p: nat): (q: nat)
    requires p <= |t|
    ensures p <= q <= |t|
    decreases |t| - p
  {
    if p < |t| && IsIdentPart(t[p]) then SkipIdent(t, p + 1) else p
  }

  /** The end of the identifier that starts at `p`, or `p` when none does. */
  function IdentEnd(t: string, p: nat): (q: nat)
    requires p <= |t|
    ensures p <= q <= |t|
  {
    if p < |t| && IsIdentStart(t[p]) then SkipIdent(t, p + 1) else p
  }

  /** The end of the number literal that starts at `p`. */
  function NumberEnd(t: string, p: nat): (q: nat)
    requires p <= |t|
    ensures p <= q <= |t|
  {
    var m :=
      if Looking(t, p, '.') then SkipDigits(t, p + 1)
      else
        var d := SkipDigits(t, p);
        if Looking(t, d, '.') then SkipDigits(t, d + 1) else d;
    if Looking(t, m, 'e') || Looking(t, m, 'E') then
      SkipDigits(t, if Looking(t, m + 1, '+') || Looking(t, m + 1, '-') then m + 2 else m + 1)
    else m
  }

  function HexDigit(c: char): (d: Option<nat>)
    ensures d.Some? ==> d.value < 16
  {
    if '0' <= c <= '9' then Some((c - '0') as nat)
    else if 'a' <= c <= 'f' then Some((c - 'a') as nat + 10)
    else if 'A' <= c <= 'F' then Some((c - 'A') as nat + 10)
    else None
  }

  function HexDigits(s: string): Option<nat>
    requires s != ""
  {
    var d := HexDigit(s[|s| - 1]);
    if d.None? || |s| == 1 then d
    else
      match HexDigits(s[..|s| - 1])
      case None => None
      case Some(n) => Some(16 * n + d.value)
  }

  /** Unsigned base-16 parsing: one leading `+` is accepted, an empty digit string is not. */
  function ParseHex(s: string): Option<nat> {
    var digits := if |s| > 1 && s[0] == '+' then s[1..] else s;
    if digits == "" then None else HexDigits(digits)
  }

  /** The character of a code point, or nothing for a surrogate or a number past the last plane. */
  function CharOf(n: Option<nat>): string {
    if n.None? then ""
    else if n.value < 0xD800 || 0xE000 <= n.value < 0x11_0000 then [n.value as char]
    else ""
  }

  function SkipToBrace(t: string, p: nat): (q: nat)
    requires p <= |t|
    ensures p <= q <= |t|
    decreases |t| - p
  {
    if p < |t| && t[p] != '}' then SkipToBrace(t, p + 1) else p
  }

  /** What the escape whose letter stands at `p` appends, and the position of its last character. */
  function Escape(t: string, p: nat): (r: (string, nat))
    requires p < |t|
    ensures p <= r.1
  {
    var c := t[p];
    if c == 'n' then ("\n", p)
    else if c == 'r' then ("\r", p)
    else if c == 't' then ("\t", p)
    else if c == 'b' then (['\U{0008}'], p)
    else if c == 'f' then (['\U{000C}'], p)
    else if c == 'v' then (['\U{000B}'], p)
    else if c == '\\' || c == '\'' || c == '"' then ([c], p)
    else if c == '0' then (['\0'], p)
    else if c == 'x' then
      if p + 2 < |t| then (CharOf(ParseHex(t[p + 1..p + 3])), p + 2) else ("", p + 1)
    else if c == 'u' then
      if Looking(t, p + 1, '{') then
        var q := SkipToBrace(t, p + 2);
        (CharOf(ParseHex(t[p + 2..q])), q)
      else if p + 4 < |t| then (CharOf(ParseHex(t[p + 1..p + 5])), p + 4)
      else ("", p + 1)
    else (['\\', c], p)
  }

  datatype StringToken = Unterminated | Token(s: string, p: nat)

  /** Reads a string literal body from `p` up to its closing quote. */
  function ScanString(t: string, p: nat, quote: char, acc: string): (r: StringToken)
    ensures r.Token? ==> p < r.p <= |t|
    decreases |t| - p
  {
    if p >= |t| then Unterminated
    else if t[p] == quote then Token(acc, p + 1)
    else if t[p] == '\\' && p + 1 < |t| then
      var (s, q) := Escape(t, p + 1);
      ScanString(t, q + 1, quote, acc + s)
    else ScanString(t, p + 1, quote, acc + [t[p]])
  }

  // ---- the texts of `for` updates ----

  /** Only characters the reader skips. */
  predicate Blank(s: string) {
    forall i :: 0 <= i < |s| ==> IsSpace(s[i])
  }

  /** First position where `a` is followed by `b`, or the length of `s`. */
  function FindPair(s: string, a: char, b: char): (i: nat)
    ensures i == |s| || (i + 1 < |s| && s[i] == a && s[i + 1] == b)
  {
    if |s| < 2 then |s|
    else if s[0] == a && s[1] == b then 0
    else 1 + FindPair(s[1..], a, b)
  }

  function Decimal(s: string): Option<nat>
    requires s != ""
  {
    var c := s[|s| - 1];
    if !IsDigit(c) then None
    else if |s| == 1 then Some((c - '0') as nat)
    else
      match Decimal(s[..|s| - 1])
      case None => None
      case Some(n) => Some(10 * n + (c - '0') as nat)
  }

  /** Signed 32-bit decimal parsing with an optional sign. */
  function ParseI32(s: string): Option<i32> {
    var signed := |s| > 1 && (s[0] == '+' || s[0] == '-');
    var digits := if signed then s[1..] else s;
    if digits == "" then None
    else
      match Decimal(digits)
      case None => None
      case Some(n) =>
        var v: int := if signed && s[0] == '-' then 0 - n else n;
        if FitsI32(v) then Some(v) else None
  }
}
