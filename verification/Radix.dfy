/** Integers as text in a radix (src/api/number_fmt.rs) and `parseInt` (src/api/eval_expr.rs). */
module Radix {
  import opened Values
  import opened Arithmetic
  import opened Texts

  type i64 = n: int | -0x8000_0000_0000_0000 <= n < 0x8000_0000_0000_0000

  const MAX_U64 := 0xFFFF_FFFF_FFFF_FFFF

  type radix = n: int | 2 <= n <= 36 witness 10

  /** The digit table: `0` to `9`, then `a` to `z`. */
  function Letter(d: nat): char
    requires d < 36
  {
    if d < 10 then (d + '0' as int) as char else (d - 10 + 'a' as int) as char
  }

  /** `char::to_digit` */
  function DigitOf(c: char, r: radix): (d: Option<nat>)
    ensures d.Some? ==> d.value < r
  {
    var n: int :=
      if '0' <= c <= '9' then c as int - '0' as int
      else if 'a' <= c <= 'z' then c as int - 'a' as int + 10
      else if 'A' <= c <= 'Z' then c as int - 'A' as int + 10
      else r;
    if n < r then Some(n) else None
  }

  predicate IsDigit(c: char, r: radix) {
    DigitOf(c, r).Some?
  }

  /** A digit as the formatter writes it: lower case. */
  predicate IsLower(c: char, r: radix) {
    IsDigit(c, r) && !('A' <= c <= 'Z')
  }

  lemma LetterOfDigit(d: nat, r: radix)
    requires d < r
    ensures DigitOf(Letter(d), r) == Some(d) && IsLower(Letter(d), r) && (Letter(d) == '0' <==> d == 0)
  {
  }

  lemma DigitOfLetter(c: char, r: radix)
    requires IsLower(c, r)
    ensures Letter(DigitOf(c, r).value) == c
  {
  }

  predicate AllDigits(s: string, r: radix) {
    forall i :: 0 <= i < |s| ==> IsDigit(s[i], r)
  }

  predicate AllLower(s: string, r: radix) {
    AllDigits(s, r) && forall i :: 0 <= i < |s| ==> IsLower(s[i], r)
  }

  /** Reference meaning of a string of digits: each place weighs `r` times the next. */
  function Magnitude(s: string, r: radix): nat
    requires AllDigits(s, r)
  {
    if |s| == 0 then 0
    else
      var m := Magnitude(s[..|s| - 1], r);
      MulMono(0, m, r);
      m * r + DigitOf(s[|s| - 1], r).value
  }

  lemma DivLess(n: nat, r: radix)
    ensures n / r >= 0 && n % r >= 0 && n == n / r * r + n % r && (n > 0 ==> n / r < n) && (n >= r ==> n / r > 0)
  {
  }

  /** The digits of a magnitude, most significant first; none for zero. */
  function Places(n: nat, r: radix): string
    decreases n
  {
    DivLess(n, r);
    if n == 0 then "" else Places(n / r, r) + [Letter(n % r)]
  }

  function Format(value: i64, r: int): string {
    if r < 2 || r > 36 then ""
    else if value == 0 then "0"
    else if value < 0 then "-" + Places(0 - value, r)
    else Places(value, r)
  }

  function Reversed(s: string): (t: string)
    ensures |t| == |s|
  {
    if |s| == 0 then "" else [s[|s| - 1]] + Reversed(s[..|s| - 1])
  }

  /** `format_radix_int`: digits come out backwards, then the sign, then all is reversed. */
  method FormatRadixInt(value: i64, r: int) returns (text: string)
    ensures text == Format(value, r)
  {
    if r < 2 || r > 36 { return ""; }
    if value == 0 { return "0"; }
    var n: int := value;
    var negative := n < 0;
    if negative {
      n := 0 - n;
    }
    var out := Backwards(n, r);
    if negative {
      assert (out + ['-'])[..|out|] == out;
      out := out + ['-'];
    }
    text := Reversed(out);
  }

  method Backwards(whole: nat, r: radix) returns (out: string)
    ensures Reversed(out) == Places(whole, r)
  {
    var n: nat := whole;
    out := "";
    while n > 0
      invariant Places(n, r) + Reversed(out) == Places(whole, r)
    {
      DivLess(n, r);
      ghost var were := out;
      out := out + [Letter(n % r)];
      assert out[..|were|] == were;
      n := n / r;
      assert Places(n, r) + ([out[|were|]] + Reversed(were)) == (Places(n, r) + [out[|were|]]) + Reversed(were);
    }
  }

  // ---- the canonical string of a number ----

  function Unsigned(t: string): string {
    if |t| > 0 && t[0] == '-' then t[1..] else t
  }

  /** Lower-case digits, no leading zero, no negative zero. */
  ghost predicate Canonical(t: string, r: radix) {
    var u := Unsigned(t);
    |u| > 0 && AllLower(u, r) && (u[0] == '0' ==> t == "0")
  }

  function Meaning(t: string, r: radix): int
    requires AllDigits(Unsigned(t), r)
  {
    if |t| > 0 && t[0] == '-' then 0 - Magnitude(t[1..], r) else Magnitude(t, r)
  }

  lemma OneMore(s: string, c: char, r: radix)
    requires AllLower(s, r) && IsLower(c, r)
    ensures AllLower(s + [c], r) && Magnitude(s + [c], r) == Magnitude(s, r) * r + DigitOf(c, r).value
  {
    assert (s + [c])[..|s|] == s;
  }

  lemma {:induction false} PlacesMean(n: nat, r: radix)
    ensures var s := Places(n, r);
      AllLower(s, r) && Magnitude(s, r) == n && (n > 0 ==> |s| > 0 && s[0] != '0')
    decreases n
  {
    if n == 0 {
    } else {
      DivLess(n, r);
      var q, d := n / r, n % r;
      assert Places(n, r) == Places(q, r) + [Letter(d)];
      LetterOfDigit(d, r);
      hide *;
      PlacesMean(q, r);
      OneMore(Places(q, r), Letter(d), r);
    }
  }

  /** The reverse: a string of places without a leading zero is the one written for its value. */
  lemma {:induction false} PlacesOnly(s: string, r: radix)
    requires AllLower(s, r) && (|s| > 0 ==> s[0] != '0')
    ensures Places(Magnitude(s, r), r) == s && (|s| > 0 ==> Magnitude(s, r) > 0)
    decreases |s|
  {
    if |s| == 0 {
    } else {
      var front, c := s[..|s| - 1], s[|s| - 1];
      var q, d := Magnitude(front, r), DigitOf(c, r).value;
      PlacesOnly(front, r);
      DigitOfLetter(c, r);
      Quotient(q, d, r);
      if |front| > 0 { MulMono(1, q, r); }
      assert q * r + d > 0;
      assert s == front + [c];
    }
  }

  /** `format_radix_int` writes a canonical string of the value, the least 64-bit integer included ... */
  lemma FormatIsCanonical(value: i64, r: radix)
    ensures Canonical(Format(value, r), r) && Meaning(Format(value, r), r) == value
  {
    var n: nat := if value < 0 then 0 - value else value;
    PlacesMean(n, r);
    var t := Format(value, r);
    if value == 0 {
      assert t[..0] == "";
    } else if value < 0 {
      hide Places, Magnitude;
      assert Unsigned(t) == Places(n, r);
    } else {
      hide Places, Magnitude;
      assert t[0] != '-' by { assert IsLower(t[0], r); }
    }
  }

  /** ... and every canonical string is written for its value. */
  lemma CanonicalIsFormat(t: string, r: radix)
    requires Canonical(t, r) && -0x8000_0000_0000_0000 <= Meaning(t, r) < 0x8000_0000_0000_0000
    ensures t == Format(Meaning(t, r), r)
  {
    if t == "0" {
      assert t[..0] == "";
      assert Meaning(t, r) == 0;
    } else {
      PlacesOnly(Unsigned(t), r);
    }
  }

  // ---- parseInt ----

  /** The number `parseInt` gives: a sign and a 64-bit magnitude. */
  datatype Parsed = NaN | Signed(negative: bool, magnitude: nat)

  predicate HexPrefixed(s: string) {
    |s| >= 2 && s[0] == '0' && (s[1] == 'x' || s[1] == 'X')
  }

  /** The digits at the start of a string. */
  function Leading(s: string, r: radix): (n: nat)
    ensures n <= |s| && AllDigits(s[..n], r) && (n < |s| ==> !IsDigit(s[n], r))
  {
    if |s| == 0 || !IsDigit(s[0], r) then 0
    else
      var n := Leading(s[1..], r);
      assert forall i :: 1 <= i <= n ==> s[i] == s[1..][i - 1];
      n + 1
  }

  function Saturated(n: nat): nat {
    if n > MAX_U64 then MAX_U64 else n
  }

  /** Which digits count, and in which radix; no radix when it is out of range. */
  function Scope(s: string, given: i32): (string, Option<radix>) {
    if given == 0 then
      if HexPrefixed(s) then (s[2..], Some(16)) else (s, Some(10))
    else if given == 16 && HexPrefixed(s) then (s[2..], Some(16))
    else if 2 <= given <= 36 then (s, Some(given)) else (s, None)
  }

  /** Reference for `parseInt`: the leading digits, read as a number that stops at 64 bits. */
  function IntOf(text: string, given: i32): Parsed {
    var t := TrimStart(text);
    var negative := |t| > 0 && t[0] == '-';
    var (s, r) := Scope(if |t| > 0 && (t[0] == '-' || t[0] == '+') then t[1..] else t, given);
    if r.None? then NaN
    else
      var n := Leading(s, r.value);
      if n == 0 then NaN else Signed(negative, Saturated(Magnitude(s[..n], r.value)))
  }

  method ParseInt(text: string, given: i32) returns (p: Parsed)
    ensures p == IntOf(text, given)
  {
    var s := TrimStart(text);
    var negative := false;
    if |s| > 0 && s[0] == '-' {
      negative := true;
      s := s[1..];
    } else if |s| > 0 && s[0] == '+' {
      s := s[1..];
    }
    var rest := s;
    var base: int := given;
    if base == 0 {
      if HexPrefixed(rest) {
        base := 16;
        rest := rest[2..];
      } else {
        base := 10;
      }
    } else if base == 16 && HexPrefixed(rest) {
      rest := rest[2..];
    }
    if base < 2 || base > 36 { return NaN; }
    p := ParseDigits(rest, base, negative);
  }

  /** The digit loop, with multiplication and addition that stop at 64 bits. */
  method ParseDigits(s: string, r: radix, negative: bool) returns (p: Parsed)
    ensures var n := Leading(s, r); p == if n == 0 then NaN else Signed(negative, Saturated(Magnitude(s[..n], r)))
  {
    var acc, seen, i := 0, false, 0;
    while i < |s|
      invariant 0 <= i <= Leading(s, r) && seen == (i > 0)
      invariant AllDigits(s[..i], r) && acc == Saturated(Magnitude(s[..i], r))
    {
      var d := DigitOf(s[i], r);
      if d.None? { break; }
      LeadingPast(s, r, i);
      SaturatingStep(Magnitude(s[..i], r), d.value, r);
      assert s[..i + 1][..i] == s[..i];
      acc := Saturated(Saturated(acc * r) + d.value);
      seen := true;
      i := i + 1;
    }
    assert i == Leading(s, r);
    p := if seen then Signed(negative, acc) else NaN;
  }

  lemma LeadingPast(s: string, r: radix, i: nat)
    requires i < |s| && i <= Leading(s, r) && IsDigit(s[i], r)
    ensures i + 1 <= Leading(s, r)
  {
  }

  /** Stopping at every step is stopping once at the end. */
  lemma SaturatingStep(m: nat, d: nat, r: radix)
    requires d < r
    ensures Saturated(Saturated(Saturated(m) * r) + d) == Saturated(m * r + d)
  {
    var x := Saturated(m) * r;
    var y := m * r;
    if m > MAX_U64 {
      Longer(m, r);
      assert x > MAX_U64;
    }
  }

  lemma Longer(m: nat, r: radix)
    ensures m * r >= m
  {
    if m > 0 { MulMono(1, r, m); }
  }

  /** What is written in a radix reads back as the same sign and magnitude: for every 64-bit integer and every radix. */
  lemma RadixRoundTrip(value: i64, r: radix)
    ensures IntOf(Format(value, r), r) == Signed(value < 0, if value < 0 then 0 - value else value)
  {
    FormatIsCanonical(value, r);
    var t := Format(value, r);
    NotTrimmed(t, r);
    CanonicalScope(t, r);
    AllLeading(Unsigned(t), r);
    assert Unsigned(t)[..|Unsigned(t)|] == Unsigned(t);
  }

  /** A canonical string has no plus sign and no hexadecimal prefix. */
  lemma CanonicalScope(t: string, r: radix)
    requires Canonical(t, r)
    ensures t[0] != '+' && Scope(Unsigned(t), r) == (Unsigned(t), Some(r))
    ensures r == 10 ==> Scope(Unsigned(t), 0) == (Unsigned(t), Some(10))
  {
    var u := Unsigned(t);
    assert IsLower(u[0], r);
    if |u| > 1 { assert IsLower(u[1], r); }
  }

  /** In decimal the radix need not be given. */
  lemma DecimalRoundTrip(value: i64)
    ensures IntOf(Format(value, 10), 0) == Signed(value < 0, if value < 0 then 0 - value else value)
  {
    RadixRoundTrip(value, 10);
    FormatIsCanonical(value, 10);
    NotTrimmed(Format(value, 10), 10);
    CanonicalScope(Format(value, 10), 10);
  }

  lemma NotTrimmed(t: string, r: radix)
    requires Canonical(t, r)
    ensures TrimStart(t) == t
  {
    assert t[0] == '-' || t[0] == Unsigned(t)[0];
    assert IsLower(Unsigned(t)[0], r);
  }

  lemma {:induction false} AllLeading(s: string, r: radix)
    requires AllDigits(s, r)
    ensures Leading(s, r) == |s|
  {
    if |s| > 0 {
      assert forall i :: 0 <= i < |s| - 1 ==> s[1..][i] == s[i + 1];
      AllLeading(s[1..], r);
    }
  }

  // ---- what `parseInt` takes from a text ----

  /** The figures are digits from 0 on, the letters of either case from 10 on. */
  lemma DigitsSeen()
    ensures DigitOf('0', 36) == Some(0) && DigitOf('9', 36) == Some(9)
    ensures DigitOf('a', 36) == DigitOf('A', 36) == Some(10) && DigitOf('z', 36) == DigitOf('Z', 36) == Some(35)
  {
  }

  /** Each next character of these three rows is worth one more, as long as the radix has the digit. */
  lemma DigitsRise(c: char, r: radix)
    requires '0' <= c < '9' || 'a' <= c < 'z' || 'A' <= c < 'Z'
    ensures DigitOf(c, 36).Some? && DigitOf((c as int + 1) as char, 36) == Some(DigitOf(c, 36).value + 1)
    ensures DigitOf(c, r) == if DigitOf(c, 36).value < r then DigitOf(c, 36) else None
  {
  }

  predicate Sign(s: string) {
    s == "" || s == "+" || s == "-"
  }

  /** Digits, and after them something else. */
  predicate Numeral(digits: string, junk: string, r: radix) {
    digits != "" && AllDigits(digits, r) && (junk != "" ==> !IsDigit(junk[0], r))
  }

  lemma {:induction false} LeadingIs(digits: string, junk: string, r: radix)
    requires AllDigits(digits, r) && (junk != "" ==> !IsDigit(junk[0], r))
    ensures Leading(digits + junk, r) == |digits|
    decreases |digits|
  {
    if digits == "" {
      assert digits + junk == junk;
    } else {
      assert (digits + junk)[1..] == digits[1..] + junk;
      assert IsDigit(digits[0], r);
      LeadingIs(digits[1..], junk, r);
    }
  }

  /** White space and a sign are passed over, and the sign is kept. */
  lemma SignTaken(blank: string, sign: string, body: string)
    requires White(blank) && Sign(sign) && body != "" && !IsWhite(body[0]) && body[0] != '+' && body[0] != '-'
    ensures var t := TrimStart(blank + (sign + body));
      && t == sign + body && (|t| > 0 && t[0] == '-' <==> sign == "-")
      && (if |t| > 0 && (t[0] == '-' || t[0] == '+') then t[1..] else t) == body
  {
    TrimStartDrops(blank, sign + body);
    assert (sign + body)[|sign|..] == body;
  }

  lemma DigitSolid(c: char, r: radix)
    requires IsDigit(c, r)
    ensures !IsWhite(c) && c != '+' && c != '-'
  {
  }

  /** `parseInt` of white space, a sign, digits of the radix and anything after them: the number the digits stand for, cut
      at 64 bits. Without a radix it is 10. */
  lemma ParsesNumeral(blank: string, sign: string, digits: string, junk: string, given: i32)
    requires given == 0 || 2 <= given <= 36
    requires var r: radix := if given == 0 then 10 else given; White(blank) && Sign(sign) && Numeral(digits, junk, r)
    requires given == 0 || given == 16 ==> !HexPrefixed(digits + junk)
    ensures var r: radix := if given == 0 then 10 else given;
      IntOf(blank + (sign + (digits + junk)), given) == Signed(sign == "-", Saturated(Magnitude(digits, r)))
  {
    var r: radix := if given == 0 then 10 else given;
    var body := digits + junk;
    DigitSolid(digits[0], r);
    SignTaken(blank, sign, body);
    LeadingIs(digits, junk, r);
    hide TrimStart, White, Magnitude, Leading, AllDigits, HexPrefixed, IsDigit;
    assert Scope(body, given) == (body, Some(r));
    assert body[..|digits|] == digits;
  }

  /** A prefix `0x` makes the radix 16, when none is given or it is 16 anyway. */
  lemma ParsesHexadecimal(blank: string, sign: string, x: char, digits: string, junk: string, given: i32)
    requires (given == 0 || given == 16) && (x == 'x' || x == 'X') && White(blank) && Sign(sign) && Numeral(digits, junk, 16)
    ensures IntOf(blank + (sign + (['0', x] + (digits + junk))), given) == Signed(sign == "-", Saturated(Magnitude(digits, 16)))
  {
    var body, rest := ['0', x] + (digits + junk), digits + junk;
    SignTaken(blank, sign, body);
    LeadingIs(digits, junk, 16);
    hide TrimStart, White, Magnitude, Leading, AllDigits;
    assert body[2..] == rest && HexPrefixed(body);
    assert Scope(body, given) == (rest, Some(16));
    assert rest[..|digits|] == digits;
  }

  /** No digit of the radix stands where one is asked for. */
  predicate NoNumeral(body: string, r: radix) {
    body != "" && !IsWhite(body[0]) && body[0] != '+' && body[0] != '-' && !IsDigit(body[0], r) && !HexPrefixed(body)
  }

  /** Any other radix gives no number, and so does a text without a digit after its sign. */
  lemma ParsesNothing(text: string, given: i32, r: radix, blank: string, sign: string, body: string)
    ensures given != 0 && !(2 <= given <= 36) ==> IntOf(text, given) == NaN
    ensures White(blank) && Sign(sign) && NoNumeral(body, r) ==> IntOf(blank + (sign + body), r) == NaN
  {
    if White(blank) && Sign(sign) && NoNumeral(body, r) {
      SignTaken(blank, sign, body);
    }
  }
}
