/** Number literals of the expression language by their parts (src/compiler.rs, the number scanner). */
module NumberTokens {
  import opened Values
  import opened Texts
  import opened Lexer
  import opened Printer
  import Grammar

  predicate Run(s: string) {
    forall i :: 0 <= i < |s| ==> IsDigit(s[i])
  }

  predicate FractionPart(s: string) {
    s == "" || (s[0] == '.' && Run(s[1..]))
  }

  predicate ExponentPart(s: string) {
    s == "" || ((s[0] == 'e' || s[0] == 'E') && (Run(s[1..]) || (|s| > 1 && (s[1] == '+' || s[1] == '-') && Run(s[2..]))))
  }

  /** Digits, a fraction and an exponent. Either of the first two may be missing but not both, and digits may be missing
      after a point, an `e` or a sign. */
  predicate Parts(w: string, f: string, e: string) {
    Run(w) && FractionPart(f) && ExponentPart(e) && (w != "" || f != "")
  }

  lemma {:induction false} RunSpan(t: string, p: nat, s: string)
    requires Run(s) && LookingAt(t, p, s) && (p + |s| == |t| || !IsDigit(t[p + |s|]))
    ensures p <= |t| && SkipDigits(t, p) == p + |s|
    decreases |s|
  {
    if s != "" {
      CharAt(t, p, s, 0);
      assert s == [s[0]] + s[1..];
      Split(t, p, [s[0]], s[1..]);
      RunSpan(t, p + 1, s[1..]);
    }
  }

  /** The end of a fraction that may start at `p`. */
  function FractionEnd(t: string, p: nat): (q: nat)
    requires p <= |t|
    ensures p <= q <= |t|
  {
    if Looking(t, p, '.') then SkipDigits(t, p + 1) else p
  }

  function ExponentEnd(t: string, p: nat): (q: nat)
    requires p <= |t|
    ensures p <= q <= |t|
  {
    if Looking(t, p, 'e') || Looking(t, p, 'E') then
      SkipDigits(t, if Looking(t, p + 1, '+') || Looking(t, p + 1, '-') then p + 2 else p + 1)
    else p
  }

  lemma EndIs(t: string, p: nat)
    requires p <= |t|
    ensures NumberEnd(t, p) == ExponentEnd(t, FractionEnd(t, SkipDigits(t, p)))
  {
  }

  lemma FractionSpan(t: string, p: nat, f: string)
    requires FractionPart(f) && LookingAt(t, p, f) && (p + |f| == |t| || !IsDigit(t[p + |f|])) && (f == "" ==> !Looking(t, p, '.'))
    ensures p <= |t| && FractionEnd(t, p) == p + |f|
  {
    if f != "" {
      CharAt(t, p, f, 0);
      assert f == [f[0]] + f[1..];
      Split(t, p, [f[0]], f[1..]);
      RunSpan(t, p + 1, f[1..]);
    }
  }

  lemma ExponentSpan(t: string, p: nat, e: string)
    requires ExponentPart(e) && LookingAt(t, p, e) && NumberStops(t, p + |e|)
    ensures p <= |t| && ExponentEnd(t, p) == p + |e|
  {
    if e != "" {
      CharAt(t, p, e, 0);
      var n := if Run(e[1..]) then 1 else 2;
      if |e| > 1 {
        CharAt(t, p, e, 1);
        if n == 1 { SignOrDigit(e); }
      }
      assert e == e[..n] + e[n..];
      Split(t, p, e[..n], e[n..]);
      RunSpan(t, p + n, e[n..]);
    }
  }

  lemma SignOrDigit(e: string)
    requires |e| > 1 && Run(e[1..])
    ensures IsDigit(e[1])
  {
    assert e[1..][0] == e[1];
  }

  /** A literal stands where its parts do, if nothing continues it. */
  lemma TokenSpan(t: string, p: nat, w: string, f: string, e: string)
    requires Parts(w, f, e) && LookingAt(t, p, w + (f + e)) && NumberStops(t, p + |w| + |f| + |e|)
    ensures p <= |t| && NumberEnd(t, p) == p + |w| + |f| + |e|
  {
    hide *;
    PartsStand(t, p, w, f, e);
    RunSpan(t, p, w);
    FractionSpan(t, p + |w|, f);
    ExponentSpan(t, p + |w| + |f|, e);
    EndIs(t, p);
  }

  lemma PartsStand(t: string, p: nat, w: string, f: string, e: string)
    requires Parts(w, f, e) && LookingAt(t, p, w + (f + e)) && NumberStops(t, p + |w| + |f| + |e|)
    ensures Run(w) && FractionPart(f) && ExponentPart(e)
    ensures var m := p + |w|; var k := m + |f|;
      && LookingAt(t, p, w) && LookingAt(t, m, f) && LookingAt(t, k, e) && k <= |t|
      && (m == |t| || !IsDigit(t[m])) && (k == |t| || !IsDigit(t[k])) && (f == "" ==> !Looking(t, m, '.'))
  {
    var m := p + |w|;
    Split(t, p, w, f + e);
    Split(t, m, f, e);
    if f != "" { CharAt(t, m, f, 0); }
    if e != "" { CharAt(t, m + |f|, e, 0); }
    hide LookingAt, Run;
  }

  // ---- and no other text is one ----

  lemma {:induction false} RunOf(t: string, p: nat)
    requires p <= |t|
    ensures Run(t[p..SkipDigits(t, p)])
    decreases |t| - p
  {
    var q := SkipDigits(t, p);
    if p < |t| && IsDigit(t[p]) {
      RunOf(t, p + 1);
      assert t[p..q] == [t[p]] + t[p + 1..q];
    }
  }

  lemma FractionOf(t: string, p: nat)
    requires p <= |t|
    ensures FractionPart(t[p..FractionEnd(t, p)])
  {
    var q := FractionEnd(t, p);
    if p < q {
      RunOf(t, p + 1);
      assert t[p..q][1..] == t[p + 1..q];
    }
  }

  lemma ExponentOf(t: string, p: nat)
    requires p <= |t|
    ensures ExponentPart(t[p..ExponentEnd(t, p)])
  {
    var q := ExponentEnd(t, p);
    if p < q {
      var n := if Looking(t, p + 1, '+') || Looking(t, p + 1, '-') then 2 else 1;
      RunOf(t, p + n);
      assert t[p..q][n..] == t[p + n..q];
    }
  }

  ghost predicate Literal(s: string) {
    exists w, f, e :: Parts(w, f, e) && s == w + (f + e)
  }

  /** The texts that stand for numbers are exactly the literals that the host can read. */
  lemma NumberTextIs(num: Grammar.Numbers, s: string)
    ensures IsNumberText(num, s) <==> Literal(s) && num(s).Some?
  {
    hide NumberEnd, SkipDigits;
    if Literal(s) {
      var w, f, e :| Parts(w, f, e) && s == w + (f + e);
      LiteralIs(s, w, f, e);
    }
    if IsNumberText(num, s) { LiteralOf(s); }
  }

  lemma LiteralIs(s: string, w: string, f: string, e: string)
    requires Parts(w, f, e) && s == w + (f + e)
    ensures s != "" && (IsDigit(s[0]) || s[0] == '.') && NumberEnd(s + ")", 0) == |s|
  {
    var t := s + ")";
    assert t[0..|s|] == s;
    hide NumberEnd, ExponentPart;
    assert s[0] == if w != "" then w[0] else f[0];
    TokenSpan(t, 0, w, f, e);
  }

  lemma LiteralOf(s: string)
    requires s != "" && (IsDigit(s[0]) || s[0] == '.') && NumberEnd(s + ")", 0) == |s|
    ensures Literal(s)
  {
    hide *;
    var t := s + ")";
    EndIs(t, 0);
    var m := SkipDigits(t, 0);
    var k := FractionEnd(t, m);
    RunOf(t, 0);
    FractionOf(t, m);
    ExponentOf(t, k);
    FirstPart(t);
    ThreeParts(s, m, k);
  }

  lemma ThreeParts(s: string, m: nat, k: nat)
    requires m <= k <= |s| && Run((s + ")")[0..m]) && FractionPart((s + ")")[m..k]) && ExponentPart((s + ")")[k..|s|])
    requires (s + ")")[0..m] != "" || (s + ")")[m..k] != ""
    ensures Literal(s)
  {
    hide Run, FractionPart, ExponentPart;
    var t := s + ")";
    var w, f, e := t[0..m], t[m..k], t[k..|s|];
    assert s == w + (f + e);
    assert Parts(w, f, e);
  }

  lemma FirstPart(t: string)
    requires t != "" && (IsDigit(t[0]) || t[0] == '.')
    ensures var m := SkipDigits(t, 0); t[0..m] != "" || t[m..FractionEnd(t, m)] != ""
  {
  }
}
