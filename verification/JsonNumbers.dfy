/** The numbers of JSON by their parts (RFC 8259, section 6), and that the reader takes exactly these. */
module JsonNumbers {
  import opened Values
  import opened Texts
  import opened JsonText
  import Lexer

  predicate Digits(s: string) {
    s != "" && forall i :: 0 <= i < |s| ==> IsDigit(s[i])
  }

  predicate IntegerPart(s: string) {
    Digits(s) && (s[0] == '0' ==> |s| == 1)
  }

  predicate FractionPart(s: string) {
    s == "" || (s[0] == '.' && Digits(s[1..]))
  }

  predicate ExponentPart(s: string) {
    s == "" || ((s[0] == 'e' || s[0] == 'E') && (Digits(s[1..]) || (|s| > 1 && (s[1] == '+' || s[1] == '-') && Digits(s[2..]))))
  }

  predicate Parts(sign: string, w: string, f: string, e: string) {
    (sign == "" || sign == "-") && IntegerPart(w) && FractionPart(f) && ExponentPart(e)
  }

  ghost predicate NumberText(s: string) {
    exists sign, w, f, e :: Parts(sign, w, f, e) && s == sign + (w + (f + e))
  }

  /** Nothing at `q` continues a number. */
  predicate Over(t: string, q: nat) {
    q >= |t| || (!IsDigit(t[q]) && t[q] != '.' && t[q] != 'e' && t[q] != 'E')
  }

  // ---- such a text is read ----

  lemma {:induction false} DigitsSpan(t: string, p: nat, s: string)
    requires LookingAt(t, p, s) && !DigitAt(t, p + |s|) && (s == "" || Digits(s))
    ensures p <= |t| && SkipDigits(t, p) == p + |s|
    decreases |s|
  {
    if s != "" {
      CharAt(t, p, s, 0);
      assert s == [s[0]] + s[1..];
      Split(t, p, [s[0]], s[1..]);
      DigitsSpan(t, p + 1, s[1..]);
    }
  }

  lemma FractionReads(t: string, p: nat, f: string)
    requires FractionPart(f) && LookingAt(t, p, f) && !DigitAt(t, p + |f|) && (f == "" ==> At(t, p) != Some('.'))
    ensures p <= |t| && SkipFraction(t, p) == Some(p + |f|)
  {
    if f != "" {
      CharAt(t, p, f, 0);
      CharAt(t, p, f, 1);
      assert f == [f[0]] + f[1..];
      Split(t, p, [f[0]], f[1..]);
      DigitsSpan(t, p + 1, f[1..]);
    }
  }

  lemma ExponentReads(t: string, p: nat, e: string)
    requires ExponentPart(e) && LookingAt(t, p, e) && Over(t, p + |e|)
    ensures p <= |t| && SkipExponent(t, p) == Some(p + |e|)
  {
    if e != "" {
      CharAt(t, p, e, 0);
      CharAt(t, p, e, 1);
      var n := if Digits(e[1..]) then 1 else 2;
      CharAt(t, p, e, n);
      assert e == e[..n] + e[n..];
      Split(t, p, e[..n], e[n..]);
      DigitsSpan(t, p + n, e[n..]);
    }
  }

  lemma IntegerReads(t: string, p: nat, w: string)
    requires IntegerPart(w) && LookingAt(t, p, w) && !DigitAt(t, p + |w|)
    ensures DigitAt(t, p) && p + |w| == if t[p] == '0' then p + 1 else SkipDigits(t, p)
  {
    CharAt(t, p, w, 0);
    DigitsSpan(t, p, w);
  }

  /** A number stands where its text does, if nothing continues it. */
  lemma NumberStands(t: string, p: nat, sign: string, w: string, f: string, e: string)
    requires Parts(sign, w, f, e) && LookingAt(t, p, sign + (w + (f + e))) && Over(t, p + |sign| + |w| + |f| + |e|)
    ensures p < |t| && NumberEnd(t, p) == Some(p + |sign| + |w| + |f| + |e|)
    ensures t[p] == '-' || IsDigit(t[p])
  {
    hide *;
    var d := p + |sign|;
    var m := d + |w|;
    var k := m + |f|;
    PartsStand(t, p, sign, w, f, e);
    IntegerReads(t, d, w);
    FractionReads(t, m, f);
    ExponentReads(t, k, e);
    EndOf(t, p, d, m, k, k + |e|);
  }

  lemma PartsStand(t: string, p: nat, sign: string, w: string, f: string, e: string)
    requires Parts(sign, w, f, e) && LookingAt(t, p, sign + (w + (f + e))) && Over(t, p + |sign| + |w| + |f| + |e|)
    ensures IntegerPart(w) && FractionPart(f) && ExponentPart(e)
    ensures var d := p + |sign|; d < |t| && d == (if t[p] == '-' then p + 1 else p)
    ensures var d := p + |sign|; LookingAt(t, d, w) && LookingAt(t, d + |w|, f) && LookingAt(t, d + |w| + |f|, e)
    ensures var m := p + |sign| + |w|; !DigitAt(t, m) && !DigitAt(t, m + |f|) && (f == "" ==> At(t, m) != Some('.'))
  {
    var d := p + |sign|;
    var m := d + |w|;
    Split(t, p, sign, w + (f + e));
    Split(t, d, w, f + e);
    Split(t, m, f, e);
    CharAt(t, d, w, 0);
    if sign != "" { CharAt(t, p, sign, 0); }
    if f != "" { CharAt(t, m, f, 0); }
    if e != "" { CharAt(t, m + |f|, e, 0); }
    hide LookingAt;
    FirstChars(w, f, e);
  }

  lemma FirstChars(w: string, f: string, e: string)
    requires IntegerPart(w) && FractionPart(f) && ExponentPart(e)
    ensures IsDigit(w[0]) && (f != "" ==> f[0] == '.') && (e != "" ==> e[0] == 'e' || e[0] == 'E')
  {
  }

  lemma EndOf(t: string, p: nat, d: nat, m: nat, k: nat, q: nat)
    requires p <= d < |t| && d == (if t[p] == '-' then p + 1 else p) && DigitAt(t, d)
    requires m == (if t[d] == '0' then d + 1 else SkipDigits(t, d)) && m <= |t| && SkipFraction(t, m) == Some(k)
    requires k <= |t| && SkipExponent(t, k) == Some(q)
    ensures NumberEnd(t, p) == Some(q) && (t[p] == '-' || IsDigit(t[p]))
  {
    hide SkipDigits, SkipFraction, SkipExponent;
  }

  // ---- what is read is such a text ----

  lemma {:induction false} SkippedDigits(t: string, p: nat)
    requires DigitAt(t, p)
    ensures Digits(t[p..SkipDigits(t, p)]) && !DigitAt(t, SkipDigits(t, p))
    decreases |t| - p
  {
    var q := SkipDigits(t, p);
    if DigitAt(t, p + 1) {
      SkippedDigits(t, p + 1);
      assert t[p..q] == [t[p]] + t[p + 1..q];
    }
  }

  lemma NumberParts(t: string, p: nat) returns (sign: string, w: string, f: string, e: string)
    requires p < |t| && NumberEnd(t, p).Some?
    ensures Parts(sign, w, f, e) && t[p..NumberEnd(t, p).value] == sign + (w + (f + e))
  {
    var d, m, k, q := Marks(t, p);
    sign, w, f, e := t[p..d], t[d..m], t[m..k], t[k..q];
    hide NumberEnd, SkipFraction, SkipExponent, SkipDigits;
    IntegerRead(t, d);
    FractionRead(t, m);
    ExponentRead(t, k);
    hide IntegerPart, FractionPart, ExponentPart;
    assert sign == if d == p then "" else "-";
    Slices(t, p, d, m, k, q);
  }

  lemma Slices(t: string, p: nat, d: nat, m: nat, k: nat, q: nat)
    requires p <= d <= m <= k <= q <= |t|
    ensures t[p..q] == t[p..d] + (t[d..m] + (t[m..k] + t[k..q]))
  {
  }

  /** Where the parts end. */
  lemma Marks(t: string, p: nat) returns (d: nat, m: nat, k: nat, q: nat)
    requires p < |t| && NumberEnd(t, p).Some?
    ensures p <= d <= p + 1 && (d == p + 1 ==> t[p] == '-') && DigitAt(t, d)
    ensures m == (if t[d] == '0' then d + 1 else SkipDigits(t, d)) && d <= m <= |t| && SkipFraction(t, m) == Some(k)
    ensures k <= |t| && SkipExponent(t, k) == Some(q) && NumberEnd(t, p) == Some(q)
  {
    hide SkipFraction, SkipExponent;
    q := NumberEnd(t, p).value;
    d := if t[p] == '-' then p + 1 else p;
    m := if t[d] == '0' then d + 1 else SkipDigits(t, d);
    k := SkipFraction(t, m).value;
  }

  lemma IntegerRead(t: string, d: nat)
    requires DigitAt(t, d)
    ensures IntegerPart(t[d..if t[d] == '0' then d + 1 else SkipDigits(t, d)])
  {
    SkippedDigits(t, d);
  }

  lemma FractionRead(t: string, p: nat)
    requires p <= |t| && SkipFraction(t, p).Some?
    ensures FractionPart(t[p..SkipFraction(t, p).value])
  {
    var q := SkipFraction(t, p).value;
    if p < q {
      SkippedDigits(t, p + 1);
      assert t[p..q][1..] == t[p + 1..q];
    }
  }

  lemma ExponentRead(t: string, p: nat)
    requires p <= |t| && SkipExponent(t, p).Some?
    ensures ExponentPart(t[p..SkipExponent(t, p).value])
  {
    var q := SkipExponent(t, p).value;
    if p < q {
      var n := if At(t, p + 1) == Some('+') || At(t, p + 1) == Some('-') then 2 else 1;
      SkippedDigits(t, p + n);
      assert t[p..q][n..] == t[p + n..q];
    }
  }
}
