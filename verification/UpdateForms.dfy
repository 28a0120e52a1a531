/** The compiler's increment forms are exactly the spelled updates, and what they do is the general form, in 32 bits. */
module UpdateForms {
  import opened Values
  import opened Bytecode
  import opened Syntax
  import opened Texts
  import opened Lexer
  import opened CodeGen
  import opened Updates
  import Radix

  // ---- tokens ----

  lemma IdentifierSolid(x: string)
    requires IsIdentifier(x)
    ensures Solid(x) && forall i :: 0 <= i < |x| ==> IsIdentPart(x[i]) && !IsWhite(x[i])
  {
  }

  lemma {:induction false} DecimalMeans(s: string)
    requires s != ""
    ensures Decimal(s).Some? <==> Radix.AllDigits(s, 10)
    ensures Radix.AllDigits(s, 10) ==> Decimal(s) == Some(Radix.Magnitude(s, 10))
    decreases |s|
  {
    var front, c := s[..|s| - 1], s[|s| - 1];
    assert Radix.IsDigit(c, 10) <==> IsDigit(c);
    if |s| == 1 {
      assert front == "";
    } else {
      DecimalMeans(front);
      assert s == front + [c];
    }
  }

  /** Parsing a 32-bit integer succeeds exactly on the signed numerals that fit. */
  lemma NumeralParses(sign: string, digits: string)
    requires Numeral(sign, digits)
    ensures ParseI32(sign + digits) == Some(Constant(sign, digits))
  {
    DecimalMeans(digits);
    FirstDigit(digits);
    hide Decimal, Radix.Magnitude, Radix.AllDigits, ParseI32;
    if sign == "" {
      assert sign + digits == digits;
      ParsesBare(digits, Radix.Magnitude(digits, 10));
    } else {
      Parts(sign, digits);
      ParsesSigned(sign + digits, digits, Radix.Magnitude(digits, 10));
    }
  }

  lemma FirstDigit(digits: string)
    requires digits != "" && Radix.AllDigits(digits, 10)
    ensures digits[0] != '+' && digits[0] != '-'
  {
    assert Radix.IsDigit(digits[0], 10);
  }

  lemma ParsesBare(s: string, n: nat)
    requires s != "" && s[0] != '+' && s[0] != '-' && Decimal(s) == Some(n) && FitsI32(n)
    ensures ParseI32(s) == Some(n)
  {
    hide Decimal;
  }

  lemma ParsesSigned(s: string, digits: string, n: nat)
    requires |s| > 1 && (s[0] == '+' || s[0] == '-') && s[1..] == digits && digits != "" && Decimal(digits) == Some(n)
    requires FitsI32(if s[0] == '-' then 0 - n else n)
    ensures ParseI32(s) == Some(if s[0] == '-' then 0 - n else n)
  {
    hide Decimal;
  }

  lemma ParsedNumeral(s: string) returns (sign: string, digits: string)
    requires ParseI32(s).Some?
    ensures s == sign + digits && Numeral(sign, digits) && ParseI32(s) == Some(Constant(sign, digits))
  {
    var signed := |s| > 1 && (s[0] == '+' || s[0] == '-');
    sign, digits := if signed then s[..1] else "", if signed then s[1..] else s;
    DecimalMeans(digits);
    assert sign == "" || sign == [s[0]];
  }

  lemma NumeralSolid(sign: string, digits: string)
    requires Numeral(sign, digits)
    ensures var s := sign + digits; s != "" && Solid(s) && IsDigit(s[|s| - 1]) && forall i :: 0 <= i < |s| ==> s[i] != '='
  {
    var s := sign + digits;
    forall i | 0 <= i < |digits| ensures IsDigit(digits[i]) { assert Radix.IsDigit(digits[i], 10); }
    assert s[|s| - 1] == digits[|digits| - 1];
    forall i | 0 <= i < |s| ensures s[i] != '=' { assert s[i] == if i < |sign| then sign[i] else digits[i - |sign|]; }
  }

  lemma {:induction false} PairFound(s: string, a: char, b: char, k: nat)
    requires k + 1 < |s| && s[k] == a && s[k + 1] == b && forall i :: 0 <= i < k ==> s[i] != a
    ensures FindPair(s, a, b) == k
    decreases k
  {
    if k > 0 { PairFound(s[1..], a, b, k - 1); }
  }

  lemma {:induction false} NoPair(s: string, a: char, b: char)
    requires forall i :: 0 <= i < |s| - 1 ==> !(s[i] == a && s[i + 1] == b)
    ensures FindPair(s, a, b) == |s|
    decreases |s|
  {
    if |s| >= 2 {
      assert s[0] == a ==> s[0 + 1] != b;
      NoPair(s[1..], a, b);
    }
  }

  // ---- every spelled update is recognised ----

  /** The tokens start and end with no white space, so trimming finds them. */
  lemma TokensTrimmed(u: string, b: Bump, w0: string, w1: string, w2: string, w3: string)
    requires WellSpelled(b) && SpelledWith(u, b, w0, w1, w2, w3)
    ensures Trim(u) == Joined(b, w1, w2)
  {
    var c := Joined(b, w1, w2);
    IdentifierSolid(b.x);
    if b.Compound? {
      NumeralSolid(b.sign, b.digits);
      var n := b.sign + b.digits;
      assert c[0] == b.x[0] && c[|c| - 1] == n[|n| - 1];
    } else if b.prefix {
      assert c[0] == Mark(b.up)[0] && c[|c| - 1] == b.x[|b.x| - 1];
    } else {
      assert c[0] == b.x[0] && c[|c| - 1] == Mark(b.up)[1];
    }
    TrimDrops(w0, c, w3);
  }

  lemma NameTrimmed(x: string, w: string)
    requires IsIdentifier(x) && White(w)
    ensures Trim(x + w) == x && Trim(w + x) == x
  {
    IdentifierSolid(x);
    TrimDrops("", x, w);
    assert "" + (x + w) == x + w;
    TrimDrops(w, x, "");
    assert w + (x + "") == w + x;
  }

  lemma PostfixRecognised(b: Bump, w1: string, locals: seq<string>)
    requires b.Step? && !b.prefix && WellSpelled(b) && White(w1) && IsLocal(b.x, locals)
    ensures PostfixForm(Joined(b, w1, ""), locals) == Some((IndexOf(locals, b.x), Amount(b)))
  {
    hide IsLocal, IsIdentifier, Trim;
    var c, m := Joined(b, w1, ""), Mark(b.up);
    NameTrimmed(b.x, w1);
    assert c == (b.x + w1) + m;
    Parts(b.x + w1, m);
    NameEnds(b.x);
  }

  lemma Parts(a: string, b: string)
    ensures (a + b)[..|a|] == a && (a + b)[|a|..] == b
    ensures b != "" ==> (a + b)[|a + b| - 1] == b[|b| - 1]
  {
  }

  /** A text that does not end in a sign is no `x++`. */
  lemma NotPostfix(c: string, locals: seq<string>)
    requires c != "" && c[|c| - 1] != '+' && c[|c| - 1] != '-'
    ensures PostfixForm(c, locals).None?
  {
    if |c| >= 3 { assert c[|c| - 2..][1] == c[|c| - 1]; }
  }

  lemma NotPrefix(c: string, locals: seq<string>)
    requires c != "" && c[0] != '+' && c[0] != '-'
    ensures PrefixForm(c, locals).None?
  {
    if |c| >= 3 { assert c[..2][0] == c[0]; }
  }

  lemma PrefixRecognised(b: Bump, w1: string, locals: seq<string>)
    requires b.Step? && b.prefix && WellSpelled(b) && White(w1) && IsLocal(b.x, locals)
    ensures var c := Joined(b, w1, "");
      PostfixForm(c, locals).None? && PrefixForm(c, locals) == Some((IndexOf(locals, b.x), Amount(b)))
  {
    var c, m := Joined(b, w1, ""), Mark(b.up);
    assert c == m + (w1 + b.x) && (m == "++" || m == "--") && StepAmount(m) == Amount(b);
    hide IsLocal, IsIdentifier, Trim, PostfixForm, PrefixForm, Joined, White, Mark, StepAmount;
    NameTrimmed(b.x, w1);
    NameEnds(b.x);
    Parts(m, w1 + b.x);
    Parts(w1, b.x);
    NotPostfix(c, locals);
    PrefixFormOf(c, b.x, locals);
  }

  /** A prefix form from its parts. */
  lemma PrefixFormOf(c: string, x: string, locals: seq<string>)
    requires |c| >= 3 && (c[..2] == "++" || c[..2] == "--") && Trim(c[2..]) == x && IsLocal(x, locals)
    ensures PrefixForm(c, locals) == Some((IndexOf(locals, x), StepAmount(c[..2])))
  {
    hide Trim, IsLocal, StepAmount;
  }

  lemma NameEnds(x: string)
    requires IsIdentifier(x)
    ensures x != "" && x[|x| - 1] != '+' && x[|x| - 1] != '-' && x[0] != '+' && x[0] != '-'
  {
  }

  /** Where the operator of a compound update stands, and what is on either side of it. */
  lemma OperatorFound(b: Bump, w1: string, w2: string)
    requires b.Compound? && WellSpelled(b) && White(w1)
    ensures var c, head, tail := Joined(b, w1, w2), b.x + w1, w2 + (b.sign + b.digits);
      var k := |head|;
      && k + 2 <= |c| && c[..k] == head && c[k + 2..] == tail && c == head + (Operator(b.up) + tail)
      && (forall i :: 0 <= i < k ==> c[i] != '+' && c[i] != '-')
      && FindPair(c, if b.up then '+' else '-', '=') == k
  {
    hide FindPair;
    var c, head, tail := Joined(b, w1, w2), b.x + w1, w2 + (b.sign + b.digits);
    var k := |head|;
    IdentifierSolid(b.x);
    assert c == head + (Operator(b.up) + tail);
    forall i | 0 <= i < k ensures c[i] != '+' && c[i] != '-' {
      assert c[i] == head[i] == if i < |b.x| then b.x[i] else w1[i - |b.x|];
    }
    assert c[k] == Operator(b.up)[0] && c[k + 1] == '=';
    PairFound(c, c[k], '=', k);
  }

  /** A compound update is none of the step forms. */
  lemma CompoundNoStep(b: Bump, w1: string, w2: string, locals: seq<string>)
    requires b.Compound? && WellSpelled(b) && White(w1)
    ensures var c := Joined(b, w1, w2); PostfixForm(c, locals).None? && PrefixForm(c, locals).None?
  {
    var c, n := Joined(b, w1, w2), b.sign + b.digits;
    IdentifierSolid(b.x);
    NumeralSolid(b.sign, b.digits);
    hide IsIdentifier, PostfixForm, PrefixForm, Numeral;
    assert c[0] == b.x[0];
    assert c[|c| - 1] == n[|n| - 1];
    NotPostfix(c, locals);
    NotPrefix(c, locals);
  }

  lemma CompoundAmount(b: Bump, w1: string, w2: string, locals: seq<string>)
    requires b.Compound? && WellSpelled(b) && White(w1) && White(w2) && IsLocal(b.x, locals)
    ensures CompoundForm(Joined(b, w1, w2), if b.up then '+' else '-', locals)
      == Some((IndexOf(locals, b.x), Wrap32(Amount(b))))
  {
    hide FindPair, Trim, ParseI32, IsLocal, IsIdentifier, CompoundForm, Joined;
    var n := b.sign + b.digits;
    OperatorFound(b, w1, w2);
    NumeralSolid(b.sign, b.digits);
    NumeralParses(b.sign, b.digits);
    NameTrimmed(b.x, w1);
    TrimDrops(w2, n, "");
    assert n + "" == n;
    ConstantFits(b);
    CompoundFormOf(Joined(b, w1, w2), |b.x + w1|, b.up, b.x, n, Constant(b.sign, b.digits), locals);
  }

  /** A compound form from its parts. */
  lemma CompoundFormOf(c: string, k: nat, up: bool, x: string, n: string, v: i32, locals: seq<string>)
    requires k + 2 <= |c| && FindPair(c, if up then '+' else '-', '=') == k
    requires Trim(c[..k]) == x && Trim(c[k + 2..]) == n && ParseI32(n) == Some(v) && IsLocal(x, locals)
    ensures CompoundForm(c, if up then '+' else '-', locals)
      == Some((IndexOf(locals, x), Wrap32(if up then v else 0 - v)))
  {
    hide FindPair, Trim, ParseI32, IsLocal;
  }

  lemma ConstantFits(b: Bump)
    requires b.Compound? && WellSpelled(b)
    ensures FitsI32(Constant(b.sign, b.digits))
  {
  }

  lemma CompoundRecognised(b: Bump, w1: string, w2: string, locals: seq<string>)
    requires b.Compound? && WellSpelled(b) && White(w1) && White(w2) && IsLocal(b.x, locals)
    ensures var c := Joined(b, w1, w2);
      && PostfixForm(c, locals).None? && PrefixForm(c, locals).None?
      && (!b.up ==> CompoundForm(c, '+', locals).None?)
      && CompoundForm(c, if b.up then '+' else '-', locals) == Some((IndexOf(locals, b.x), Wrap32(Amount(b))))
  {
    hide PostfixForm, PrefixForm, IsLocal, IsIdentifier, ParseI32, Trim, Numeral, Constant;
    CompoundNoStep(b, w1, w2, locals);
    CompoundAmount(b, w1, w2, locals);
    if !b.up { MinusNoPlus(b, w1, w2, locals); }
  }

  lemma MinusNoPlus(b: Bump, w1: string, w2: string, locals: seq<string>)
    requires b.Compound? && !b.up && WellSpelled(b) && White(w1) && White(w2)
    ensures CompoundForm(Joined(b, w1, w2), '+', locals).None?
  {
    OperatorFound(b, w1, w2);
    NumeralSolid(b.sign, b.digits);
    hide IsIdentifier, ParseI32, Trim, Numeral;
    var n := b.sign + b.digits;
    forall i | 0 <= i < |w2 + n| ensures (w2 + n)[i] != '=' {
      assert (w2 + n)[i] == if i < |w2| then w2[i] else n[i - |w2|];
    }
    NoPlus(Joined(b, w1, w2), b.x + w1, w2 + n);
  }

  /** There is no `+=` in a `-=` update. */
  lemma NoPlus(c: string, head: string, tail: string)
    requires c == head + ("-=" + tail)
    requires (forall i :: 0 <= i < |head| ==> c[i] != '+') && forall i :: 0 <= i < |tail| ==> tail[i] != '='
    ensures FindPair(c, '+', '=') == |c|
  {
    var k := |head|;
    forall i | 0 <= i < |c| - 1 ensures !(c[i] == '+' && c[i + 1] == '=') {
      if i >= k + 1 { assert c[i + 1] == tail[i - 1 - k]; }
    }
    NoPair(c, '+', '=');
  }

  lemma Recognised(u: string, b: Bump, locals: seq<string>)
    requires Spells(u, b) && IndexOf(locals, b.x) < |locals|
    ensures IncrementForm(u, locals) == Some((IndexOf(locals, b.x), Wrap32(Amount(b))))
  {
    var w0, w1, w2, w3 :| SpelledWith(u, b, w0, w1, w2, w3);
    TokensTrimmed(u, b, w0, w1, w2, w3);
    if b.Step? {
      assert Joined(b, w1, w2) == Joined(b, w1, "");
      if b.prefix { PrefixRecognised(b, w1, locals); } else { PostfixRecognised(b, w1, locals); }
    } else {
      CompoundRecognised(b, w1, w2, locals);
    }
  }

  // ---- whatever is recognised is a spelled update ----

  /** A name found by trimming one side of a solid text reaches to its edge. */
  lemma NameAtStart(c: string, k: nat) returns (x: string, w: string)
    requires Solid(c) && k <= |c| && IsIdentifier(Trim(c[..k]))
    ensures x == Trim(c[..k]) && White(w) && c[..k] == x + w
  {
    var v;
    v, w := TrimParts(c[..k]);
    x := Trim(c[..k]);
    assert v + (x + w) == x + w;
  }

  lemma NameAtEnd(c: string, k: nat) returns (w: string, x: string)
    requires Solid(c) && k <= |c| && Trim(c[k..]) != ""
    ensures x == Trim(c[k..]) && White(w) && c[k..] == w + x
  {
    var v;
    w, v := TrimParts(c[k..]);
    x := Trim(c[k..]);
    assert x + v == x;
  }

  lemma PostfixSpelled(c: string, locals: seq<string>) returns (b: Bump, w1: string)
    requires Solid(c) && PostfixForm(c, locals).Some?
    ensures b.Step? && WellSpelled(b) && White(w1) && c == Joined(b, w1, "") && IndexOf(locals, b.x) < |locals|
  {
    var k, mark := |c| - 2, c[|c| - 2..];
    var x;
    x, w1 := NameAtStart(c, k);
    b := Step(x, mark == "++", false);
    assert c == c[..k] + mark;
    assert c == x + (w1 + mark);
  }

  lemma PrefixSpelled(c: string, locals: seq<string>) returns (b: Bump, w1: string)
    requires Solid(c) && PrefixForm(c, locals).Some?
    ensures b.Step? && WellSpelled(b) && White(w1) && c == Joined(b, w1, "") && IndexOf(locals, b.x) < |locals|
  {
    PrefixParts(c, locals);
    hide IsIdentifier, PrefixForm, Trim;
    var x;
    w1, x := NameAtEnd(c, 2);
    b := Step(x, c[..2] == "++", true);
    assert c == c[..2] + c[2..];
  }

  lemma PrefixParts(c: string, locals: seq<string>)
    requires PrefixForm(c, locals).Some?
    ensures |c| >= 2 && (c[..2] == "++" || c[..2] == "--") && Trim(c[2..]) != ""
    ensures IsIdentifier(Trim(c[2..])) && IndexOf(locals, Trim(c[2..])) < |locals|
  {
  }

  lemma ParsedNotEmpty(s: string)
    requires ParseI32(s).Some?
    ensures s != ""
  {
  }

  lemma CompoundSpelled(c: string, up: bool, locals: seq<string>) returns (b: Bump, w1: string, w2: string)
    requires Solid(c) && CompoundForm(c, if up then '+' else '-', locals).Some?
    ensures b.Compound? && WellSpelled(b) && White(w1) && White(w2) && c == Joined(b, w1, w2)
    ensures IndexOf(locals, b.x) < |locals|
  {
    var k := FindPair(c, if up then '+' else '-', '=');
    ParsedNotEmpty(Trim(c[k + 2..]));
    var x, n;
    x, w1 := NameAtStart(c, k);
    w2, n := NameAtEnd(c, k + 2);
    b := CompoundFrom(c, k, up, x, w1, w2, n);
  }

  lemma CompoundFrom(c: string, k: nat, up: bool, x: string, w1: string, w2: string, n: string) returns (b: Bump)
    requires k + 1 < |c| && c[k] == (if up then '+' else '-') && c[k + 1] == '=' && c[..k] == x + w1 && c[k + 2..] == w2 + n
    requires IsIdentifier(x) && ParseI32(n).Some?
    ensures b.Compound? && b.x == x && WellSpelled(b) && c == Joined(b, w1, w2)
  {
    hide IsIdentifier, ParseI32, Numeral;
    var sign, digits := ParsedNumeral(n);
    b := Compound(x, up, sign, digits);
    assert c[k..k + 2] == Operator(up);
    Three(c, k, x + w1, Operator(up), w2 + n);
    Regroup(x, w1, Operator(up) + (w2 + n));
  }

  lemma Three(c: string, k: nat, a: string, m: string, b: string)
    requires k + 2 <= |c| && c[..k] == a && c[k..k + 2] == m && c[k + 2..] == b
    ensures c == a + (m + b)
  {
    assert c == c[..k] + (c[k..k + 2] + c[k + 2..]);
  }

  lemma Regroup(a: string, b: string, c: string)
    ensures (a + b) + c == a + (b + c)
  {
  }

  lemma SpelledAround(u: string, b: Bump, w1: string, w2: string)
    requires WellSpelled(b) && White(w1) && White(w2) && Trim(u) == Joined(b, w1, w2)
    ensures Spells(u, b)
  {
    var w0, w3 := TrimParts(u);
    assert SpelledWith(u, b, w0, w1, w2, w3);
  }

  lemma WhatIsRecognised(u: string, locals: seq<string>) returns (b: Bump)
    requires IncrementForm(u, locals).Some?
    ensures Spells(u, b) && IndexOf(locals, b.x) < |locals|
  {
    var c := Trim(u);
    var _, _ := TrimParts(u);
    var w1, w2 := "", "";
    if PostfixForm(c, locals).Some? {
      b, w1 := PostfixSpelled(c, locals);
    } else if PrefixForm(c, locals).Some? {
      b, w1 := PrefixSpelled(c, locals);
    } else {
      b, w1, w2 := CompoundSpelled(c, CompoundForm(c, '+', locals).Some?, locals);
    }
    SpelledAround(u, b, w1, w2);
  }

  /** For every text: the compiler makes one increment of it if and only if it spells an update of a local, and then
      of that local, by the amount it spells, cut to 32 bits. */
  lemma IncrementFormIs(u: string, locals: seq<string>, slot: nat, amount: i32)
    ensures IncrementForm(u, locals) == Some((slot, amount)) <==>
      exists b :: Spells(u, b) && slot == IndexOf(locals, b.x) < |locals| && amount == Wrap32(Amount(b))
  {
    if IncrementForm(u, locals) == Some((slot, amount)) {
      var b := WhatIsRecognised(u, locals);
      Recognised(u, b, locals);
    }
    if b :| Spells(u, b) && slot == IndexOf(locals, b.x) < |locals| && amount == Wrap32(Amount(b)) {
      Recognised(u, b, locals);
    }
  }
}
