/** Source texts of trees: which of them are read back, what becomes of the characters of string literals, and how
    any string can be written. */
module Literals {
  import opened Values
  import opened Syntax
  import opened Texts
  import opened Lexer
  import opened Grammar
  import opened Printer
  import opened Utf8
  import opened Arithmetic
  import Radix

  // ---- trees with their literals read byte by byte ----

  function BytewiseLiteral(lit: Literal): Literal {
    if lit.Text? then Text(AsRead(lit.s)) else lit
  }

  /** The tree with each string literal replaced by what its bytes read as. */
  function Bytewise(e: Expr): Expr
    decreases e
  {
    match e
    case Lit(lit) => Lit(BytewiseLiteral(lit))
    case Name(x) => e
    case Global(x) => e
    case Assign(x, e1) => Assign(x, Bytewise(e1))
    case Update(x, op, e1) => Update(x, op, Bytewise(e1))
    case Sequence(l, r) => Sequence(Bytewise(l), Bytewise(r))
    case Cond(c, a, b) => Cond(Bytewise(c), Bytewise(a), Bytewise(b))
    case Binop(op, l, r) => Binop(op, Bytewise(l), Bytewise(r))
    case Unop(op, e1) => Unop(op, Bytewise(e1))
    case Apply(fn, args) => Apply(Bytewise(fn), BytewiseArgs(args))
    case Invoke(o, name, args) => Invoke(Bytewise(o), name, BytewiseArgs(args))
  }

  function BytewiseArgs(args: Args): Args
    decreases args
  {
    match args
    case NoArgs => NoArgs
    case Snoc(init, last) => Snoc(BytewiseArgs(init), Bytewise(last))
  }

  predicate AsciiLiteral(lit: Literal) {
    lit.Text? ==> Ascii(lit.s)
  }

  /** Every string literal in the tree is ASCII. */
  predicate AsciiLiterals(e: Expr)
    decreases e
  {
    match e
    case Lit(lit) => AsciiLiteral(lit)
    case Name(_) => true
    case Global(_) => true
    case Assign(_, e1) => AsciiLiterals(e1)
    case Update(_, _, e1) => AsciiLiterals(e1)
    case Sequence(l, r) => AsciiLiterals(l) && AsciiLiterals(r)
    case Cond(c, a, b) => AsciiLiterals(c) && AsciiLiterals(a) && AsciiLiterals(b)
    case Binop(_, l, r) => AsciiLiterals(l) && AsciiLiterals(r)
    case Unop(_, e1) => AsciiLiterals(e1)
    case Apply(fn, args) => AsciiLiterals(fn) && AsciiArgs(args)
    case Invoke(o, _, args) => AsciiLiterals(o) && AsciiArgs(args)
  }

  predicate AsciiArgs(args: Args)
    decreases args
  {
    args.Snoc? ==> AsciiArgs(args.init) && AsciiLiterals(args.last)
  }

  /** Reading byte by byte leaves a tree as it is if and only if its literals are ASCII. */
  lemma {:induction false} BytewiseSame(e: Expr)
    ensures Bytewise(e) == e <==> AsciiLiterals(e)
    decreases e
  {
    match e
    case Lit(lit) => if lit.Text? { AsReadSame(lit.s); }
    case Name(_) =>
    case Global(_) =>
    case Assign(_, e1) => BytewiseSame(e1);
    case Update(_, _, e1) => BytewiseSame(e1);
    case Sequence(l, r) => BytewiseSame(l); BytewiseSame(r);
    case Cond(c, a, b) => BytewiseSame(c); BytewiseSame(a); BytewiseSame(b);
    case Binop(_, l, r) => BytewiseSame(l); BytewiseSame(r);
    case Unop(_, e1) => BytewiseSame(e1);
    case Apply(fn, args) => BytewiseSame(fn); BytewiseSameArgs(args);
    case Invoke(o, _, args) => BytewiseSame(o); BytewiseSameArgs(args);
  }

  lemma {:induction false} BytewiseSameArgs(args: Args)
    ensures BytewiseArgs(args) == args <==> AsciiArgs(args)
    decreases args
  {
    if args.Snoc? {
      BytewiseSameArgs(args.init);
      BytewiseSame(args.last);
    }
  }

  lemma {:induction false} BytewisePrintable(num: Numbers, scope: seq<string>, e: Expr)
    requires Printable(num, scope, e)
    ensures Printable(num, scope, Bytewise(e))
    decreases e
  {
    match e
    case Lit(_) =>
    case Name(_) =>
    case Global(_) =>
    case Assign(_, e1) => BytewisePrintable(num, scope, e1);
    case Update(_, _, e1) => BytewisePrintable(num, scope, e1);
    case Sequence(l, r) => BytewisePrintable(num, scope, l); BytewisePrintable(num, scope, r);
    case Cond(c, a, b) =>
      BytewisePrintable(num, scope, c); BytewisePrintable(num, scope, a); BytewisePrintable(num, scope, b);
    case Binop(_, l, r) => BytewisePrintable(num, scope, l); BytewisePrintable(num, scope, r);
    case Unop(_, e1) => BytewisePrintable(num, scope, e1);
    case Apply(fn, args) => BytewisePrintable(num, scope, fn); BytewisePrintableArgs(num, scope, args);
    case Invoke(o, _, args) => BytewisePrintable(num, scope, o); BytewisePrintableArgs(num, scope, args);
  }

  lemma {:induction false} BytewisePrintableArgs(num: Numbers, scope: seq<string>, args: Args)
    requires AllPrintable(num, scope, args)
    ensures AllPrintable(num, scope, BytewiseArgs(args))
    decreases args
  {
    if args.Snoc? {
      BytewisePrintableArgs(num, scope, args.init);
      BytewisePrintable(num, scope, args.last);
    }
  }

  // ---- the print of a tree, byte by byte ----

  lemma {:induction false} QuotedConcat(a: string, b: string)
    ensures Quoted(a + b) == Quoted(a) + Quoted(b)
    decreases |a|
  {
    if a == "" {
      assert a + b == b;
    } else {
      assert (a + b)[1..] == a[1..] + b;
      QuotedConcat(a[1..], b);
    }
  }

  /** Bytes above ASCII need no escape. */
  lemma {:induction false} QuotedHigh(s: string)
    requires forall i :: 0 <= i < |s| ==> !AsciiChar(s[i])
    ensures Quoted(s) == s
    decreases |s|
  {
    if s != "" {
      QuotedHigh(s[1..]);
      assert s == [s[0]] + s[1..];
    }
  }

  lemma QuotedLatin(c: char)
    ensures Quoted(Latin(Encoded(c))) == AsRead(QuotedChar(c))
  {
    var b := Latin(Encoded(c));
    if AsciiChar(c) {
      LatinAscii(c);
      assert [c][1..] == "";
      AsReadSame(QuotedChar(c));
    } else {
      QuotedHigh(b);
      assert QuotedChar(c) == [c] && [c][1..] == "";
      AsReadCons([c]);
      assert b + "" == b;
    }
  }

  lemma {:induction false} QuotedAsRead(s: string)
    ensures AsRead(Quoted(s)) == Quoted(AsRead(s))
    decreases |s|
  {
    if s != "" {
      QuotedAsRead(s[1..]);
      AsReadCons(s);
      QuotedConcat(Latin(Encoded(s[0])), AsRead(s[1..]));
      AsReadConcat(QuotedChar(s[0]), Quoted(s[1..]));
      QuotedLatin(s[0]);
    }
  }

  /** A text between two ASCII texts. */
  lemma AsReadMiddle(a: string, s: string, b: string)
    requires Ascii(a) && Ascii(b)
    ensures AsRead(a + (s + b)) == a + (AsRead(s) + b)
  {
    AsReadConcat(a, s + b);
    AsReadConcat(s, b);
    AsReadSame(a);
    AsReadSame(b);
  }

  /** A text, an ASCII text, and another. */
  lemma AsReadAround(s: string, a: string, t: string)
    requires Ascii(a)
    ensures AsRead(s + (a + t)) == AsRead(s) + (a + AsRead(t))
  {
    AsReadConcat(s, a + t);
    AsReadConcat(a, t);
    AsReadSame(a);
  }

  lemma IdentifierAscii(x: string)
    requires IsIdentifier(x)
    ensures Ascii(x)
  {
  }

  lemma {:induction false} DigitsAscii(s: string, p: nat)
    requires p <= |s|
    ensures forall i :: p <= i < SkipDigits(s, p) ==> AsciiChar(s[i])
    decreases |s| - p
  {
    if p < |s| && IsDigit(s[p]) { DigitsAscii(s, p + 1); }
  }

  lemma NumberAscii(num: Numbers, s: string)
    requires IsNumberText(num, s)
    ensures Ascii(s)
  {
    var u := s + ")";
    forall p | 0 <= p <= |u| ensures forall i :: p <= i < SkipDigits(u, p) ==> AsciiChar(u[i]) { DigitsAscii(u, p); }
    assert forall i :: 0 <= i < |s| ==> s[i] == u[i];
  }

  lemma {:induction false} AtomAsRead(num: Numbers, scope: seq<string>, e: Expr)
    requires Printable(num, scope, e)
    ensures AsRead(Atom(e)) == Atom(Bytewise(e))
    decreases e, 2
  {
    BodyAsRead(num, scope, e);
    AsReadMiddle("(", Body(e), ")");
  }

  lemma LiteralAsRead(num: Numbers, lit: Literal)
    requires lit.Number? ==> IsNumberText(num, lit.lexeme)
    ensures AsRead(LiteralText(lit)) == LiteralText(BytewiseLiteral(lit))
  {
    match lit
    case Number(s) => NumberAscii(num, s); AsReadSame(s);
    case Text(s) => AsReadMiddle("\"", Quoted(s), "\""); QuotedAsRead(s);
    case _ => AsReadSame(LiteralText(lit));
  }

  lemma {:induction false} BodyAsRead(num: Numbers, scope: seq<string>, e: Expr)
    requires Printable(num, scope, e)
    ensures AsRead(Body(e)) == Body(Bytewise(e))
    decreases e, 1
  {
    hide AsRead, IsIdentifier, Atom;
    match e
    case Lit(lit) => LiteralAsRead(num, lit);
    case Name(x) => IdentifierAscii(x); AsReadSame(x);
    case Global(x) => AsReadSame(x);
    case Assign(x, e1) => PrefixAsRead(num, scope, x, "=", e1);
    case Update(x, op, e1) => PrefixAsRead(num, scope, x, if op == Add then "+=" else "-=", e1);
    case Sequence(l, r) => PairAsRead(num, scope, l, ",", r);
    case Cond(_, _, _) => CondAsRead(num, scope, e);
    case Binop(_, _, _) => BinopAsRead(num, scope, e);
    case Unop(_, _) => UnopAsRead(num, scope, e);
    case Apply(_, _) => ApplyAsRead(num, scope, e);
    case Invoke(_, _, _) => InvokeAsRead(num, scope, e);
  }

  lemma {:induction false} PrefixAsRead(num: Numbers, scope: seq<string>, x: string, sign: string, e: Expr)
    requires IsIdentifier(x) && Ascii(sign) && Printable(num, scope, e)
    ensures AsRead(x + (sign + Atom(e))) == x + (sign + Atom(Bytewise(e)))
    decreases e, 3
  {
    AtomAsRead(num, scope, e);
    IdentifierAscii(x);
    AsReadAround(x, sign, Atom(e));
    AsReadSame(x);
  }

  lemma {:induction false} PairAsRead(num: Numbers, scope: seq<string>, l: Expr, sign: string, r: Expr)
    requires Ascii(sign) && Printable(num, scope, l) && Printable(num, scope, r)
    ensures AsRead(Atom(l) + (sign + Atom(r))) == Atom(Bytewise(l)) + (sign + Atom(Bytewise(r)))
    decreases Sequence(l, r), 0
  {
    hide AsRead, Atom, Bytewise, Printable, Ascii;
    AtomAsRead(num, scope, l);
    AtomAsRead(num, scope, r);
    AsReadAround(Atom(l), sign, Atom(r));
  }

  lemma {:induction false} CondAsRead(num: Numbers, scope: seq<string>, e: Expr)
    requires e.Cond? && Printable(num, scope, e)
    ensures AsRead(Body(e)) == Body(Bytewise(e))
    decreases e, 0
  {
    AtomAsRead(num, scope, e.c);
    AtomAsRead(num, scope, e.t);
    AtomAsRead(num, scope, e.f);
    AsReadAround(Atom(e.t), ":", Atom(e.f));
    AsReadAround(Atom(e.c), "?", Atom(e.t) + (":" + Atom(e.f)));
  }

  lemma OperatorAscii(op: BinOp)
    ensures Ascii(OpText(op))
  {
  }

  lemma {:induction false} BinopAsRead(num: Numbers, scope: seq<string>, e: Expr)
    requires e.Binop? && Printable(num, scope, e)
    ensures AsRead(Body(e)) == Body(Bytewise(e))
    decreases e, 0
  {
    AtomAsRead(num, scope, e.l);
    AtomAsRead(num, scope, e.r);
    if e.op2.Infix? {
      OperatorAscii(e.op2.bop);
      AsReadAround(Atom(e.l), OpText(e.op2.bop), Atom(e.r));
    } else {
      AsReadMiddle("[", Atom(e.r), "]");
      AsReadConcat(Atom(e.l), "[" + (Atom(e.r) + "]"));
    }
  }

  lemma {:induction false} UnopAsRead(num: Numbers, scope: seq<string>, e: Expr)
    requires e.Unop? && Printable(num, scope, e)
    ensures AsRead(Body(e)) == Body(Bytewise(e))
    decreases e, 0
  {
    AtomAsRead(num, scope, e.e);
    if e.op1.Member? {
      IdentifierAscii(e.op1.name);
      AsReadAround(Atom(e.e), ".", e.op1.name);
      AsReadSame(e.op1.name);
    } else {
      AsReadConcat(SignText(e.op1), Atom(e.e));
      AsReadSame(SignText(e.op1));
    }
  }

  lemma {:induction false} ApplyAsRead(num: Numbers, scope: seq<string>, e: Expr)
    requires e.Apply? && Printable(num, scope, e)
    ensures AsRead(Body(e)) == Body(Bytewise(e))
    decreases e, 0
  {
    AtomAsRead(num, scope, e.fn);
    ArgsAsRead(num, scope, e.args);
    AsReadMiddle("(", ArgsText(e.args), ")");
    AsReadConcat(Atom(e.fn), "(" + (ArgsText(e.args) + ")"));
  }

  lemma {:induction false} InvokeAsRead(num: Numbers, scope: seq<string>, e: Expr)
    requires e.Invoke? && Printable(num, scope, e)
    ensures AsRead(Body(e)) == Body(Bytewise(e))
    decreases e, 0
  {
    AtomAsRead(num, scope, e.o);
    ArgsAsRead(num, scope, e.args);
    var call := "(" + (ArgsText(e.args) + ")");
    AsReadMiddle("(", ArgsText(e.args), ")");
    IdentifierAscii(e.name);
    AsReadConcat(e.name, call);
    AsReadSame(e.name);
    AsReadAround(Atom(e.o), ".", e.name + call);
  }

  lemma {:induction false} ArgsAsRead(num: Numbers, scope: seq<string>, args: Args)
    requires AllPrintable(num, scope, args)
    ensures AsRead(ArgsText(args)) == ArgsText(BytewiseArgs(args))
    decreases args, 0
  {
    if args.NoArgs? {
      AsReadSame("");
    } else {
      AtomAsRead(num, scope, args.last);
      if args.init.Snoc? {
        ArgsAsRead(num, scope, args.init);
        AsReadAround(ArgsText(args.init), ",", Atom(args.last));
      }
    }
  }

  // ---- the round trip ----

  /** The print of a printable tree denotes the tree with its literals read byte by byte. */
  lemma PrintReads(num: Numbers, scope: seq<string>, e: Expr)
    requires Printable(num, scope, e)
    ensures Full(num, scope, Atom(e)) == Some(Bytewise(e))
  {
    AtomAsRead(num, scope, e);
    BytewisePrintable(num, scope, e);
    ReadsBack(num, scope, Bytewise(e));
  }

  /** Printing and reading give the tree back if and only if its string literals are ASCII. */
  lemma RoundTrip(num: Numbers, scope: seq<string>, e: Expr)
    requires Printable(num, scope, e)
    ensures Full(num, scope, Atom(e)) == Some(e) <==> AsciiLiterals(e)
  {
    PrintReads(num, scope, e);
    BytewiseSame(e);
  }

  /** The literal `"é"` denotes two characters, U+00C3 and U+00A9. */
  lemma AccentSplits(num: Numbers, scope: seq<string>)
    ensures Full(num, scope, "(\"\U{00E9}\")") == Some(Lit(Text("\U{00C3}\U{00A9}")))
  {
    var s := "\U{00E9}";
    assert s[1..] == "" && Quoted(s) == s;
    assert Atom(Lit(Text(s))) == "(\"\U{00E9}\")";
    PrintReads(num, scope, Lit(Text(s)));
    AsReadCons(s);
    assert Encoded(s[0]) == [0xC3, 0xA9];
    assert AsRead(s) == "\U{00C3}\U{00A9}";
  }

  // ---- writing any string ----

  /** A character as a literal can hold it: the named escapes, `\\u{...}` above ASCII, and the character itself. */
  function Escaping(c: char): string {
    if c == '\n' then "\\n"
    else if c == '\r' then "\\r"
    else if c == '\t' then "\\t"
    else if c == '\U{0008}' then "\\b"
    else if c == '\U{000C}' then "\\f"
    else if c == '\U{000B}' then "\\v"
    else if c == '\0' then "\\0"
    else if c == '"' || c == '\\' || c == '\'' then ['\\', c]
    else if AsciiChar(c) then [c]
    else "\\u{" + Radix.Places(c as int, 16) + "}"
  }

  function Escaped(s: string): string {
    if s == "" then "" else Escaping(s[0]) + Escaped(s[1..])
  }

  lemma {:induction false} HexDigitsMean(s: string)
    requires s != "" && Radix.AllDigits(s, 16)
    ensures HexDigits(s) == Some(Radix.Magnitude(s, 16))
    decreases |s|
  {
    var d := s[|s| - 1];
    assert Radix.IsDigit(d, 16);
    if |s| == 1 {
      assert s[..0] == "";
    } else {
      HexDigitsMean(s[..|s| - 1]);
    }
  }

  lemma {:induction false} ToBrace(t: string, p: nat, w: string)
    requires LookingAt(t, p, w + "}") && Radix.AllDigits(w, 16)
    ensures SkipToBrace(t, p) == p + |w|
    decreases |w|
  {
    CharAt(t, p, w + "}", 0);
    if w != "" {
      assert Radix.IsDigit(w[0], 16);
      assert w + "}" == [w[0]] + (w[1..] + "}");
      Split(t, p, [w[0]], w[1..] + "}");
      ToBrace(t, p + 1, w[1..]);
    }
  }

  /** `\\u{...}` with the code point of a character in hexadecimal stands for that character. */
  lemma CodePointEscape(t: string, p: nat, c: char)
    requires c as int > 0 && LookingAt(t, p, "u{" + (Radix.Places(c as int, 16) + "}"))
    ensures Escape(t, p) == ([c], p + 2 + |Radix.Places(c as int, 16)|)
  {
    hide Radix.Places, LookingAt, HexDigits;
    var w := Radix.Places(c as int, 16);
    Split(t, p, "u{", w + "}");
    Split(t, p + 2, w, "}");
    CharAt(t, p, "u{", 0);
    CharAt(t, p, "u{", 1);
    HexOfChar(c);
    ToBrace(t, p + 2, w);
    Stands(t, p + 2, w);
  }

  lemma Stands(t: string, p: nat, w: string)
    requires LookingAt(t, p, w)
    ensures p + |w| <= |t| && t[p..p + |w|] == w
  {
  }

  lemma HexOfChar(c: char)
    requires c as int > 0
    ensures var w := Radix.Places(c as int, 16); Radix.AllDigits(w, 16) && ParseHex(w) == Some(c as nat)
  {
    var w := Radix.Places(c as int, 16);
    Radix.PlacesMean(c as int, 16);
    HexDigitsMean(w);
    assert Radix.IsLower(w[0], 16);
  }

  /** The escapes of one letter and the code of the character each stands for. */
  lemma LetterEscape(t: string, p: nat)
    requires p < |t|
    ensures t[p] == 'b' ==> Escape(t, p) == ([8 as char], p)
    ensures t[p] == 't' ==> Escape(t, p) == ([9 as char], p)
    ensures t[p] == 'n' ==> Escape(t, p) == ([10 as char], p)
    ensures t[p] == 'v' ==> Escape(t, p) == ([11 as char], p)
    ensures t[p] == 'f' ==> Escape(t, p) == ([12 as char], p)
    ensures t[p] == 'r' ==> Escape(t, p) == ([13 as char], p)
    ensures t[p] == '0' ==> Escape(t, p) == ([0 as char], p)
    ensures t[p] == '\\' || t[p] == '"' || t[p] == '\'' ==> Escape(t, p) == ([t[p]], p)
  {
    hide ParseHex, SkipToBrace;
  }

  /** `\\xHH` and `\\uHHHH` stand for the character with that number; a surrogate stands for nothing. */
  lemma FixedEscape(t: string, p: nat, w: string)
    requires p < |t| && (t[p] == 'x' || t[p] == 'u') && |w| == (if t[p] == 'x' then 2 else 4)
    requires LookingAt(t, p + 1, w) && Radix.AllDigits(w, 16)
    ensures var n := Radix.Magnitude(w, 16);
      n < 0x1_0000 && Escape(t, p) == (if 0xD800 <= n < 0xE000 then "" else [n as char], p + |w|)
  {
    Stands(t, p + 1, w);
    HexDigitsMean(w);
    assert Radix.IsDigit(w[0], 16);
    FixedMagnitude(w);
    hide HexDigits, Radix.Magnitude, Radix.AllDigits, LookingAt;
    assert ParseHex(w) == Some(Radix.Magnitude(w, 16));
  }

  lemma {:induction false} FixedMagnitude(w: string)
    requires Radix.AllDigits(w, 16) && |w| <= 4
    ensures Radix.Magnitude(w, 16) < if |w| == 0 then 1 else if |w| == 1 then 0x10 else if |w| == 2 then 0x100
                                     else if |w| == 3 then 0x1000 else 0x1_0000
  {
    if w != "" { FixedMagnitude(w[..|w| - 1]); }
  }

  lemma PlainReads(t: string, p: nat, c: char, acc: string)
    requires Looking(t, p, c) && c != '"' && c != '\\'
    ensures ScanString(t, p, '"', acc) == ScanString(t, p + 1, '"', acc + [c])
  {
  }

  lemma NamedReads(t: string, p: nat, letter: char, c: char, acc: string)
    requires Looking(t, p, '\\') && Looking(t, p + 1, letter) && Escaping(c) == ['\\', letter]
    ensures ScanString(t, p, '"', acc) == ScanString(t, p + 2, '"', acc + [c])
  {
    hide Radix.Places;
    assert Escape(t, p + 1) == ([c], p + 1);
  }

  lemma CodePointReads(t: string, p: nat, c: char, acc: string)
    requires c as int > 0 && LookingAt(t, p, "\\" + ("u{" + (Radix.Places(c as int, 16) + "}")))
    ensures ScanString(t, p, '"', acc) == ScanString(t, p + 4 + |Radix.Places(c as int, 16)|, '"', acc + [c])
  {
    hide Radix.Places, LookingAt, Escape;
    var w := "u{" + (Radix.Places(c as int, 16) + "}");
    Split(t, p, "\\", w);
    CharAt(t, p, "\\", 0);
    CharAt(t, p + 1, w, 0);
    CodePointEscape(t, p + 1, c);
  }

  lemma EscapingReads(t: string, p: nat, c: char, acc: string)
    requires LookingAt(t, p, Escaping(c))
    ensures ScanString(t, p, '"', acc) == ScanString(t, p + |Escaping(c)|, '"', acc + [c])
  {
    hide Radix.Places, LookingAt, ScanString;
    var w := Escaping(c);
    CharAt(t, p, w, 0);
    if |w| == 1 {
      PlainReads(t, p, c, acc);
    } else if |w| == 2 {
      CharAt(t, p, w, 1);
      NamedReads(t, p, w[1], c, acc);
    } else {
      assert w == "\\" + ("u{" + (Radix.Places(c as int, 16) + "}"));
      CodePointReads(t, p, c, acc);
    }
  }

  lemma {:induction false} EscapedReads(t: string, p: nat, s: string, acc: string)
    requires LookingAt(t, p, Escaped(s) + "\"")
    ensures ScanString(t, p, '"', acc) == Token(acc + s, p + |Escaped(s)| + 1)
    decreases |s|
  {
    hide Escaping, ScanString;
    if s == "" {
      EmptyReads(t, p, acc);
      assert acc + s == acc;
    } else {
      var w, more := Escaping(s[0]), Escaped(s[1..]) + "\"";
      assert Escaped(s) + "\"" == w + more;
      Split(t, p, w, more);
      EscapingReads(t, p, s[0], acc);
      EscapedReads(t, p + |w|, s[1..], acc + [s[0]]);
      assert acc + [s[0]] + s[1..] == acc + s;
    }
  }

  lemma EmptyReads(t: string, p: nat, acc: string)
    requires LookingAt(t, p, "\"")
    ensures ScanString(t, p, '"', acc) == Token(acc, p + 1)
  {
    CharAt(t, p, "\"", 0);
  }

  lemma EscapingAscii(c: char)
    ensures Ascii(Escaping(c))
  {
    hide Radix.Places;
    if !AsciiChar(c) { HexAscii(c as int); }
  }

  lemma HexAscii(n: nat)
    ensures Ascii(Radix.Places(n, 16))
  {
    var h := Radix.Places(n, 16);
    Radix.PlacesMean(n, 16);
    forall i | 0 <= i < |h| ensures AsciiChar(h[i]) { assert Radix.IsLower(h[i], 16); }
  }

  lemma {:induction false} EscapedAscii(s: string)
    ensures Ascii(Escaped(s))
    decreases |s|
  {
    if s != "" {
      EscapingAscii(s[0]);
      EscapedAscii(s[1..]);
    }
  }

  /** Every string whatsoever can be written as a literal, and is read back as itself. */
  lemma EveryStringHasALiteral(num: Numbers, scope: seq<string>, s: string)
    ensures Full(num, scope, "(\"" + (Escaped(s) + "\")")) == Some(Lit(Text(s)))
  {
    var t := "(\"" + (Escaped(s) + "\")");
    EscapedAscii(s);
    AsReadSame(t);
    EscapedLiteral(num, scope, t, s);
  }

  lemma EscapedLiteral(num: Numbers, scope: seq<string>, t: string, s: string)
    requires t == "(\"" + (Escaped(s) + "\")")
    ensures Whole(num, scope, t) == Some(Lit(Text(s)))
  {
    hide Escaped, LookingAt, ScanString, Whole;
    QuotesStand(t, Escaped(s));
    EscapedReads(t, 2, s, "");
    assert "" + s == s;
    LiteralBetween(num, scope, t, Lit(Text(s)), |t| - 1);
  }

  /** The letters that an escape can begin with. */
  predicate EscapeLetter(c: char) {
    c in "nrtbfv\\'\"0xu"
  }

  /** A backslash stands for itself if and only if no such letter follows. */
  lemma UnknownEscape(t: string, p: nat)
    requires p < |t|
    ensures Escape(t, p) == (['\\', t[p]], p) <==> !EscapeLetter(t[p])
  {
    hide ParseHex, SkipToBrace;
  }

  /** So the literal `"\\q"` is a string of two characters. */
  lemma UnknownEscapeKept(num: Numbers, scope: seq<string>, c: char)
    requires AsciiChar(c) && !EscapeLetter(c)
    ensures Full(num, scope, "(\"" + (['\\', c] + "\")")) == Some(Lit(Text(['\\', c])))
  {
    var body := ['\\', c];
    var t := "(\"" + (body + "\")");
    assert Ascii(t);
    AsReadSame(t);
    QuotesStand(t, body);
    UnknownReads(t, c);
    hide *;
    LiteralBetween(num, scope, t, Lit(Text(body)), |t| - 1);
  }

  lemma UnknownReads(t: string, c: char)
    requires t == "(\"" + (['\\', c] + "\")") && !EscapeLetter(c)
    ensures ScanString(t, 2, '"', "") == Token(['\\', c], 5)
  {
    assert t[2] == '\\' && t[3] == c && t[4] == '"';
    UnknownEscape(t, 3);
    hide Escape;
    assert "" + ['\\', c] == ['\\', c];
    assert ScanString(t, 4, '"', ['\\', c]) == Token(['\\', c], 5);
  }

  lemma QuotesStand(t: string, body: string)
    requires t == "(\"" + (body + "\")")
    ensures Looking(t, 0, '(') && Looking(t, 1, '"') && LookingAt(t, 2, body + "\"") && Looking(t, |t| - 1, ')')
    ensures |body| + 4 == |t|
  {
    var w := body + "\"";
    assert t[2..2 + |w|] == w;
  }

  lemma Itself(t: string)
    ensures LookingAt(t, 0, t)
  {
    assert t[0..|t|] == t;
  }

  lemma LiteralBetween(num: Numbers, scope: seq<string>, t: string, e: Expr, q: nat)
    requires q + 1 == |t| && Looking(t, 0, '(') && Looking(t, q, ')') && Looking(t, 1, '"')
    requires e.Lit? && e.lit.Text? && ScanString(t, 2, '"', "") == Token(e.lit.s, q)
    ensures Whole(num, scope, t) == Some(e)
  {
    hide ScanString;
    assert Primary(num, scope, t, 1) == Got(e, q);
    PrimaryToSum(num, scope, t, 1, e, q);
    SumToAssignment(num, scope, t, 1);
    Closed(num, scope, t, 1, e, q);
    ConditionalToComma(num, scope, t, 1, e, q);
    EnclosedAt(num, scope, t, 0, e, q);
    WholeAtom(num, scope, t, e);
  }
}
