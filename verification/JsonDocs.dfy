/** JSON documents as their grammar has them, white space and escapes included (RFC 8259, sections 2 to 7), and that the
    reader takes exactly these and gives their values. */
module JsonDocs {
  import opened Values
  import opened Texts
  import opened JsonText
  import opened JsonNumbers
  import Lexer
  import Radix
  import PropertyNames

  /** What stands for one character of a string: itself, a letter escape, or one or two Unicode escapes. */
  datatype Piece = Plain(c: char) | Short(c: char) | Unit(hex: string) | Pair(high: string, low: string)

  datatype Doc =
    | Word(val: Json)
    | Number(s: string)
    | Text(pieces: seq<Piece>)
    | EmptyArray(blank: string)
    | Items(items: Elements)
    | EmptyObject(blank: string)
    | Props(fields: Fields)

  /** A value with the white space around it. */
  datatype Element = Element(before: string, doc: Doc, after: string)

  datatype Elements = One(e: Element) | Then(e: Element, rest: Elements)

  datatype Field = Field(before: string, key: seq<Piece>, mid: string, e: Element)

  datatype Fields = OneField(f: Field) | ThenField(f: Field, rest: Fields)

  // ---- the grammar ----

  predicate Hex(s: string) {
    |s| == 4 && Radix.AllDigits(s, 16)
  }

  function Code(s: string): (n: nat)
    requires Hex(s)
    ensures n < 0x1_0000
  {
    assert s[0..4] == s;
    Hex4Means(s, 0);
    Radix.Magnitude(s, 16)
  }

  predicate GoodPiece(p: Piece) {
    match p
    case Plain(c) => c != '"' && c != '\\' && c as int >= 0x20
    case Short(c) => c in "\"\\/bfnrt"
    case Unit(hex) => Hex(hex) && !(0xD800 <= Code(hex) <= 0xDFFF)
    case Pair(high, low) => Hex(high) && Hex(low) && 0xD800 <= Code(high) <= 0xDBFF && 0xDC00 <= Code(low) <= 0xDFFF
  }

  predicate GoodString(s: seq<Piece>) {
    forall i :: 0 <= i < |s| ==> GoodPiece(s[i])
  }

  predicate Blank(s: string) {
    forall i :: 0 <= i < |s| ==> IsSpace(s[i])
  }

  ghost predicate Good(d: Doc) {
    match d
    case Word(v) => v == Json.Null || v.Bool?
    case Number(s) => NumberText(s)
    case Text(pieces) => GoodString(pieces)
    case EmptyArray(blank) => Blank(blank)
    case Items(items) => GoodElements(items)
    case EmptyObject(blank) => Blank(blank)
    case Props(fields) => GoodFields(fields)
  }

  ghost predicate GoodElement(e: Element) {
    Blank(e.before) && Good(e.doc) && Blank(e.after)
  }

  ghost predicate GoodElements(es: Elements) {
    GoodElement(es.e) && (es.Then? ==> GoodElements(es.rest))
  }

  ghost predicate GoodField(f: Field) {
    Blank(f.before) && GoodString(f.key) && Blank(f.mid) && GoodElement(f.e)
  }

  ghost predicate GoodFields(fs: Fields) {
    GoodField(fs.f) && (fs.ThenField? ==> GoodFields(fs.rest))
  }

  // ---- its texts ----

  function PieceText(p: Piece): string {
    match p
    case Plain(c) => [c]
    case Short(c) => ['\\', c]
    case Unit(hex) => "\\u" + hex
    case Pair(high, low) => "\\u" + (high + ("\\u" + low))
  }

  function PiecesText(s: seq<Piece>): string {
    if s == [] then "" else PieceText(s[0]) + PiecesText(s[1..])
  }

  function StringText(s: seq<Piece>): string {
    "\"" + (PiecesText(s) + "\"")
  }

  function Spelled(d: Doc): string {
    match d
    case Word(v) => if v == Json.Null then "null" else if v == Json.Bool(true) then "true" else "false"
    case Number(s) => s
    case Text(pieces) => StringText(pieces)
    case EmptyArray(blank) => "[" + (blank + "]")
    case Items(items) => "[" + (ElementsText(items) + "]")
    case EmptyObject(blank) => "{" + (blank + "}")
    case Props(fields) => "{" + (FieldsText(fields) + "}")
  }

  function ElementText(e: Element): string {
    e.before + (Spelled(e.doc) + e.after)
  }

  function ElementsText(es: Elements): string {
    match es
    case One(e) => ElementText(e)
    case Then(e, rest) => ElementText(e) + ("," + ElementsText(rest))
  }

  function FieldText(f: Field): string {
    f.before + (StringText(f.key) + (f.mid + (":" + ElementText(f.e))))
  }

  function FieldsText(fs: Fields): string {
    match fs
    case OneField(f) => FieldText(f)
    case ThenField(f, rest) => FieldText(f) + ("," + FieldsText(rest))
  }

  // ---- its values ----

  /** The code point a piece stands for. */
  function PieceChar(p: Piece): (c: char)
    requires GoodPiece(p)
  {
    match p
    case Plain(c) => c
    case Short(c) =>
      if c == 'b' then 8 as char else if c == 't' then 9 as char else if c == 'n' then 10 as char
      else if c == 'f' then 12 as char else if c == 'r' then 13 as char else c
    case Unit(hex) => Code(hex) as char
    case Pair(high, low) => (0x1_0000 + (Code(high) - 0xD800) * 0x400 + (Code(low) - 0xDC00)) as char
  }

  function Meaning(s: seq<Piece>): string
    requires GoodString(s)
  {
    if s == [] then "" else [PieceChar(s[0])] + Meaning(s[1..])
  }

  ghost function Value(d: Doc, num: Numbers): Json
    requires Good(d)
    decreases d
  {
    match d
    case Word(v) => v
    case Number(s) => num.read(s)
    case Text(pieces) => Json.Str(Meaning(pieces))
    case EmptyArray(_) => Json.Array([])
    case Items(items) => Json.Array(ElementValues(items, num))
    case EmptyObject(_) => Json.Object([])
    case Props(fields) => Json.Object(FieldValues([], fields, num))
  }

  ghost function ElementValues(es: Elements, num: Numbers): seq<Json>
    requires GoodElements(es)
    decreases es
  {
    assert GoodElement(es.e);
    [Value(es.e.doc, num)] + if es.Then? then ElementValues(es.rest, num) else []
  }

  /** Each property sets the one of its key. */
  ghost function FieldValues(props: seq<Prop>, fs: Fields, num: Numbers): seq<Prop>
    requires GoodFields(fs)
    decreases fs
  {
    assert GoodField(fs.f) && GoodElement(fs.f.e);
    var now := WithProp(props, PropertyNames.Named(Meaning(fs.f.key)), Value(fs.f.e.doc, num));
    if fs.ThenField? then FieldValues(now, fs.rest, num) else now
  }

  /** A property that is set keeps its first place and takes the new value; a new one comes last. */
  lemma {:induction false} WithPropIs(props: seq<Prop>, key: string, val: Json, i: nat)
    requires i <= |props| && forall j :: 0 <= j < i ==> props[j].key != key
    requires i < |props| ==> props[i].key == key
    ensures WithProp(props, key, val) == if i < |props| then props[i := Prop(key, val)] else props + [Prop(key, val)]
    decreases |props|
  {
    if i > 0 {
      WithPropIs(props[1..], key, val, i - 1);
    }
  }

  // ---- white space ----

  lemma {:induction false} SpaceSpan(t: string, p: nat, s: string)
    requires Blank(s) && LookingAt(t, p, s)
    ensures SkipSpace(t, p) == SkipSpace(t, p + |s|)
    decreases |s|
  {
    if s != "" {
      CharAt(t, p, s, 0);
      assert s == [s[0]] + s[1..];
      Split(t, p, [s[0]], s[1..]);
      SpaceSpan(t, p + 1, s[1..]);
    }
  }

  lemma {:induction false} SkippedBlank(t: string, p: nat)
    requires p <= |t|
    ensures Blank(t[p..SkipSpace(t, p)])
    decreases |t| - p
  {
    if p < |t| && IsSpace(t[p]) {
      SkippedBlank(t, p + 1);
      var q := SkipSpace(t, p);
      assert t[p..q] == [t[p]] + t[p + 1..q];
    }
  }

  // ---- every document is read ----

  lemma HexAt(t: string, p: nat, s: string)
    requires Hex(s) && LookingAt(t, p, s)
    ensures Hex4(t, p) == Some(Code(s))
  {
    Hex4Means(t, p);
  }

  lemma UnitAt(t: string, p: nat, hex: string)
    requires GoodPiece(Unit(hex)) && LookingAt(t, p, "u" + hex)
    ensures Unescaped(t, p) == Some((PieceChar(Unit(hex)), p + 5))
  {
    Split(t, p, "u", hex);
    CharAt(t, p, "u", 0);
    HexAt(t, p + 1, hex);
    hide Hex4, Code, Hex;
  }

  lemma PairAt(t: string, p: nat, high: string, low: string)
    requires GoodPiece(Pair(high, low)) && LookingAt(t, p, "u" + (high + ("\\u" + low)))
    ensures Unescaped(t, p) == Some((PieceChar(Pair(high, low)), p + 11))
  {
    Split(t, p, "u", high + ("\\u" + low));
    Split(t, p + 1, high, "\\u" + low);
    Split(t, p + 5, "\\u", low);
    CharAt(t, p, "u", 0);
    CharAt(t, p + 5, "\\u", 0);
    CharAt(t, p + 5, "\\u", 1);
    HexAt(t, p + 1, high);
    HexAt(t, p + 7, low);
    hide LookingAt, Hex4, Code, Hex;
  }

  lemma ShortAt(t: string, p: nat, c: char)
    requires GoodPiece(Short(c)) && LookingAt(t, p, [c])
    ensures Unescaped(t, p) == Some((PieceChar(Short(c)), p + 1))
  {
    CharAt(t, p, [c], 0);
  }

  lemma PieceRead(t: string, p: nat, x: Piece, out: string)
    requires GoodPiece(x) && LookingAt(t, p, PieceText(x))
    ensures Chars(t, p, out) == Chars(t, p + |PieceText(x)|, out + [PieceChar(x)])
  {
    CharAt(t, p, PieceText(x), 0);
    if x.Plain? {
      PlainChar(x);
      hide LookingAt, PieceChar, Unescaped;
    } else {
      hide *;
      EscapedText(x);
      Split(t, p, "\\", EscapeText(x));
      EscapeAt(t, p + 1, x);
      EscapeTaken(t, p, x, out);
    }
  }

  /** An escape after its backslash. */
  function EscapeText(x: Piece): string
    requires !x.Plain?
  {
    match x
    case Short(c) => [c]
    case Unit(hex) => "u" + hex
    case Pair(high, low) => "u" + (high + ("\\u" + low))
  }

  lemma EscapedText(x: Piece)
    requires !x.Plain?
    ensures PieceText(x) == "\\" + EscapeText(x) && |PieceText(x)| == 1 + |EscapeText(x)| && PieceText(x)[0] == '\\'
  {
  }

  lemma EscapeAt(t: string, p: nat, x: Piece)
    requires !x.Plain? && GoodPiece(x) && LookingAt(t, p, EscapeText(x))
    ensures Unescaped(t, p) == Some((PieceChar(x), p + |EscapeText(x)|))
  {
    hide LookingAt, PieceChar, Unescaped, Code;
    match x
    case Short(c) => ShortAt(t, p, c);
    case Unit(hex) => UnitAt(t, p, hex);
    case Pair(high, low) => PairAt(t, p, high, low);
  }

  lemma EscapeTaken(t: string, p: nat, x: Piece, out: string)
    requires !x.Plain? && GoodPiece(x) && p < |t| && t[p] == '\\'
    requires Unescaped(t, p + 1) == Some((PieceChar(x), p + 1 + |EscapeText(x)|))
    ensures Chars(t, p, out) == Chars(t, p + 1 + |EscapeText(x)|, out + [PieceChar(x)])
  {
    hide Unescaped, PieceChar, EscapeText, GoodPiece;
  }

  lemma PlainChar(x: Piece)
    requires x.Plain? && GoodPiece(x)
    ensures PieceChar(x) == x.c
  {
  }

  lemma {:induction false} PiecesRead(t: string, p: nat, s: seq<Piece>, out: string)
    requires GoodString(s) && LookingAt(t, p, PiecesText(s) + "\"")
    ensures Chars(t, p, out) == Some((out + Meaning(s), p + |PiecesText(s)| + 1))
    decreases |s|
  {
    hide *;
    if s == [] {
      NoPieces(t, p, out);
    } else {
      PiecesParts(s);
      var c := PieceChar(s[0]);
      Split(t, p, PieceText(s[0]), PiecesText(s[1..]) + "\"");
      PieceRead(t, p, s[0], out);
      PiecesRead(t, p + |PieceText(s[0])|, s[1..], out + [c]);
      Gathered(out, c, Meaning(s[1..]));
    }
  }

  lemma Gathered(out: string, c: char, rest: string)
    ensures out + [c] + rest == out + ([c] + rest)
  {
  }

  lemma NoPieces(t: string, p: nat, out: string)
    requires LookingAt(t, p, PiecesText([]) + "\"")
    ensures Chars(t, p, out) == Some((out + Meaning([]), p + |PiecesText([])| + 1))
  {
    CharAt(t, p, PiecesText([]) + "\"", 0);
    assert out + "" == out;
  }

  lemma PiecesParts(s: seq<Piece>)
    requires s != [] && GoodString(s)
    ensures GoodPiece(s[0]) && GoodString(s[1..]) && Meaning(s) == [PieceChar(s[0])] + Meaning(s[1..])
    ensures PiecesText(s) + "\"" == PieceText(s[0]) + (PiecesText(s[1..]) + "\"")
    ensures |PiecesText(s)| == |PieceText(s[0])| + |PiecesText(s[1..])|
  {
    hide PieceText, PieceChar, GoodPiece;
  }

  lemma StringRead(t: string, p: nat, s: seq<Piece>)
    requires GoodString(s) && LookingAt(t, p, StringText(s))
    ensures p < |t| && t[p] == '"' && StringAt(t, p) == Some((Meaning(s), p + |StringText(s)|))
  {
    hide PiecesText, Meaning, GoodString, Chars, LookingAt;
    CharAt(t, p, StringText(s), 0);
    Split(t, p, "\"", PiecesText(s) + "\"");
    PiecesRead(t, p + 1, s, "");
    assert "" + Meaning(s) == Meaning(s);
  }

  /** What may follow a value: the end, white space, or what closes or separates. */
  predicate Follows(t: string, q: nat) {
    q == |t| || (q < |t| && (IsSpace(t[q]) || t[q] == ',' || t[q] == ']' || t[q] == '}'))
  }

  lemma ValueSame(t: string, p: nat, q: nat, num: Numbers)
    requires p <= |t| && q <= |t| && SkipSpace(t, p) == SkipSpace(t, q)
    ensures ValueAt(t, p, num) == ValueAt(t, q, num)
  {
    hide SkipSpace;
  }

  predicate Starts(t: string, p: nat) {
    p < |t| && !IsSpace(t[p])
  }

  lemma {:induction false} DocRead(t: string, p: nat, d: Doc, num: Numbers)
    requires Good(d) && LookingAt(t, p, Spelled(d)) && Follows(t, p + |Spelled(d)|)
    ensures Starts(t, p) && ValueAt(t, p, num) == Some((Value(d, num), p + |Spelled(d)|))
    decreases d
  {
    hide ValueAt, LookingAt, StringText, GoodString, Meaning, NumberText, WithProp;
    match d
    case Word(v) => WordRead(t, p, d, num);
    case Number(s) => NumberRead(t, p, s, num);
    case Text(pieces) => TextRead(t, p, pieces, num);
    case EmptyArray(blank) => EmptyRead(t, p, '[', blank, ']', num);
    case EmptyObject(blank) => EmptyRead(t, p, '{', blank, '}', num);
    case Items(items) =>
      Split(t, p, "[", ElementsText(items) + "]");
      CharAt(t, p, "[", 0);
      ElementsRead(t, p + 1, items, [], num);
      assert [] + ElementValues(items, num) == ElementValues(items, num);
      ArrayRead(t, p, ElementValues(items, num), p + |Spelled(d)|, num);
    case Props(fields) =>
      Split(t, p, "{", FieldsText(fields) + "}");
      CharAt(t, p, "{", 0);
      FieldsRead(t, p + 1, fields, [], num);
      ObjectRead(t, p, FieldValues([], fields, num), p + |Spelled(d)|, num);
  }

  lemma WordRead(t: string, p: nat, d: Doc, num: Numbers)
    requires d.Word? && Good(d) && LookingAt(t, p, Spelled(d))
    ensures Starts(t, p) && ValueAt(t, p, num) == Some((d.val, p + |Spelled(d)|))
  {
    CharAt(t, p, Spelled(d), 0);
    assert WordAt(t, p) == Some((d.val, p + |Spelled(d)|));
    hide WordAt;
  }

  lemma NumberRead(t: string, p: nat, s: string, num: Numbers)
    requires NumberText(s) && LookingAt(t, p, s) && Follows(t, p + |s|)
    ensures Starts(t, p) && ValueAt(t, p, num) == Some((num.read(s), p + |s|))
  {
    var sign, w, f, e :| Parts(sign, w, f, e) && s == sign + (w + (f + e));
    NumberStands(t, p, sign, w, f, e);
    hide NumberEnd, Parts;
    assert t[p..p + |s|] == s;
    assert ScalarAt(t, p, num) == Some((num.read(s), p + |s|));
  }

  lemma TextRead(t: string, p: nat, s: seq<Piece>, num: Numbers)
    requires GoodString(s) && LookingAt(t, p, StringText(s))
    ensures Starts(t, p) && ValueAt(t, p, num) == Some((Json.Str(Meaning(s)), p + |StringText(s)|))
  {
    hide StringAt, Meaning, GoodString, StringText;
    StringRead(t, p, s);
    assert ScalarAt(t, p, num) == Some((Json.Str(Meaning(s)), p + |StringText(s)|));
  }

  lemma EmptyRead(t: string, p: nat, open: char, blank: string, close: char, num: Numbers)
    requires (open == '[' && close == ']') || (open == '{' && close == '}')
    requires Blank(blank) && LookingAt(t, p, [open] + (blank + [close]))
    ensures Starts(t, p)
    ensures ValueAt(t, p, num) == Some((if open == '[' then Json.Array([]) else Json.Object([]), p + |blank| + 2))
  {
    Split(t, p, [open], blank + [close]);
    Split(t, p + 1, blank, [close]);
    CharAt(t, p, [open], 0);
    CharAt(t, p + 1 + |blank|, [close], 0);
    SpaceSpan(t, p + 1, blank);
    hide LookingAt, Blank;
    assert SkipSpace(t, p + 1) == p + 1 + |blank|;
    if open == '[' {
      assert ArrayAt(t, p, num) == Some((Json.Array([]), p + |blank| + 2));
    } else {
      assert ObjectAt(t, p, num) == Some((Json.Object([]), p + |blank| + 2));
    }
  }

  /** An array whose elements are read from just after its bracket. */
  lemma ArrayRead(t: string, p: nat, vs: seq<Json>, q: nat, num: Numbers)
    requires p + 1 <= |t| && t[p] == '[' && ItemsAt(t, p + 1, [], num) == Some((Json.Array(vs), q))
    ensures Starts(t, p) && ValueAt(t, p, num) == Some((Json.Array(vs), q))
  {
    var s := SkipSpace(t, p + 1);
    ItemsSame(t, p + 1, s, [], num);
    if At(t, s) == Some(']') { ClosedNoItem(t, s, [], num); }
    hide ItemsAt;
    assert ArrayAt(t, p, num) == ItemsAt(t, s, [], num);
  }

  lemma ItemsSame(t: string, p: nat, q: nat, items: seq<Json>, num: Numbers)
    requires p <= |t| && q <= |t| && SkipSpace(t, p) == SkipSpace(t, q)
    ensures ItemsAt(t, p, items, num) == ItemsAt(t, q, items, num)
  {
    hide ValueAt, SkipSpace;
    ValueSame(t, p, q, num);
  }

  lemma ClosedNoItem(t: string, p: nat, items: seq<Json>, num: Numbers)
    requires p <= |t| && At(t, p) == Some(']')
    ensures ItemsAt(t, p, items, num) == None
  {
    assert ValueAt(t, p, num) == None;
  }

  lemma ObjectRead(t: string, p: nat, props: seq<Prop>, q: nat, num: Numbers)
    requires p + 1 <= |t| && t[p] == '{' && PropsAt(t, p + 1, [], num) == Some((Json.Object(props), q))
    ensures Starts(t, p) && ValueAt(t, p, num) == Some((Json.Object(props), q))
  {
    var s := SkipSpace(t, p + 1);
    SpaceAgain(t, p + 1);
    hide ValueAt, SkipSpace, PropsAt;
    PropsSame(t, p + 1, s, [], num);
    if At(t, s) == Some('}') { ClosedNoKey(t, s, [], num); }
    assert ObjectAt(t, p, num) == PropsAt(t, s, [], num);
    OpenObject(t, p, num);
  }

  lemma OpenObject(t: string, p: nat, num: Numbers)
    requires p < |t| && t[p] == '{'
    ensures ValueAt(t, p, num) == ObjectAt(t, p, num)
  {
    hide ObjectAt;
  }

  lemma KeySame(t: string, p: nat, q: nat)
    requires p <= |t| && q <= |t| && SkipSpace(t, p) == SkipSpace(t, q)
    ensures KeyAt(t, p) == KeyAt(t, q)
  {
  }

  lemma ClosedNoKey(t: string, p: nat, props: seq<Prop>, num: Numbers)
    requires p <= |t| && At(t, p) == Some('}')
    ensures PropsAt(t, p, props, num) == None
  {
    assert KeyAt(t, p) == None;
  }

  /** A value with its white space, up to a comma, a bracket or the end. */
  lemma {:induction false} ElementRead(t: string, p: nat, e: Element, num: Numbers)
    requires GoodElement(e) && LookingAt(t, p, ElementText(e))
    requires p + |ElementText(e)| == |t| || (Follows(t, p + |ElementText(e)|) && Starts(t, p + |ElementText(e)|))
    ensures p <= |t| && ValueAt(t, p, num) == Some((Value(e.doc, num), p + |e.before| + |Spelled(e.doc)|))
    ensures SkipSpace(t, p + |e.before| + |Spelled(e.doc)|) == p + |ElementText(e)|
    decreases e
  {
    hide Good, Spelled, Value, ValueAt, LookingAt;
    var d := p + |e.before|;
    var q := d + |Spelled(e.doc)|;
    Split(t, p, e.before, Spelled(e.doc) + e.after);
    Split(t, d, Spelled(e.doc), e.after);
    SpaceSpan(t, p, e.before);
    SpaceSpan(t, q, e.after);
    if e.after != "" { CharAt(t, q, e.after, 0); }
    DocRead(t, d, e.doc, num);
    ValueSame(t, p, d, num);
  }

  lemma {:induction false} ElementsRead(t: string, p: nat, es: Elements, items: seq<Json>, num: Numbers)
    requires GoodElements(es) && LookingAt(t, p, ElementsText(es) + "]")
    ensures p <= |t|
    ensures ItemsAt(t, p, items, num) == Some((Json.Array(items + ElementValues(es, num)), p + |ElementsText(es)| + 1))
    decreases es
  {
    hide *;
    var e, q := es.e, p + |ElementText(es.e)|;
    ElementsParts(es, num);
    var v := Value(e.doc, num);
    if es.One? {
      Pieces3(t, p, ElementText(e), "]", "");
      ElementRead(t, p, e, num);
      LastItem(t, p, items, v, p + |e.before| + |Spelled(e.doc)|, num);
    } else {
      Pieces3(t, p, ElementText(e), ",", ElementsText(es.rest) + "]");
      ElementRead(t, p, e, num);
      ElementsRead(t, q + 1, es.rest, items + [v], num);
      MoreItems(t, p, items, v, p + |e.before| + |Spelled(e.doc)|, num);
      Regroup(items, v, ElementValues(es.rest, num));
    }
  }

  lemma Regroup(items: seq<Json>, v: Json, rest: seq<Json>)
    ensures items + [v] + rest == items + ([v] + rest)
  {
  }

  lemma ElementsParts(es: Elements, num: Numbers)
    requires GoodElements(es)
    ensures GoodElement(es.e) && Good(es.e.doc)
    ensures es.One? ==>
      && ElementsText(es) + "]" == ElementText(es.e) + ("]" + "")
      && |ElementsText(es)| == |ElementText(es.e)| && ElementValues(es, num) == [Value(es.e.doc, num)]
    ensures es.Then? ==>
      && ElementsText(es) + "]" == ElementText(es.e) + ("," + (ElementsText(es.rest) + "]"))
      && |ElementsText(es)| == |ElementText(es.e)| + 1 + |ElementsText(es.rest)|
      && GoodElements(es.rest) && ElementValues(es, num) == [Value(es.e.doc, num)] + ElementValues(es.rest, num)
  {
    assert GoodElement(es.e);
    hide ElementText, Value;
  }

  /** A text, one character that closes or separates, and another text. */
  lemma Pieces3(t: string, p: nat, a: string, c: string, b: string)
    requires LookingAt(t, p, a + (c + b)) && (c == "," || c == "]" || c == "}")
    ensures var q := p + |a|; LookingAt(t, p, a) && q < |t| && t[q] == c[0] && LookingAt(t, q + 1, b)
    ensures Follows(t, p + |a|) && Starts(t, p + |a|)
  {
    Split(t, p, a, c + b);
    Split(t, p + |a|, c, b);
    CharAt(t, p + |a|, c, 0);
  }

  lemma LastItem(t: string, p: nat, items: seq<Json>, v: Json, q: nat, num: Numbers)
    requires p <= |t| && ValueAt(t, p, num) == Some((v, q)) && q <= |t| && SkipSpace(t, q) < |t| && t[SkipSpace(t, q)] == ']'
    ensures ItemsAt(t, p, items, num) == Some((Json.Array(items + [v]), SkipSpace(t, q) + 1))
  {
    hide ValueAt, SkipSpace;
  }

  lemma MoreItems(t: string, p: nat, items: seq<Json>, v: Json, q: nat, num: Numbers)
    requires p <= |t| && ValueAt(t, p, num) == Some((v, q)) && q <= |t| && SkipSpace(t, q) < |t| && t[SkipSpace(t, q)] == ','
    ensures ItemsAt(t, p, items, num) == ItemsAt(t, SkipSpace(t, q) + 1, items + [v], num)
  {
    var k := SkipSpace(t, q) + 1;
    MoreAfterSpace(t, p, items, v, q, num);
    SpaceAgain(t, k);
    ItemsSame(t, SkipSpace(t, k), k, items + [v], num);
    hide *;
  }

  lemma SpaceAgain(t: string, p: nat)
    requires p <= |t|
    ensures SkipSpace(t, SkipSpace(t, p)) == SkipSpace(t, p)
  {
  }

  lemma MoreAfterSpace(t: string, p: nat, items: seq<Json>, v: Json, q: nat, num: Numbers)
    requires p <= |t| && ValueAt(t, p, num) == Some((v, q)) && q <= |t| && SkipSpace(t, q) < |t| && t[SkipSpace(t, q)] == ','
    ensures ItemsAt(t, p, items, num) == ItemsAt(t, SkipSpace(t, SkipSpace(t, q) + 1), items + [v], num)
  {
    hide ValueAt, SkipSpace;
  }

  lemma {:induction false} FieldRead(t: string, p: nat, f: Field, num: Numbers) returns (k: nat)
    requires GoodField(f) && GoodElement(f.e) && LookingAt(t, p, FieldText(f))
    requires Follows(t, p + |FieldText(f)|) && Starts(t, p + |FieldText(f)|)
    ensures p <= k <= |t| && KeyAt(t, p) == Some((Meaning(f.key), k))
    ensures var q := k + |f.e.before| + |Spelled(f.e.doc)|;
      q <= |t| && ValueAt(t, k, num) == Some((Value(f.e.doc, num), q)) && SkipSpace(t, q) == p + |FieldText(f)|
    decreases f
  {
    hide *;
    k := p + |f.before| + |StringText(f.key)| + |f.mid| + 1;
    FieldParts(f);
    FieldStands(t, p, f);
    ElementRead(t, k, f.e, num);
    KeyRead(t, p, f.before, f.key, f.mid);
  }

  lemma FieldParts(f: Field)
    requires GoodField(f)
    ensures Blank(f.before) && GoodString(f.key) && Blank(f.mid) && GoodElement(f.e) && Good(f.e.doc)
  {
    assert GoodElement(f.e);
  }

  lemma FieldStands(t: string, p: nat, f: Field)
    requires LookingAt(t, p, FieldText(f))
    ensures LookingAt(t, p, f.before + (StringText(f.key) + (f.mid + ":")))
    ensures LookingAt(t, p + |f.before| + |StringText(f.key)| + |f.mid| + 1, ElementText(f.e))
    ensures |FieldText(f)| == |f.before| + |StringText(f.key)| + |f.mid| + 1 + |ElementText(f.e)|
  {
    hide LookingAt, StringText, ElementText;
    var a := f.before + (StringText(f.key) + (f.mid + ":"));
    assert FieldText(f) == a + ElementText(f.e);
    Split(t, p, a, ElementText(f.e));
  }

  lemma KeyRead(t: string, p: nat, before: string, key: seq<Piece>, mid: string)
    requires Blank(before) && GoodString(key) && Blank(mid)
    requires LookingAt(t, p, before + (StringText(key) + (mid + ":")))
    ensures p <= |t| && KeyAt(t, p) == Some((Meaning(key), p + |before| + |StringText(key)| + |mid| + 1))
  {
    var k := p + |before|;
    var m := k + |StringText(key)|;
    hide LookingAt, StringText, GoodString, Meaning, Blank;
    Split(t, p, before, StringText(key) + (mid + ":"));
    Split(t, k, StringText(key), mid + ":");
    Split(t, m, mid, ":");
    SpaceSpan(t, p, before);
    SpaceSpan(t, m, mid);
    CharAt(t, m + |mid|, ":", 0);
    StringRead(t, k, key);
    hide StringAt;
    assert SkipSpace(t, k) == k && SkipSpace(t, m + |mid|) == m + |mid|;
  }

  lemma {:induction false} FieldsRead(t: string, p: nat, fs: Fields, props: seq<Prop>, num: Numbers)
    requires GoodFields(fs) && LookingAt(t, p, FieldsText(fs) + "}")
    ensures p <= |t|
    ensures PropsAt(t, p, props, num) == Some((Json.Object(FieldValues(props, fs, num)), p + |FieldsText(fs)| + 1))
    decreases fs
  {
    hide *;
    var f, q := fs.f, p + |FieldText(fs.f)|;
    FieldsParts(fs, props, num);
    var now := WithProp(props, PropertyNames.Named(Meaning(f.key)), Value(f.e.doc, num));
    if fs.OneField? {
      Pieces3(t, p, FieldText(f), "}", "");
      var k := FieldRead(t, p, f, num);
      PropStep(t, p, props, Meaning(f.key), k, Value(f.e.doc, num), k + |f.e.before| + |Spelled(f.e.doc)|, num);
    } else {
      Pieces3(t, p, FieldText(f), ",", FieldsText(fs.rest) + "}");
      var k := FieldRead(t, p, f, num);
      FieldsRead(t, q + 1, fs.rest, now, num);
      PropStep(t, p, props, Meaning(f.key), k, Value(f.e.doc, num), k + |f.e.before| + |Spelled(f.e.doc)|, num);
    }
  }

  lemma FieldsParts(fs: Fields, props: seq<Prop>, num: Numbers)
    requires GoodFields(fs)
    ensures GoodField(fs.f) && GoodElement(fs.f.e) && Good(fs.f.e.doc) && GoodString(fs.f.key)
    ensures var now := WithProp(props, PropertyNames.Named(Meaning(fs.f.key)), Value(fs.f.e.doc, num));
      && (fs.OneField? ==>
        && FieldsText(fs) + "}" == FieldText(fs.f) + ("}" + "")
        && |FieldsText(fs)| == |FieldText(fs.f)| && FieldValues(props, fs, num) == now)
      && (fs.ThenField? ==>
        && FieldsText(fs) + "}" == FieldText(fs.f) + ("," + (FieldsText(fs.rest) + "}"))
        && |FieldsText(fs)| == |FieldText(fs.f)| + 1 + |FieldsText(fs.rest)|
        && GoodFields(fs.rest) && FieldValues(props, fs, num) == FieldValues(now, fs.rest, num))
  {
    assert GoodField(fs.f) && GoodElement(fs.f.e);
    hide FieldText, Value, Meaning, WithProp, PropertyNames.Named;
  }

  lemma PropStep(t: string, p: nat, props: seq<Prop>, key: string, k: nat, v: Json, q: nat, num: Numbers)
    requires p <= |t| && KeyAt(t, p) == Some((key, k)) && k <= |t| && ValueAt(t, k, num) == Some((v, q)) && q <= |t|
    ensures var (s, now) := (SkipSpace(t, q), WithProp(props, PropertyNames.Named(key), v));
      && (s < |t| && t[s] == ',' ==> PropsAt(t, p, props, num) == PropsAt(t, s + 1, now, num))
      && (s < |t| && t[s] == '}' ==> PropsAt(t, p, props, num) == Some((Json.Object(now), s + 1)))
  {
    hide KeyAt, ValueAt, SkipSpace, WithProp, PropertyNames.Named;
  }

  /** The text of a document, with white space around it, is read as its value. */
  lemma DocumentRead(e: Element, num: Numbers)
    requires GoodElement(e)
    ensures Parsed(ElementText(e), num) == Some(Value(e.doc, num))
  {
    var t := ElementText(e);
    assert t[0..|t|] == t;
    assert LookingAt(t, 0, t);
    hide GoodElement, ElementText, ValueAt, Value, Spelled;
    ElementRead(t, 0, e, num);
  }

  // ---- and nothing else is ----

  lemma HexOf(t: string, p: nat)
    requires Hex4(t, p).Some?
    ensures p + 4 <= |t| && Hex(t[p..p + 4]) && Code(t[p..p + 4]) == Hex4(t, p).value
  {
    Hex4Means(t, p);
  }

  lemma PieceOf(t: string, p: nat) returns (x: Piece)
    requires Unescaped(t, p).Some?
    ensures GoodPiece(x) && var (c, q) := Unescaped(t, p).value; PieceChar(x) == c && PieceText(x) == "\\" + t[p..q]
  {
    if t[p] == 'u' {
      UnitFollows(t, p);
      hide *;
      x := UnicodeOf(t, p + 1);
      TextFrom(t, p, Unicode(t, p + 1).value.1);
    } else {
      ShortOf(t, p);
      hide *;
      x := Short(t[p]);
    }
  }

  lemma UnitFollows(t: string, p: nat)
    requires p < |t| && t[p] == 'u'
    ensures Unescaped(t, p) == Unicode(t, p + 1)
  {
    hide Unicode;
  }

  lemma TextFrom(t: string, p: nat, q: nat)
    requires p + 1 < q <= |t| && t[p] == 'u'
    ensures "\\u" + t[p + 1..q] == "\\" + t[p..q]
  {
    assert t[p..q] == "u" + t[p + 1..q];
  }

  lemma ShortOf(t: string, p: nat)
    requires Unescaped(t, p).Some? && t[p] != 'u'
    ensures GoodPiece(Short(t[p])) && Unescaped(t, p) == Some((PieceChar(Short(t[p])), p + 1))
    ensures PieceText(Short(t[p])) == "\\" + t[p..p + 1]
  {
  }

  lemma UnicodeOf(t: string, p: nat) returns (x: Piece)
    requires Unicode(t, p).Some?
    ensures GoodPiece(x) && var (c, q) := Unicode(t, p).value; PieceChar(x) == c && PieceText(x) == "\\u" + t[p..q]
  {
    HexOf(t, p);
    if HighSurrogate(Hex4(t, p).value) {
      HexOf(t, p + 6);
      x := Pair(t[p..p + 4], t[p + 6..p + 10]);
      hide Hex4, Hex, Code;
      assert t[p..p + 10] == t[p..p + 4] + ("\\u" + t[p + 6..p + 10]);
    } else {
      x := Unit(t[p..p + 4]);
      hide Hex4, Hex, Code;
    }
  }

  lemma {:induction false} CharsOf(t: string, p: nat, out: string) returns (s: seq<Piece>)
    requires Chars(t, p, out).Some?
    ensures GoodString(s) && var (r, q) := Chars(t, p, out).value;
      r == out + Meaning(s) && t[p..q] == PiecesText(s) + "\""
    decreases |t| - p
  {
    hide Unescaped, GoodPiece, PieceChar, PieceText;
    var q := Chars(t, p, out).value.1;
    if t[p] == '"' {
      s := [];
      assert out + "" == out && t[p..q] == "" + "\"";
    } else {
      var x, k := NextPiece(t, p, out);
      var rest := CharsOf(t, k, out + [PieceChar(x)]);
      s := [x] + rest;
      hide Chars;
      MorePieces(x, rest);
      Gathered(out, PieceChar(x), Meaning(rest));
      assert t[p..q] == PieceText(x) + t[k..q];
      assert PieceText(x) + (PiecesText(rest) + "\"") == PiecesText(s) + "\"";
    }
  }

  lemma NextPiece(t: string, p: nat, out: string) returns (x: Piece, k: nat)
    requires Chars(t, p, out).Some? && t[p] != '"'
    ensures p < k <= |t| && GoodPiece(x) && t[p..k] == PieceText(x)
    ensures Chars(t, p, out) == Chars(t, k, out + [PieceChar(x)]) && k <= Chars(t, p, out).value.1
  {
    if t[p] == '\\' {
      x := PieceOf(t, p + 1);
      k := Unescaped(t, p + 1).value.1;
      hide Unescaped, PieceText, PieceChar, GoodPiece;
      assert t[p..k] == "\\" + t[p + 1..k];
    } else {
      x, k := Plain(t[p]), p + 1;
      assert t[p..k] == [t[p]];
    }
  }

  lemma MorePieces(x: Piece, rest: seq<Piece>)
    requires GoodPiece(x) && GoodString(rest)
    ensures GoodString([x] + rest) && Meaning([x] + rest) == [PieceChar(x)] + Meaning(rest)
    ensures PiecesText([x] + rest) == PieceText(x) + PiecesText(rest)
  {
    hide GoodPiece, PieceChar, PieceText;
    var s := [x] + rest;
    assert s[1..] == rest;
  }

  lemma StringOf(t: string, p: nat) returns (s: seq<Piece>)
    requires StringAt(t, p).Some?
    ensures GoodString(s) && StringAt(t, p).value.0 == Meaning(s)
    ensures t[p..StringAt(t, p).value.1] == StringText(s)
  {
    s := CharsOf(t, p + 1, "");
    hide Chars, GoodString, Meaning, PiecesText;
    var q := StringAt(t, p).value.1;
    assert t[p..q] == "\"" + t[p + 1..q];
    assert "" + Meaning(s) == Meaning(s);
  }

  ghost predicate Spells(d: Doc, text: string, v: Json, num: Numbers) {
    Good(d) && Spelled(d) == text && Value(d, num) == v
  }

  lemma ScalarOf(t: string, p: nat, num: Numbers) returns (d: Doc)
    requires p < |t| && ScalarAt(t, p, num).Some?
    ensures var (v, q) := ScalarAt(t, p, num).value; Spells(d, t[p..q], v, num)
  {
    if t[p] == '"' {
      var s := StringOf(t, p);
      d := Text(s);
    } else if t[p] == '-' || IsDigit(t[p]) {
      var sign, w, f, e := NumberParts(t, p);
      d := Number(t[p..NumberEnd(t, p).value]);
      hide NumberEnd, Parts;
      assert NumberText(d.s);
    } else {
      d := Word(WordAt(t, p).value.0);
    }
  }

  lemma {:induction false} DocOf(t: string, p: nat, num: Numbers) returns (d: Doc)
    requires p <= |t| && ValueAt(t, p, num).Some?
    ensures var (v, q) := ValueAt(t, p, num).value; SkipSpace(t, p) < q && Spells(d, t[SkipSpace(t, p)..q], v, num)
    decreases |t| - p, 3
  {
    hide ScalarAt, ArrayAt, ObjectAt, Spells;
    var s := SkipSpace(t, p);
    if t[s] == '{' { d := ObjectOf(t, s, num); }
    else if t[s] == '[' { d := ArrayOf(t, s, num); }
    else { d := ScalarOf(t, s, num); }
  }

  lemma {:induction false} ArrayOf(t: string, p: nat, num: Numbers) returns (d: Doc)
    requires p < |t| && t[p] == '[' && ArrayAt(t, p, num).Some?
    ensures var (v, q) := ArrayAt(t, p, num).value; Spells(d, t[p..q], v, num)
    decreases |t| - p, 2
  {
    var s, q := SkipSpace(t, p + 1), ArrayAt(t, p, num).value.1;
    if At(t, s) == Some(']') {
      d := EmptyArray(t[p + 1..s]);
      SkippedBlank(t, p + 1);
      hide SkipSpace, Blank, ItemsAt;
      Bracketed(t, p, s, q);
    } else {
      hide SkipSpace, ItemsAt, ElementsText, ElementValues, GoodElements, Spells;
      ItemsSame(t, p + 1, s, [], num);
      var es := ElementsOf(t, p + 1, [], num);
      d := Items(es);
      SpelledArray(t, p, q, es, num);
    }
  }

  lemma Bracketed(t: string, p: nat, s: nat, q: nat)
    requires p + 1 <= s && q == s + 1 <= |t|
    ensures t[p..q] == [t[p]] + (t[p + 1..s] + [t[s]])
  {
  }

  lemma SpelledArray(t: string, p: nat, q: nat, es: Elements, num: Numbers)
    requires p + 1 < q <= |t| && t[p] == '[' && GoodElements(es) && t[p + 1..q] == ElementsText(es) + "]"
    ensures Spells(Items(es), t[p..q], Json.Array([] + ElementValues(es, num)), num)
  {
    hide ElementsText, ElementValues, GoodElements;
    assert [] + ElementValues(es, num) == ElementValues(es, num);
    assert t[p..q] == "[" + t[p + 1..q];
  }

  lemma {:induction false} ElementsOf(t: string, p: nat, items: seq<Json>, num: Numbers) returns (es: Elements)
    requires p <= |t| && ItemsAt(t, p, items, num).Some?
    ensures GoodElements(es) && var (v, q) := ItemsAt(t, p, items, num).value;
      v == Json.Array(items + ElementValues(es, num)) && t[p..q] == ElementsText(es) + "]"
    decreases |t| - p, 5
  {
    hide *;
    var q := ItemsAt(t, p, items, num).value.1;
    var v, k := ItemStands(t, p, items, num);
    var e := ElementOf(t, p, num);
    var s := SkipSpace(t, k);
    if t[s] == ']' {
      es := One(e);
      OneElement(t, p, s, e, num);
    } else {
      var rest := ElementsOf(t, s + 1, items + [v], num);
      es := Then(e, rest);
      MoreElements(t, p, s, q, e, rest, num);
      Regroup(items, v, ElementValues(rest, num));
    }
  }

  lemma ItemStands(t: string, p: nat, items: seq<Json>, num: Numbers) returns (v: Json, q: nat)
    requires p <= |t| && ItemsAt(t, p, items, num).Some?
    ensures ValueAt(t, p, num) == Some((v, q)) && p < q <= |t| && SkipSpace(t, q) < |t|
    ensures var s := SkipSpace(t, q);
      if t[s] == ']' then ItemsAt(t, p, items, num) == Some((Json.Array(items + [v]), s + 1))
      else t[s] == ',' && ItemsAt(t, p, items, num) == ItemsAt(t, s + 1, items + [v], num)
  {
    v, q := ValueAt(t, p, num).value.0, ValueAt(t, p, num).value.1;
    var k := SkipSpace(t, q) + 1;
    if k <= |t| { ItemsSame(t, SkipSpace(t, k), k, items + [v], num); }
    hide ValueAt, SkipSpace;
  }

  /** A value with the white space before and after it. */
  lemma {:induction false} ElementOf(t: string, p: nat, num: Numbers) returns (e: Element)
    requires p <= |t| && ValueAt(t, p, num).Some?
    ensures GoodElement(e) && Good(e.doc) && var (v, q) := ValueAt(t, p, num).value;
      Value(e.doc, num) == v && p < SkipSpace(t, q) <= |t| && t[p..SkipSpace(t, q)] == ElementText(e)
    decreases |t| - p, 4
  {
    hide *;
    var d := DocOf(t, p, num);
    var s, q := SkipSpace(t, p), ValueAt(t, p, num).value.1;
    var k := SkipSpace(t, q);
    e := Element(t[p..s], d, t[q..k]);
    SkippedBlank(t, p);
    SkippedBlank(t, q);
    ElementFrom(t, p, s, q, k, d, ValueAt(t, p, num).value.0, num);
  }

  lemma ElementFrom(t: string, p: nat, s: nat, q: nat, k: nat, d: Doc, v: Json, num: Numbers)
    requires p <= s < q <= k <= |t| && Blank(t[p..s]) && Blank(t[q..k]) && Spells(d, t[s..q], v, num)
    ensures Good(d) && Value(d, num) == v && GoodElement(Element(t[p..s], d, t[q..k]))
    ensures t[p..k] == ElementText(Element(t[p..s], d, t[q..k]))
  {
    hide Blank, Good, Spelled, Value;
    Cut3(t, p, s, q, k);
  }

  lemma Cut3(t: string, p: nat, s: nat, q: nat, k: nat)
    requires p <= s <= q <= k <= |t|
    ensures t[p..k] == t[p..s] + (t[s..q] + t[q..k])
  {
  }

  lemma OneElement(t: string, p: nat, s: nat, e: Element, num: Numbers)
    requires GoodElement(e) && Good(e.doc) && p <= s < |t| && t[s] == ']' && t[p..s] == ElementText(e)
    ensures GoodElements(One(e)) && ElementValues(One(e), num) == [Value(e.doc, num)]
    ensures t[p..s + 1] == ElementsText(One(e)) + "]"
  {
    hide GoodElement, Good, Value, ElementText;
  }

  lemma MoreElements(t: string, p: nat, s: nat, q: nat, e: Element, rest: Elements, num: Numbers)
    requires GoodElement(e) && Good(e.doc) && GoodElements(rest) && p <= s < q <= |t| && t[s] == ','
    requires t[p..s] == ElementText(e) && t[s + 1..q] == ElementsText(rest) + "]"
    ensures GoodElements(Then(e, rest))
    ensures ElementValues(Then(e, rest), num) == [Value(e.doc, num)] + ElementValues(rest, num)
    ensures t[p..q] == ElementsText(Then(e, rest)) + "]"
  {
    hide GoodElement, Good, Value, ElementText;
    assert t[p..q] == t[p..s] + ("," + t[s + 1..q]);
  }

  lemma {:induction false} ObjectOf(t: string, p: nat, num: Numbers) returns (d: Doc)
    requires p < |t| && t[p] == '{' && ObjectAt(t, p, num).Some?
    ensures var (v, q) := ObjectAt(t, p, num).value; Spells(d, t[p..q], v, num)
    decreases |t| - p, 2
  {
    var s, q := SkipSpace(t, p + 1), ObjectAt(t, p, num).value.1;
    if At(t, s) == Some('}') {
      d := EmptyObject(t[p + 1..s]);
      SkippedBlank(t, p + 1);
      assert t[p..q] == "{" + (t[p + 1..s] + "}");
    } else {
      hide PropsAt, FieldsText, FieldValues, GoodFields;
      PropsSame(t, p + 1, s, [], num);
      var fs := FieldsOf(t, p + 1, [], num);
      d := Props(fs);
      SpelledObject(t, p, q, fs, num);
    }
  }

  lemma SpelledObject(t: string, p: nat, q: nat, fs: Fields, num: Numbers)
    requires p + 1 < q <= |t| && t[p] == '{' && GoodFields(fs) && t[p + 1..q] == FieldsText(fs) + "}"
    ensures Spells(Props(fs), t[p..q], Json.Object(FieldValues([], fs, num)), num)
  {
    hide FieldsText, FieldValues, GoodFields;
    assert t[p..q] == "{" + t[p + 1..q];
  }

  lemma PropsSame(t: string, p: nat, q: nat, props: seq<Prop>, num: Numbers)
    requires p <= |t| && q <= |t| && SkipSpace(t, p) == SkipSpace(t, q)
    ensures PropsAt(t, p, props, num) == PropsAt(t, q, props, num)
  {
    hide KeyAt, ValueAt, SkipSpace;
    KeySame(t, p, q);
  }

  lemma {:induction false} FieldsOf(t: string, p: nat, props: seq<Prop>, num: Numbers) returns (fs: Fields)
    requires p <= |t| && PropsAt(t, p, props, num).Some?
    ensures GoodFields(fs) && var (v, q) := PropsAt(t, p, props, num).value;
      v == Json.Object(FieldValues(props, fs, num)) && t[p..q] == FieldsText(fs) + "}"
    decreases |t| - p, 5
  {
    hide *;
    var q := PropsAt(t, p, props, num).value.1;
    var key, k, v, m := PropStands(t, p, props, num);
    var before, s, mid := KeyOf(t, p);
    var e := ElementOf(t, k, num);
    var f, j := Field(before, s, mid, e), SkipSpace(t, m);
    ThisField(t, p, k, j, before, s, mid, e);
    if t[j] == '}' {
      fs := OneField(f);
      LastField(t, p, j, f, props, num);
    } else {
      var now := WithProp(props, PropertyNames.Named(key), v);
      var rest := FieldsOf(t, j + 1, now, num);
      fs := ThenField(f, rest);
      MoreFields(t, p, j, q, f, rest, props, num);
    }
  }

  lemma PropStands(t: string, p: nat, props: seq<Prop>, num: Numbers) returns (key: string, k: nat, v: Json, q: nat)
    requires p <= |t| && PropsAt(t, p, props, num).Some?
    ensures KeyAt(t, p) == Some((key, k)) && p < k <= |t| && ValueAt(t, k, num) == Some((v, q)) && k < q <= |t|
    ensures SkipSpace(t, q) < |t| && var (s, now) := (SkipSpace(t, q), WithProp(props, PropertyNames.Named(key), v));
      if t[s] == '}' then PropsAt(t, p, props, num) == Some((Json.Object(now), s + 1))
      else t[s] == ',' && PropsAt(t, p, props, num) == PropsAt(t, s + 1, now, num)
  {
    hide KeyAt, ValueAt, SkipSpace, WithProp, PropertyNames.Named;
    key, k := KeyAt(t, p).value.0, KeyAt(t, p).value.1;
    v, q := ValueAt(t, k, num).value.0, ValueAt(t, k, num).value.1;
  }

  lemma KeyOf(t: string, p: nat) returns (before: string, s: seq<Piece>, mid: string)
    requires p <= |t| && KeyAt(t, p).Some?
    ensures Blank(before) && GoodString(s) && Blank(mid) && Meaning(s) == KeyAt(t, p).value.0
    ensures t[p..KeyAt(t, p).value.1] == before + (StringText(s) + (mid + ":"))
  {
    var b, q := SkipSpace(t, p), KeyAt(t, p).value.1;
    s := StringOf(t, b);
    var k := StringAt(t, b).value.1;
    var j := SkipSpace(t, k);
    before, mid := t[p..b], t[k..j];
    SkippedBlank(t, p);
    SkippedBlank(t, k);
    hide StringAt, Blank, StringText, GoodString, Meaning;
    assert t[j..q] == ":";
    Slices(t, p, b, k, j, q);
  }

  lemma ThisField(t: string, p: nat, k: nat, j: nat, before: string, s: seq<Piece>, mid: string, e: Element)
    requires Blank(before) && GoodString(s) && Blank(mid) && GoodElement(e) && p <= k <= j <= |t|
    requires t[p..k] == before + (StringText(s) + (mid + ":")) && t[k..j] == ElementText(e)
    ensures GoodField(Field(before, s, mid, e)) && t[p..j] == FieldText(Field(before, s, mid, e))
  {
    hide Blank, GoodString, GoodElement, StringText, ElementText;
    assert t[p..j] == t[p..k] + t[k..j];
  }

  lemma LastField(t: string, p: nat, j: nat, f: Field, props: seq<Prop>, num: Numbers)
    requires GoodField(f) && GoodElement(f.e) && Good(f.e.doc) && GoodString(f.key)
    requires p <= j < |t| && t[j] == '}' && t[p..j] == FieldText(f)
    ensures GoodFields(OneField(f))
    ensures FieldValues(props, OneField(f), num)
      == WithProp(props, PropertyNames.Named(Meaning(f.key)), Value(f.e.doc, num))
    ensures t[p..j + 1] == FieldsText(OneField(f)) + "}"
  {
    hide GoodField, GoodElement, Good, Value, FieldText, WithProp, GoodString, Meaning, PropertyNames.Named;
  }

  lemma MoreFields(t: string, p: nat, j: nat, q: nat, f: Field, rest: Fields, props: seq<Prop>, num: Numbers)
    requires GoodField(f) && GoodElement(f.e) && Good(f.e.doc) && GoodString(f.key) && GoodFields(rest)
    requires p <= j < q <= |t| && t[j] == ',' && t[p..j] == FieldText(f) && t[j + 1..q] == FieldsText(rest) + "}"
    ensures GoodFields(ThenField(f, rest))
    ensures FieldValues(props, ThenField(f, rest), num)
      == FieldValues(WithProp(props, PropertyNames.Named(Meaning(f.key)), Value(f.e.doc, num)), rest, num)
    ensures t[p..q] == FieldsText(ThenField(f, rest)) + "}"
  {
    hide GoodField, GoodElement, Good, Value, FieldText, WithProp, GoodString, Meaning, PropertyNames.Named;
    assert t[p..q] == t[p..j] + ("," + t[j + 1..q]);
  }

  ghost predicate Writes(e: Element, text: string, v: Json, num: Numbers) {
    GoodElement(e) && ElementText(e) == text && Good(e.doc) && Value(e.doc, num) == v
  }

  /** A text is read as a value if and only if it is a document of the grammar that has this value. */
  lemma Documents(t: string, v: Json, num: Numbers)
    ensures Parsed(t, num) == Some(v) <==> exists e :: Writes(e, t, v, num)
  {
    hide ValueAt, SkipSpace, GoodElement, ElementText, Good, Value;
    if Parsed(t, num) == Some(v) {
      var e := ElementOf(t, 0, num);
      assert t[0..|t|] == t;
      assert Writes(e, t, v, num);
    }
    if e :| Writes(e, t, v, num) { DocumentRead(e, num); }
  }

  // ---- numbers alone ----

  /** A number by its parts, with white space after it, is read as the number of its own text. */
  lemma NumberAlone(sign: string, w: string, f: string, e: string, blank: string, num: Numbers)
    requires Parts(sign, w, f, e) && Blank(blank)
    ensures Parsed(sign + (w + (f + e)) + blank, num) == Some(num.read(sign + (w + (f + e))))
  {
    var s := sign + (w + (f + e));
    assert NumberText(s);
    var x := Element("", Number(s), blank);
    assert Good(x.doc) && GoodElement(x) && Value(x.doc, num) == num.read(s);
    assert ElementText(x) == s + blank;
    hide *;
    DocumentRead(x, num);
  }

  ghost predicate NumberThenBlank(t: string, s: string, blank: string) {
    NumberText(s) && Blank(blank) && t == s + blank
  }

  /** A text that begins with a digit or a minus sign is read if and only if it is such a number, with white space after it. */
  lemma NumbersOnly(t: string, num: Numbers)
    requires t != "" && (t[0] == '-' || IsDigit(t[0]))
    ensures Parsed(t, num).Some? <==> exists s, blank :: NumberThenBlank(t, s, blank)
  {
    hide NumberText, Blank, NumberEnd;
    if Parsed(t, num).Some? {
      var q := NumberEnd(t, 0).value;
      var sign, w, f, e := NumberParts(t, 0);
      SkippedBlank(t, q);
      assert NumberText(t[0..q]) by { IsNumberText(sign, w, f, e); }
      assert t[q..] == t[q..SkipSpace(t, q)];
      assert t == t[0..q] + t[q..];
      assert NumberThenBlank(t, t[0..q], t[q..]);
    }
    if s, blank :| NumberThenBlank(t, s, blank) {
      var sign, w, f, e := PartsOf(s);
      NumberAlone(sign, w, f, e, blank, num);
    }
  }

  lemma IsNumberText(sign: string, w: string, f: string, e: string)
    requires Parts(sign, w, f, e)
    ensures NumberText(sign + (w + (f + e)))
  {
  }

  lemma PartsOf(s: string) returns (sign: string, w: string, f: string, e: string)
    requires NumberText(s)
    ensures Parts(sign, w, f, e) && s == sign + (w + (f + e))
  {
    sign, w, f, e :| Parts(sign, w, f, e) && s == sign + (w + (f + e));
  }
}
