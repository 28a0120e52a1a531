/** JSON values and their text: what src/json.rs writes and reads, as functions (RFC 8259, sections 2 to 7). */
module JsonText {
  import opened Values
  import opened Texts
  import Radix
  import PropertyNames

  /** The values `json_stringify_value` tells apart; functions print as undefined. */
  datatype Json =
    | Undefined
    | Null
    | Bool(b: bool)
    | Int(i: i32)
    | Float(bits: nat)
    | Str(s: string)
    | Array(items: seq<Json>)
    | Object(props: seq<Prop>)

  datatype Prop = Prop(key: string, val: Json)

  /** Host calls: the text of a float (`null` when not finite), and the number a JSON number text stands for. */
  datatype Numbers = Numbers(show: nat -> string, read: string -> Json)

  function Decimal(i: i32): string {
    Radix.Format(i, 10)
  }

  // ---- writing ----

  function Escaped(s: string): string {
    if |s| == 0 then "" else EscapedChar(s[0]) + Escaped(s[1..])
  }

  function EscapedChar(c: char): string {
    if c == '"' then "\\\""
    else if c == '\\' then "\\\\"
    else if c == '\n' then "\\n"
    else if c == '\r' then "\\r"
    else if c == '\t' then "\\t"
    else [c]
  }

  function Quoted(s: string): string {
    "\"" + Escaped(s) + "\""
  }

  /** The text of a value. Undefined has none, except as `null` in an array; keys are written as they are. */
  function Text(v: Json, inArray: bool, num: Numbers): Option<string>
    decreases v, 1, 0
  {
    match v
    case Undefined => if inArray then Some("null") else None
    case Null => Some("null")
    case Bool(b) => Some(if b then "true" else "false")
    case Int(i) => Some(Decimal(i))
    case Float(bits) => Some(num.show(bits))
    case Str(s) => Some(Quoted(s))
    case Array(_) => Some("[" + ItemsText(v, 0, num) + "]")
    case Object(_) => Some("{" + PropsText(v, 0, true, num) + "}")
  }

  /** The elements from number `i` on, each but the first after a comma. */
  function ItemsText(v: Json, i: nat, num: Numbers): string
    requires v.Array? && i <= |v.items|
    decreases v, 0, |v.items| - i
  {
    if i == |v.items| then ""
    else
      var t := match Text(v.items[i], true, num)
        case Some(t) => t
        case None => "null";
      (if i > 0 then "," else "") + t + ItemsText(v, i + 1, num)
  }

  /** The properties from number `i` on that have a text. */
  function PropsText(v: Json, i: nat, first: bool, num: Numbers): string
    requires v.Object? && i <= |v.props|
    decreases v, 0, |v.props| - i
  {
    if i == |v.props| then ""
    else
      match Text(v.props[i].val, false, num)
      case None => PropsText(v, i + 1, first, num)
      case Some(t) => (if first then "" else ",") + "\"" + v.props[i].key + "\":" + t + PropsText(v, i + 1, false, num)
  }

  // ---- reading ----

  function At(t: string, p: nat): Option<char> {
    if p < |t| then Some(t[p]) else None
  }

  predicate DigitAt(t: string, p: nat) {
    p < |t| && IsDigit(t[p])
  }

  /** Past a fraction, if there is one; a point without digits is refused. */
  function SkipFraction(t: string, p: nat): (q: Option<nat>)
    requires p <= |t|
    ensures q.Some? ==> p <= q.value <= |t|
  {
    if At(t, p) != Some('.') then Some(p)
    else if DigitAt(t, p + 1) then Some(SkipDigits(t, p + 1))
    else None
  }

  function SkipExponent(t: string, p: nat): (q: Option<nat>)
    requires p <= |t|
    ensures q.Some? ==> p <= q.value <= |t|
  {
    if At(t, p) != Some('e') && At(t, p) != Some('E') then Some(p)
    else
      var d := if At(t, p + 1) == Some('+') || At(t, p + 1) == Some('-') then p + 2 else p + 1;
      if DigitAt(t, d) then Some(SkipDigits(t, d)) else None
  }

  /** The end of the number text that starts at `p`. */
  function NumberEnd(t: string, p: nat): (q: Option<nat>)
    requires p < |t|
    ensures q.Some? ==> p < q.value <= |t|
  {
    var d := if t[p] == '-' then p + 1 else p;
    if !DigitAt(t, d) then None
    else
      var w := if t[d] == '0' then d + 1 else SkipDigits(t, d);
      assert SkipDigits(t, d) > d;
      match SkipFraction(t, w)
      case None => None
      case Some(f) => SkipExponent(t, f)
  }

  function HexVal(c: char): (r: Option<nat>)
    ensures r.Some? ==> r.value < 16
  {
    if '0' <= c <= '9' then Some(c as nat - '0' as nat)
    else if 'a' <= c <= 'f' then Some(c as nat - 'a' as nat + 10)
    else if 'A' <= c <= 'F' then Some(c as nat - 'A' as nat + 10)
    else None
  }

  /** Four hexadecimal digits. */
  function Hex4(t: string, p: nat): (r: Option<nat>)
    ensures r.Some? ==> r.value < 0x10000 && p + 4 <= |t|
  {
    if p + 4 > |t| then None
    else
      match (HexVal(t[p]), HexVal(t[p + 1]), HexVal(t[p + 2]), HexVal(t[p + 3]))
      case (Some(a), Some(b), Some(c), Some(d)) => Some(((a * 16 + b) * 16 + c) * 16 + d)
      case _ => None
  }

  predicate HighSurrogate(n: nat) {
    0xD800 <= n <= 0xDBFF
  }

  predicate LowSurrogate(n: nat) {
    0xDC00 <= n <= 0xDFFF
  }

  /** What follows `\u`: one code point, or a pair of surrogates. */
  function Unicode(t: string, p: nat): (r: Option<(char, nat)>)
    ensures r.Some? ==> p < r.value.1 <= |t|
  {
    match Hex4(t, p)
    case None => None
    case Some(code) =>
      if HighSurrogate(code) then
        if At(t, p + 4) != Some('\\') || At(t, p + 5) != Some('u') then None
        else
          match Hex4(t, p + 6)
          case None => None
          case Some(low) =>
            if !LowSurrogate(low) then None
            else Some(((0x10000 + (code - 0xD800) * 0x400 + (low - 0xDC00)) as char, p + 10))
      else if LowSurrogate(code) then None
      else Some((code as char, p + 4))
  }

  /** Hexadecimal digits are read as the number they are. */
  lemma Hex4Means(t: string, p: nat)
    ensures Hex4(t, p).Some? <==> p + 4 <= |t| && Radix.AllDigits(t[p..p + 4], 16)
    ensures Hex4(t, p).Some? ==> Hex4(t, p).value == Radix.Magnitude(t[p..p + 4], 16)
  {
    if p + 4 <= |t| {
      var w := t[p..p + 4];
      forall i | 0 <= i < 4 ensures HexVal(w[i]) == Radix.DigitOf(w[i], 16) {}
      assert forall i :: 0 <= i < 4 ==> w[i] == t[p + i];
      assert Radix.AllDigits(w, 16) <==>
        Radix.IsDigit(w[0], 16) && Radix.IsDigit(w[1], 16) && Radix.IsDigit(w[2], 16) && Radix.IsDigit(w[3], 16);
      if Radix.AllDigits(w, 16) {
        assert w[..3][..2] == w[..2] && w[..2][..1] == w[..1] && w[..1][..0] == "";
        assert Radix.Magnitude(w[..1], 16) == Radix.DigitOf(w[0], 16).value;
        assert Radix.Magnitude(w[..2], 16) == Radix.Magnitude(w[..1], 16) * 16 + Radix.DigitOf(w[1], 16).value;
        assert Radix.Magnitude(w[..3], 16) == Radix.Magnitude(w[..2], 16) * 16 + Radix.DigitOf(w[2], 16).value;
      }
    }
  }

  /** The two UTF-16 units of a character beyond the first plane (section 2.1 of RFC 2781). */
  function HighOf(c: char): nat
    requires c as int >= 0x1_0000
  {
    0xD800 + (c as int - 0x1_0000) / 0x400
  }

  function LowOf(c: char): nat
    requires c as int >= 0x1_0000
  {
    0xDC00 + (c as int - 0x1_0000) % 0x400
  }

  /** An escape stands for a character if and only if its digits are the UTF-16 units of that character: one unit in the
      first plane, both units, each with its own `\\u`, beyond. A surrogate without its partner stands for nothing. */
  lemma UnicodeIs(t: string, p: nat, c: char, q: nat)
    ensures Unicode(t, p) == Some((c, q)) <==>
      if c as int < 0x1_0000 then Hex4(t, p) == Some(c as nat) && q == p + 4
      else
        && Hex4(t, p) == Some(HighOf(c))
        && At(t, p + 4) == Some('\\') && At(t, p + 5) == Some('u')
        && Hex4(t, p + 6) == Some(LowOf(c)) && q == p + 10
  {
    hide Hex4;
  }

  /** The character an escape stands for, read after the backslash. */
  function Unescaped(t: string, p: nat): (r: Option<(char, nat)>)
    ensures r.Some? ==> p < r.value.1 <= |t|
  {
    if p >= |t| then None
    else
      match t[p]
      case '"' => Some(('"', p + 1))
      case '\\' => Some(('\\', p + 1))
      case '/' => Some(('/', p + 1))
      case 'b' => Some((8 as char, p + 1))
      case 'f' => Some((12 as char, p + 1))
      case 'n' => Some(('\n', p + 1))
      case 'r' => Some(('\r', p + 1))
      case 't' => Some(('\t', p + 1))
      case 'u' => Unicode(t, p + 1)
      case _ => None
  }

  /** The rest of a string whose first characters are `out`, and the place after its closing quote. */
  function Chars(t: string, p: nat, out: string): (r: Option<(string, nat)>)
    ensures r.Some? ==> p < r.value.1 <= |t|
    decreases |t| - p
  {
    if p >= |t| then None
    else if t[p] == '"' then Some((out, p + 1))
    else if t[p] == '\\' then
      match Unescaped(t, p + 1)
      case None => None
      case Some((c, q)) => Chars(t, q, out + [c])
    else if t[p] as nat < 0x20 then None
    else Chars(t, p + 1, out + [t[p]])
  }

  function StringAt(t: string, p: nat): (r: Option<(string, nat)>)
    ensures r.Some? ==> p < r.value.1 <= |t|
  {
    if At(t, p) == Some('"') then Chars(t, p + 1, "") else None
  }

  /** A key with its colon. */
  function KeyAt(t: string, p: nat): (r: Option<(string, nat)>)
    requires p <= |t|
    ensures r.Some? ==> p < r.value.1 <= |t|
  {
    match StringAt(t, SkipSpace(t, p))
    case None => None
    case Some((key, k)) =>
      var k := SkipSpace(t, k);
      if At(t, k) == Some(':') then Some((key, k + 1)) else None
  }

  /** A property set on a new object: in place if its key is there, at the end if not. */
  function WithProp(props: seq<Prop>, key: string, val: Json): seq<Prop> {
    if |props| == 0 then [Prop(key, val)]
    else if props[0].key == key then [Prop(key, val)] + props[1..]
    else [props[0]] + WithProp(props[1..], key, val)
  }

  /** The value that starts at `p`, after white space, and the place after it. */
  function ValueAt(t: string, p: nat, num: Numbers): (r: Option<(Json, nat)>)
    requires p <= |t|
    ensures r.Some? ==> p < r.value.1 <= |t|
    decreases |t| - p, 3
  {
    var p := SkipSpace(t, p);
    if p == |t| then None
    else if t[p] == '{' then ObjectAt(t, p, num)
    else if t[p] == '[' then ArrayAt(t, p, num)
    else ScalarAt(t, p, num)
  }

  function ScalarAt(t: string, p: nat, num: Numbers): (r: Option<(Json, nat)>)
    requires p < |t|
    ensures r.Some? ==> p < r.value.1 <= |t|
  {
    if t[p] == '"' then
      match StringAt(t, p)
      case None => None
      case Some((s, q)) => Some((Json.Str(s), q))
    else if t[p] == '-' || IsDigit(t[p]) then
      match NumberEnd(t, p)
      case None => None
      case Some(q) => Some((num.read(t[p..q]), q))
    else WordAt(t, p)
  }

  function WordAt(t: string, p: nat): (r: Option<(Json, nat)>)
    requires p < |t|
    ensures r.Some? ==> p < r.value.1 <= |t|
  {
    if t[p] == 't' then
      if LookingAt(t, p, "true") then Some((Json.Bool(true), p + 4)) else None
    else if t[p] == 'f' then
      if LookingAt(t, p, "false") then Some((Json.Bool(false), p + 5)) else None
    else if t[p] == 'n' then
      if LookingAt(t, p, "null") then Some((Json.Null, p + 4)) else None
    else None
  }

  function ArrayAt(t: string, p: nat, num: Numbers): (r: Option<(Json, nat)>)
    requires p < |t|
    ensures r.Some? ==> p < r.value.1 <= |t|
    decreases |t| - p, 2
  {
    var q := SkipSpace(t, p + 1);
    if At(t, q) == Some(']') then Some((Array([]), q + 1)) else ItemsAt(t, q, [], num)
  }

  function ObjectAt(t: string, p: nat, num: Numbers): (r: Option<(Json, nat)>)
    requires p < |t|
    ensures r.Some? ==> p < r.value.1 <= |t|
    decreases |t| - p, 2
  {
    var q := SkipSpace(t, p + 1);
    if At(t, q) == Some('}') then Some((Object([]), q + 1)) else PropsAt(t, q, [], num)
  }

  /** The rest of an array with some elements read. */
  function ItemsAt(t: string, p: nat, items: seq<Json>, num: Numbers): (r: Option<(Json, nat)>)
    requires p <= |t|
    ensures r.Some? ==> p < r.value.1 <= |t|
    decreases |t| - p, 4
  {
    match ValueAt(t, p, num)
    case None => None
    case Some((v, q)) =>
      var q := SkipSpace(t, q);
      if At(t, q) == Some(',') then ItemsAt(t, SkipSpace(t, q + 1), items + [v], num)
      else if At(t, q) == Some(']') then Some((Array(items + [v]), q + 1))
      else None
  }

  /** The rest of an object with some properties read. */
  function PropsAt(t: string, p: nat, props: seq<Prop>, num: Numbers): (r: Option<(Json, nat)>)
    requires p <= |t|
    ensures r.Some? ==> p < r.value.1 <= |t|
    decreases |t| - p, 4
  {
    match KeyAt(t, p)
    case None => None
    case Some((key, k)) =>
      match ValueAt(t, k, num)
      case None => None
      case Some((v, q)) =>
        var q := SkipSpace(t, q);
        var now := WithProp(props, PropertyNames.Named(key), v);
        if At(t, q) == Some(',') then PropsAt(t, q + 1, now, num)
        else if At(t, q) == Some('}') then Some((Object(now), q + 1))
        else None
  }

  /** `parse_json` */
  function Parsed(t: string, num: Numbers): Option<Json> {
    match ValueAt(t, 0, num)
    case None => None
    case Some((v, q)) => if SkipSpace(t, q) == |t| then Some(v) else None
  }
}
