/** The recursive-descent reader and the printing loops of src/json.rs, in the form the source has. */
module JsonParser {
  import opened Values
  import opened Texts
  import opened JsonText
  import PropertyNames
  import Radix

  /** A cursor over the input; a failed read leaves it somewhere inside. */
  class Parser {
    const input: string
    const num: Numbers
    var pos: nat

    constructor (input: string, num: Numbers)
      ensures this.input == input && this.num == num && pos == 0
    {
      this.input, this.num, pos := input, num, 0;
    }

    method SkipBlank()
      requires pos <= |input|
      modifies this
      ensures pos == SkipSpace(input, old(pos))
    {
      while pos < |input| && IsSpace(input[pos])
        invariant pos <= |input| && SkipSpace(input, pos) == SkipSpace(input, old(pos))
      {
        pos := pos + 1;
      }
    }

    method Next() returns (c: Option<char>)
      requires pos <= |input|
      modifies this
      ensures c == At(input, old(pos)) && pos == (if c.Some? then old(pos) + 1 else old(pos))
    {
      if pos == |input| { return None; }
      c := Some(input[pos]);
      pos := pos + 1;
    }

    method Expect(c: char) returns (ok: bool)
      requires pos <= |input|
      modifies this
      ensures ok == (At(input, old(pos)) == Some(c)) && pos == (if ok then old(pos) + 1 else old(pos))
    {
      ok := pos < |input| && input[pos] == c;
      if ok {
        pos := pos + 1;
      }
    }

    method Consume(lit: string) returns (ok: bool)
      requires pos <= |input|
      modifies this
      ensures ok == LookingAt(input, old(pos), lit) && pos == (if ok then old(pos) + |lit| else old(pos))
    {
      ok := |input| - pos >= |lit| && input[pos..pos + |lit|] == lit;
      if ok {
        pos := pos + |lit|;
      }
    }

    method ReadDigits()
      requires pos <= |input|
      modifies this
      ensures pos == SkipDigits(input, old(pos))
    {
      while pos < |input| && IsDigit(input[pos])
        invariant pos <= |input| && SkipDigits(input, pos) == SkipDigits(input, old(pos))
      {
        pos := pos + 1;
      }
    }

    method ReadFraction() returns (ok: bool)
      requires pos <= |input|
      modifies this
      ensures pos <= |input| && SkipFraction(input, old(pos)) == if ok then Some(pos) else None
    {
      ok := Expect('.');
      if !ok { return true; }
      if !DigitAt(input, pos) { return false; }
      ReadDigits();
    }

    method ReadExponent() returns (ok: bool)
      requires pos <= |input|
      modifies this
      ensures pos <= |input| && SkipExponent(input, old(pos)) == if ok then Some(pos) else None
    {
      if At(input, pos) != Some('e') && At(input, pos) != Some('E') { return true; }
      pos := pos + 1;
      if At(input, pos) == Some('+') || At(input, pos) == Some('-') {
        pos := pos + 1;
      }
      if !DigitAt(input, pos) { return false; }
      ReadDigits();
      ok := true;
    }

    /** `parse_number` */
    method ReadNumber() returns (v: Option<Json>)
      requires pos < |input|
      modifies this
      ensures pos <= |input|
      ensures match NumberEnd(input, old(pos))
        case None => v == None
        case Some(q) => v == Some(num.read(input[old(pos)..q])) && pos == q
    {
      var start := pos;
      if input[pos] == '-' {
        pos := pos + 1;
      }
      if !DigitAt(input, pos) { return None; }
      if input[pos] == '0' {
        pos := pos + 1;
      } else {
        ReadDigits();
      }
      var ok := ReadFraction();
      if !ok { return None; }
      ok := ReadExponent();
      if !ok { return None; }
      v := Some(num.read(input[start..pos]));
    }

    /** `parse_hex4`: the value is gathered four bits at a time. */
    method ReadHex4() returns (code: Option<nat>)
      requires pos <= |input|
      modifies this
      ensures pos <= |input| && code == Hex4(input, old(pos)) && (code.Some? ==> pos == old(pos) + 4)
    {
      var val, i := 0, 0;
      while i < 4
        invariant i <= 4 && pos == old(pos) + i <= |input|
        invariant forall k :: old(pos) <= k < pos ==> HexVal(input[k]).Some?
        invariant val == HexSum(input[old(pos)..pos])
      {
        var c := Next();
        if c.None? || HexVal(c.value).None? { return None; }
        assert input[old(pos)..pos] == input[old(pos)..pos - 1] + [c.value];
        val := val * 16 + HexVal(c.value).value;
        i := i + 1;
      }
      HexOfFour(input, old(pos));
      code := Some(val);
    }

    /** The character an escape stands for, after its backslash. */
    method ReadEscape() returns (c: Option<char>)
      requires pos <= |input|
      modifies this
      ensures pos <= |input| && Unescaped(input, old(pos)) == if c.Some? then Some((c.value, pos)) else None
    {
      var esc := Next();
      if esc.None? { return None; }
      match esc.value {
        case '"' => c := Some('"');
        case '\\' => c := Some('\\');
        case '/' => c := Some('/');
        case 'b' => c := Some(8 as char);
        case 'f' => c := Some(12 as char);
        case 'n' => c := Some('\n');
        case 'r' => c := Some('\r');
        case 't' => c := Some('\t');
        case 'u' => c := ReadUnicode();
        case _ => c := None;
      }
    }

    method ReadUnicode() returns (c: Option<char>)
      requires pos <= |input|
      modifies this
      ensures pos <= |input| && Unicode(input, old(pos)) == if c.Some? then Some((c.value, pos)) else None
    {
      hide Hex4;
      var code := ReadHex4();
      if code.None? { return None; }
      if HighSurrogate(code.value) {
        var a := Next();
        if a != Some('\\') { return None; }
        var b := Next();
        if b != Some('u') { return None; }
        var low := ReadHex4();
        if low.None? || !LowSurrogate(low.value) { return None; }
        c := Some((0x10000 + (code.value - 0xD800) * 0x400 + (low.value - 0xDC00)) as char);
      } else if LowSurrogate(code.value) {
        c := None;
      } else {
        c := Some(code.value as char);
      }
    }

    /** `parse_string_bytes` */
    method ReadString() returns (s: Option<string>)
      requires pos <= |input|
      modifies this
      ensures pos <= |input| && StringAt(input, old(pos)) == if s.Some? then Some((s.value, pos)) else None
    {
      var ok := Expect('"');
      if !ok { return None; }
      var out := "";
      while pos < |input|
        invariant pos <= |input| && StringAt(input, old(pos)) == Chars(input, pos, out)
        decreases |input| - pos
      {
        var c := input[pos];
        pos := pos + 1;
        if c == '"' { return Some(out); }
        if c == '\\' {
          var e := ReadEscape();
          if e.None? { return None; }
          out := out + [e.value];
        } else if c as nat < 0x20 {
          return None;
        } else {
          out := out + [c];
        }
      }
      s := None;
    }

    /** `parse_value` */
    method ReadValue() returns (v: Option<Json>)
      requires pos <= |input|
      modifies this
      ensures pos <= |input| && ValueAt(input, old(pos), num) == if v.Some? then Some((v.value, pos)) else None
      decreases |input| - pos, 3
    {
      SkipBlank();
      if pos == |input| { return None; }
      var c := input[pos];
      if c == '{' {
        v := ReadObject();
      } else if c == '[' {
        v := ReadArray();
      } else {
        v := ReadScalar();
      }
    }

    method ReadScalar() returns (v: Option<Json>)
      requires pos < |input|
      modifies this
      ensures pos <= |input| && ScalarAt(input, old(pos), num) == if v.Some? then Some((v.value, pos)) else None
    {
      var c := input[pos];
      if c == '"' {
        var s := ReadString();
        v := if s.Some? then Some(Json.Str(s.value)) else None;
      } else if c == '-' || IsDigit(c) {
        v := ReadNumber();
      } else {
        v := ReadWord();
      }
    }

    method ReadWord() returns (v: Option<Json>)
      requires pos < |input|
      modifies this
      ensures pos <= |input| && WordAt(input, old(pos)) == if v.Some? then Some((v.value, pos)) else None
    {
      v := None;
      match input[pos] {
        case 't' =>
          var ok := Consume("true");
          if ok { v := Some(Json.Bool(true)); }
        case 'f' =>
          var ok := Consume("false");
          if ok { v := Some(Json.Bool(false)); }
        case 'n' =>
          var ok := Consume("null");
          if ok { v := Some(Json.Null); }
        case _ =>
      }
    }

    /** `parse_array` */
    method ReadArray() returns (v: Option<Json>)
      requires pos < |input| && input[pos] == '['
      modifies this
      ensures pos <= |input| && ArrayAt(input, old(pos), num) == if v.Some? then Some((v.value, pos)) else None
      decreases |input| - pos, 2
    {
      var ok := Expect('[');
      SkipBlank();
      ok := Expect(']');
      if ok { return Some(Array([])); }
      v := ReadItems();
    }

    /** The elements of an array that has some, and its bracket. */
    method ReadItems() returns (v: Option<Json>)
      requires pos <= |input|
      modifies this
      ensures pos <= |input| && ItemsAt(input, old(pos), [], num) == if v.Some? then Some((v.value, pos)) else None
      decreases |input| - pos, 4
    {
      hide ValueAt, SkipSpace;
      ghost var start := pos;
      var items := [];
      while true
        invariant start <= pos <= |input|
        invariant ItemsAt(input, pos, items, num) == ItemsAt(input, start, [], num)
        decreases |input| - pos
      {
        var item := ReadValue();
        if item.None? { return None; }
        items := items + [item.value];
        SkipBlank();
        var ok := Expect(',');
        if ok {
          SkipBlank();
        } else {
          ok := Expect(']');
          return if ok then Some(Array(items)) else None;
        }
      }
    }

    /** The key of a property, with its colon. */
    method ReadKey() returns (key: Option<string>)
      requires pos <= |input|
      modifies this
      ensures pos <= |input| && KeyAt(input, old(pos)) == if key.Some? then Some((key.value, pos)) else None
    {
      SkipBlank();
      key := ReadString();
      if key.None? { return; }
      SkipBlank();
      var ok := Expect(':');
      if !ok { key := None; }
    }

    /** The key under which an object keeps the property of that name. */
    method PropertyKey(name: string) returns (key: string)
      ensures key == PropertyNames.Named(name)
    {
      var index := PropertyNames.ParseIndex(name);
      key := name;
      if index.Some? {
        key := Radix.FormatRadixInt(index.value, 10);
      }
    }

    /** `parse_object` */
    method ReadObject() returns (v: Option<Json>)
      requires pos < |input| && input[pos] == '{'
      modifies this
      ensures pos <= |input| && ObjectAt(input, old(pos), num) == if v.Some? then Some((v.value, pos)) else None
      decreases |input| - pos, 2
    {
      var ok := Expect('{');
      SkipBlank();
      ok := Expect('}');
      if ok { return Some(Object([])); }
      v := ReadProps();
    }

    /** The properties of an object that has some, and its brace. */
    method ReadProps() returns (v: Option<Json>)
      requires pos <= |input|
      modifies this
      ensures pos <= |input| && PropsAt(input, old(pos), [], num) == if v.Some? then Some((v.value, pos)) else None
      decreases |input| - pos, 4
    {
      hide ValueAt, KeyAt, WithProp, SkipSpace, PropertyNames.Named;
      ghost var start := pos;
      var props := [];
      while true
        invariant start <= pos <= |input|
        invariant PropsAt(input, pos, props, num) == PropsAt(input, start, [], num)
        decreases |input| - pos
      {
        var key := ReadKey();
        if key.None? { return None; }
        var val := ReadValue();
        if val.None? { return None; }
        var name := PropertyKey(key.value);
        props := WithProp(props, name, val.value);
        SkipBlank();
        var ok := Expect(',');
        if !ok {
          ok := Expect('}');
          return if ok then Some(Object(props)) else None;
        }
      }
    }
  }

  /** The number four bits at a time. */
  function HexSum(s: string): nat
    requires forall k :: 0 <= k < |s| ==> HexVal(s[k]).Some?
  {
    if |s| == 0 then 0 else HexSum(s[..|s| - 1]) * 16 + HexVal(s[|s| - 1]).value
  }

  lemma HexOfFour(t: string, p: nat)
    requires p + 4 <= |t| && forall k :: p <= k < p + 4 ==> HexVal(t[k]).Some?
    ensures Hex4(t, p) == Some(HexSum(t[p..p + 4]))
  {
    var s := t[p..p + 4];
    assert s[..3][..2] == s[..2] && s[..2][..1] == s[..1] && s[..1][..0] == "";
    assert HexSum(s[..1]) == HexVal(t[p]).value;
    assert HexSum(s[..2]) == HexSum(s[..1]) * 16 + HexVal(t[p + 1]).value;
    assert HexSum(s[..3]) == HexSum(s[..2]) * 16 + HexVal(t[p + 2]).value;
  }

  /** `parse_json` */
  method ParseJson(input: string, num: Numbers) returns (v: Option<Json>)
    ensures v == Parsed(input, num)
  {
    var parser := new Parser(input, num);
    v := parser.ReadValue();
    if v.None? { return; }
    parser.SkipBlank();
    if parser.pos != |input| { v := None; }
  }

  /** `json_stringify_value_inner` */
  method Stringify(v: Json, inArray: bool, num: Numbers) returns (text: Option<string>)
    ensures text == Text(v, inArray, num)
    decreases v, 1
  {
    match v {
      case Undefined => text := if inArray then Some("null") else None;
      case Null => text := Some("null");
      case Bool(b) => text := Some(if b then "true" else "false");
      case Int(i) => text := Some(Decimal(i));
      case Float(bits) => text := Some(num.show(bits));
      case Str(s) =>
        var quoted := Quote(s);
        text := Some(quoted);
      case Array(_) =>
        var t := StringifyArray(v, num);
        text := Some(t);
      case Object(_) =>
        var t := StringifyObject(v, num);
        text := Some(t);
    }
  }

  method StringifyArray(v: Json, num: Numbers) returns (text: string)
    requires v.Array?
    ensures text == "[" + ItemsText(v, 0, num) + "]"
    decreases v, 0
  {
    hide Text;
    text := "[";
    for i := 0 to |v.items|
      invariant text + ItemsText(v, i, num) == "[" + ItemsText(v, 0, num)
    {
      ghost var before := text;
      var elem := Stringify(v.items[i], true, num);
      var shown := match elem case Some(t) => t case None => "null";
      text := text + (if i > 0 then "," else "") + shown;
      assert before + ((if i > 0 then "," else "") + shown + ItemsText(v, i + 1, num)) == text + ItemsText(v, i + 1, num);
    }
    assert text + "" == text;
    text := text + "]";
  }

  method StringifyObject(v: Json, num: Numbers) returns (text: string)
    requires v.Object?
    ensures text == "{" + PropsText(v, 0, true, num) + "}"
    decreases v, 0
  {
    hide Text;
    text := "{";
    var first := true;
    for i := 0 to |v.props|
      invariant text + PropsText(v, i, first, num) == "{" + PropsText(v, 0, true, num)
    {
      ghost var before, wasFirst := text, first;
      var prop := Stringify(v.props[i].val, false, num);
      if prop.Some? {
        var comma := if first then "" else ",";
        text := text + comma + "\"" + v.props[i].key + "\":" + prop.value;
        first := false;
        ghost var rest := PropsText(v, i + 1, false, num);
        assert PropsText(v, i, wasFirst, num) == comma + "\"" + v.props[i].key + "\":" + prop.value + rest;
        assert before + (comma + "\"" + v.props[i].key + "\":" + prop.value + rest) == text + rest;
      }
    }
    assert text + "" == text;
    text := text + "}";
  }

  method Quote(s: string) returns (text: string)
    ensures text == Quoted(s)
  {
    text := "\"";
    for i := 0 to |s|
      invariant text + Escaped(s[i..]) == "\"" + Escaped(s)
    {
      assert s[i..][1..] == s[i + 1..];
      assert text + (EscapedChar(s[i]) + Escaped(s[i + 1..])) == text + EscapedChar(s[i]) + Escaped(s[i + 1..]);
      text := text + EscapedChar(s[i]);
    }
    assert text + Escaped("") == text;
    text := text + "\"";
  }
}
