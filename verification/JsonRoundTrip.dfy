/** Reading back what was written (src/json.rs; RFC 8259, sections 4 to 7). */
module JsonRoundTrip {
  import opened Values
  import Radix
  import PropertyNames
  import opened Texts
  import opened JsonText

  // ---- what survives ----

  /** Control characters other than tab, line feed and carriage return are written raw, and refused on reading. */
  predicate TameChar(c: char) {
    c as nat >= 0x20 || c == '\t' || c == '\n' || c == '\r'
  }

  predicate Tame(s: string) {
    forall i :: 0 <= i < |s| ==> TameChar(s[i])
  }

  predicate KeyChar(c: char) {
    c as nat >= 0x20 && c != '"' && c != '\\'
  }

  /** Keys are written without escapes. */
  predicate PlainKey(k: string) {
    forall i :: 0 <= i < |k| ==> KeyChar(k[i])
  }

  /** The key of a property, which is an index in its shortest form or a name that is no index, and plain. */
  predicate GoodKey(k: string) {
    PlainKey(k) && PropertyNames.Named(k) == k
  }

  /** Values without floats whose keys are plain and occur once. */
  predicate Keyed(v: Json) {
    match v
    case Float(_) => false
    case Array(items) => forall i :: 0 <= i < |items| ==> Keyed(items[i])
    case Object(props) =>
      (forall i :: 0 <= i < |props| ==> GoodKey(props[i].key) && Keyed(props[i].val)) && DistinctKeys(props)
    case _ => true
  }

  /** Every string in the value is tame. */
  predicate AllTame(v: Json) {
    match v
    case Str(s) => Tame(s)
    case Array(items) => forall i :: 0 <= i < |items| ==> AllTame(items[i])
    case Object(props) => forall i :: 0 <= i < |props| ==> AllTame(props[i].val)
    case _ => true
  }

  predicate TameItems(v: Json, i: nat)
    requires v.Array?
  {
    forall k :: i <= k < |v.items| ==> AllTame(v.items[k])
  }

  predicate TameProps(v: Json, i: nat)
    requires v.Object?
  {
    forall k :: i <= k < |v.props| ==> AllTame(v.props[k].val)
  }

  predicate DistinctKeys(props: seq<Prop>) {
    forall i, j :: 0 <= i < j < |props| ==> props[i].key != props[j].key
  }

  /** What comes back: undefined elements as null, undefined properties not at all. */
  function Normal(v: Json): Json
    decreases v, 1, 0
  {
    match v
    case Undefined => Json.Null
    case Array(_) => Array(NormalItems(v, 0))
    case Object(_) => Object(NormalProps(v, 0))
    case _ => v
  }

  function NormalItems(v: Json, i: nat): seq<Json>
    requires v.Array? && i <= |v.items|
    decreases v, 0, |v.items| - i
  {
    if i == |v.items| then [] else [Normal(v.items[i])] + NormalItems(v, i + 1)
  }

  function NormalProps(v: Json, i: nat): seq<Prop>
    requires v.Object? && i <= |v.props|
    decreases v, 0, |v.props| - i
  {
    if i == |v.props| then []
    else if v.props[i].val.Undefined? then NormalProps(v, i + 1)
    else [Prop(v.props[i].key, Normal(v.props[i].val))] + NormalProps(v, i + 1)
  }

  predicate NoUndefined(v: Json) {
    match v
    case Undefined => false
    case Array(items) => forall i :: 0 <= i < |items| ==> NoUndefined(items[i])
    case Object(props) => forall i :: 0 <= i < |props| ==> NoUndefined(props[i].val)
    case _ => true
  }

  /** Undefined has no text of its own, is `null` in an array, and leaves no property of an object. */
  lemma UndefinedSeen(num: Numbers)
    ensures Text(Json.Undefined, false, num) == None && Text(Array([Json.Undefined]), false, num) == Some("[null]")
    ensures Text(Object([Prop("a", Json.Undefined)]), false, num) == Some("{}")
    ensures Text(Object([Prop("a", Json.Undefined), Prop("b", Json.Null)]), false, num) == Some("{\"b\":null}")
  {
    var none := Array([Json.Undefined]);
    var one, two := Object([Prop("a", Json.Undefined)]), Object([Prop("a", Json.Undefined), Prop("b", Json.Null)]);
    assert ItemsText(none, 1, num) == "";
    assert ItemsText(none, 0, num) == "" + "null" + "";
    assert PropsText(one, 1, true, num) == "";
    assert PropsText(one, 0, true, num) == "";
    assert PropsText(two, 2, false, num) == "";
    assert PropsText(two, 1, true, num) == "" + "\"" + "b" + "\":" + "null" + "";
    assert PropsText(two, 0, true, num) == PropsText(two, 1, true, num);
    hide ItemsText, PropsText;
    assert "" + "null" + "" == "null" && "" + "\"" + "b" + "\":" + "null" + "" == "\"b\":null";
    assert "[" + "null" + "]" == "[null]" && "{" + "" + "}" == "{}" && "{" + "\"b\":null" + "}" == "{\"b\":null}";
    assert Text(none, false, num) == Some("[" + ItemsText(none, 0, num) + "]");
    assert Text(one, false, num) == Some("{" + PropsText(one, 0, true, num) + "}");
    assert Text(two, false, num) == Some("{" + PropsText(two, 0, true, num) + "}");
  }

  /** A value with no undefined in it comes back as itself. */
  lemma {:induction false} NormalIsSelf(v: Json)
    requires NoUndefined(v)
    ensures Normal(v) == v
    decreases v, 1, 0
  {
    match v {
      case Array(items) =>
        ItemsSelf(v, 0);
        assert items[0..] == items;
      case Object(props) =>
        PropsSelf(v, 0);
        assert props[0..] == props;
      case _ =>
    }
  }

  lemma {:induction false} ItemsSelf(v: Json, i: nat)
    requires v.Array? && i <= |v.items| && NoUndefined(v)
    ensures NormalItems(v, i) == v.items[i..]
    decreases v, 0, |v.items| - i
  {
    if i < |v.items| {
      NormalIsSelf(v.items[i]);
      ItemsSelf(v, i + 1);
    }
  }

  lemma {:induction false} PropsSelf(v: Json, i: nat)
    requires v.Object? && i <= |v.props| && NoUndefined(v)
    ensures NormalProps(v, i) == v.props[i..]
    decreases v, 0, |v.props| - i
  {
    if i < |v.props| {
      NormalIsSelf(v.props[i].val);
      PropsSelf(v, i + 1);
    }
  }

  // ---- strings ----

  /** One character, however it is written. */
  lemma EscapeStep(t: string, p: nat, c: char, out: string)
    requires TameChar(c) && LookingAt(t, p, EscapedChar(c))
    ensures Chars(t, p, out) == Chars(t, p + |EscapedChar(c)|, out + [c])
  {
    var e := EscapedChar(c);
    assert t[p] == t[p..p + |e|][0] == e[0];
    if |e| == 2 { assert t[p + 1] == t[p..p + |e|][1] == e[1]; }
  }

  lemma {:induction false} EscapedBack(t: string, p: nat, s: string, out: string)
    requires Tame(s) && LookingAt(t, p, Escaped(s) + "\"")
    ensures Chars(t, p, out) == Some((out + s, p + |Escaped(s)| + 1))
    decreases |s|, 0
  {
    if |s| == 0 {
      CharAt(t, p, Escaped(s) + "\"", 0);
      assert out + s == out;
    } else {
      var e, more := EscapedChar(s[0]), Escaped(s[1..]) + "\"";
      assert e + more == Escaped(s) + "\"";
      EscapedTail(t, p, s[0], s[1..], more, out);
      assert out + [s[0]] + s[1..] == out + s;
    }
  }

  lemma {:induction false} EscapedTail(t: string, p: nat, c: char, s: string, more: string, out: string)
    requires TameChar(c) && Tame(s) && more == Escaped(s) + "\"" && LookingAt(t, p, EscapedChar(c) + more)
    ensures Chars(t, p, out) == Some((out + [c] + s, p + |EscapedChar(c)| + |more|))
    decreases |s|, 1
  {
    hide Chars, LookingAt, EscapedChar, Escaped;
    Split(t, p, EscapedChar(c), more);
    EscapeStep(t, p, c, out);
    EscapedBack(t, p + |EscapedChar(c)|, s, out + [c]);
  }

  lemma {:induction false} WildChar(t: string, p: nat, s: string, out: string)
    requires !Tame(s) && LookingAt(t, p, Escaped(s))
    ensures Chars(t, p, out) == None
    decreases |s|
  {
    if !TameChar(s[0]) {
      CharAt(t, p, Escaped(s), 0);
    } else {
      hide LookingAt, Chars;
      Split(t, p, EscapedChar(s[0]), Escaped(s[1..]));
      EscapeStep(t, p, s[0], out);
      WildChar(t, p + |EscapedChar(s[0])|, s[1..], out + [s[0]]);
    }
  }

  lemma {:induction false} KeyBack(t: string, p: nat, k: string, out: string)
    requires PlainKey(k) && LookingAt(t, p, k + "\"")
    ensures Chars(t, p, out) == Some((out + k, p + |k| + 1))
    decreases |k|
  {
    Split(t, p, k, "\"");
    if |k| == 0 {
      assert t[p] == '"';
      assert out + k == out;
    } else {
      Split(t, p, [k[0]], k[1..] + "\"");
      assert [k[0]] + (k[1..] + "\"") == k + "\"";
      assert t[p] == k[0];
      KeyBack(t, p + 1, k[1..], out + [k[0]]);
      assert out + [k[0]] + k[1..] == out + k;
    }
  }

  // ---- numbers ----

  ghost predicate ReadsIntegers(num: Numbers) {
    forall i: i32 :: num.read(Decimal(i)) == Json.Int(i)
  }

  /** A value's text is followed by nothing, a comma or a closing bracket. */
  predicate Ends(t: string, p: nat) {
    p >= |t| || t[p] == ',' || t[p] == ']' || t[p] == '}'
  }

  lemma {:induction false} DigitsBack(t: string, p: nat, q: nat)
    requires p <= q <= |t| && Ends(t, q) && forall i :: p <= i < q ==> IsDigit(t[i])
    ensures SkipDigits(t, p) == q
    decreases q - p
  {
    if p < q { DigitsBack(t, p + 1, q); }
  }

  lemma DecimalShape(i: i32)
    ensures var d := Decimal(i); var u := Radix.Unsigned(d);
      |u| > 0 && (forall k :: 0 <= k < |u| ==> IsDigit(u[k])) && (u[0] == '0' ==> d == "0")
  {
    Radix.FormatIsCanonical(i, 10);
    var u := Radix.Unsigned(Decimal(i));
    forall k | 0 <= k < |u| ensures IsDigit(u[k]) { assert Radix.IsLower(u[k], 10); }
  }

  lemma NumberBack(t: string, p: nat, i: i32)
    requires LookingAt(t, p, Decimal(i)) && Ends(t, p + |Decimal(i)|)
    ensures p < |t| && NumberEnd(t, p) == Some(p + |Decimal(i)|) && t[p..p + |Decimal(i)|] == Decimal(i)
    ensures t[p] == '-' || IsDigit(t[p])
  {
    hide Radix.Format, NumberEnd;
    DecimalShape(i);
    var d := Decimal(i);
    var u := Radix.Unsigned(d);
    var s, q := p + |d| - |u|, p + |d|;
    forall k | 0 <= k < |d| ensures t[p + k] == d[k] { CharAt(t, p, d, k); }
    forall k | s <= k < q ensures IsDigit(t[k]) {
      assert t[p + (k - p)] == d[k - p] == u[k - s];
      assert IsDigit(u[k - s]);
    }
    assert t[p + 0] == d[0];
    DigitsEnd(t, p, s, q);
  }

  lemma DigitsEnd(t: string, p: nat, s: nat, q: nat)
    requires p <= s <= p + 1 && s < q <= |t| && Ends(t, q) && (forall k :: s <= k < q ==> IsDigit(t[k]))
    requires (s == p + 1 <==> t[p] == '-') && (t[s] == '0' ==> q == s + 1)
    ensures NumberEnd(t, p) == Some(q)
  {
    DigitsBack(t, s, q);
  }

  // ---- values ----

  function ItemText(v: Json, num: Numbers): string {
    match Text(v, true, num)
    case Some(t) => t
    case None => "null"
  }

  /** A text starts with no white space, nor with a bracket that closes. */
  lemma TextStarts(v: Json, inArray: bool, num: Numbers)
    requires Keyed(v) && Text(v, inArray, num).Some?
    ensures var w := Text(v, inArray, num).value; |w| > 0 && !IsSpace(w[0]) && w[0] != ']' && w[0] != '}'
  {
    if v.Int? {
      DecimalShape(v.i);
      var d := Decimal(v.i);
      assert d[0] == '-' || d[0] == Radix.Unsigned(d)[0];
    }
  }

  /** What reading a value's text gives when the text ends at `q`: the value, or a refusal. */
  function Read(v: Json, q: nat): Option<(Json, nat)> {
    if AllTame(v) then Some((Normal(v), q)) else None
  }

  predicate Scalar(v: Json) {
    !v.Array? && !v.Object?
  }

  lemma WordBack(v: Json, t: string, p: nat, num: Numbers)
    requires v.Null? || v.Bool? || v.Undefined?
    requires LookingAt(t, p, ItemText(v, num))
    ensures p < |t| && WordAt(t, p) == Some((Normal(v), p + |ItemText(v, num)|)) && 'f' <= t[p] <= 't'
  {
    hide Keyed;
    var w := ItemText(v, num);
    assert t[p..p + |w|][0] == w[0];
  }

  lemma StringBack(t: string, p: nat, s: string)
    requires LookingAt(t, p, Quoted(s))
    ensures p < |t| && t[p] == '"' && StringAt(t, p) == if Tame(s) then Some((s, p + |Quoted(s)|)) else None
  {
    Split(t, p, "\"", Escaped(s) + "\"");
    assert "\"" + (Escaped(s) + "\"") == Quoted(s);
    assert t[p..p + 1][0] == '"';
    if Tame(s) {
      EscapedBack(t, p + 1, s, "");
      assert "" + s == s;
    } else {
      Split(t, p + 1, Escaped(s), "\"");
      WildChar(t, p + 1, s, "");
    }
  }

  lemma ScalarBack(v: Json, inArray: bool, t: string, p: nat, num: Numbers)
    requires Scalar(v) && Keyed(v) && ReadsIntegers(num) && Text(v, inArray, num).Some?
    requires var w := Text(v, inArray, num).value; LookingAt(t, p, w) && Ends(t, p + |w|)
    ensures p < |t| && t[p] != '{' && t[p] != '['
    ensures ScalarAt(t, p, num) == Read(v, p + |Text(v, inArray, num).value|)
  {
    hide NumberEnd, StringAt, WordAt, Decimal, Quoted, LookingAt;
    match v {
      case Int(i) => NumberBack(t, p, i);
      case Str(s) => StringBack(t, p, s);
      case _ => WordBack(v, t, p, num);
    }
  }

  lemma {:induction false} ValueBack(v: Json, inArray: bool, t: string, p: nat, num: Numbers)
    requires Keyed(v) && ReadsIntegers(num) && Text(v, inArray, num).Some?
    requires var w := Text(v, inArray, num).value; LookingAt(t, p, w) && Ends(t, p + |w|)
    ensures ValueAt(t, p, num) == Read(v, p + |Text(v, inArray, num).value|)
    decreases v, 2, 0
  {
    hide ScalarAt, ArrayAt, ObjectAt, AllTame;
    TextStarts(v, inArray, num);
    CharAt(t, p, Text(v, inArray, num).value, 0);
    if v.Array? {
      ArrayBack(v, t, p, num);
    } else if v.Object? {
      ObjectBack(v, t, p, num);
    } else {
      ScalarBack(v, inArray, t, p, num);
    }
  }

  lemma {:induction false} ArrayBack(v: Json, t: string, p: nat, num: Numbers)
    requires v.Array? && Keyed(v) && ReadsIntegers(num) && LookingAt(t, p, "[" + ItemsText(v, 0, num) + "]")
    ensures ArrayAt(t, p, num) == Read(v, p + |ItemsText(v, 0, num)| + 2)
    decreases v, 1, 0
  {
    hide ItemsAt, NormalItems, NormalProps, Text, ItemText, ItemsText, LookingAt, Keyed;
    ArrayLayout(v, t, p, num);
    if |v.items| > 0 {
      ItemsBack(v, 0, t, p + 1, [], num);
      assert [] + NormalItems(v, 0) == NormalItems(v, 0);
    }
  }

  lemma ArrayLayout(v: Json, t: string, p: nat, num: Numbers)
    requires v.Array? && Keyed(v) && LookingAt(t, p, "[" + ItemsText(v, 0, num) + "]")
    ensures p + 1 < |t| && !IsSpace(t[p + 1]) && (t[p + 1] == ']' <==> v.items == [])
    ensures v.items == [] ==> ItemsText(v, 0, num) == "" && NormalItems(v, 0) == []
    ensures v.items != [] ==>
      var w := ItemText(v.items[0], num) + ItemsText(v, 1, num); LookingAt(t, p + 1, w + "]") && ItemsText(v, 0, num) == w
  {
    hide LookingAt, ItemText, ItemsText, NormalItems, Keyed, Text;
    var inner := ItemsText(v, 0, num);
    AfterBracket(t, p, inner);
    FirstItem(v, num);
    if |v.items| > 0 { assert inner + "]" == ItemText(v.items[0], num) + (ItemsText(v, 1, num) + "]"); }
  }

  lemma AfterBracket(t: string, p: nat, inner: string)
    requires LookingAt(t, p, "[" + inner + "]")
    ensures p + 1 < |t| && LookingAt(t, p + 1, inner + "]") && t[p + 1] == (inner + "]")[0]
  {
    assert "[" + (inner + "]") == "[" + inner + "]";
    Split(t, p, "[", inner + "]");
    CharAt(t, p + 1, inner + "]", 0);
  }

  /** How the text of the elements starts. */
  lemma FirstItem(v: Json, num: Numbers)
    requires v.Array? && Keyed(v)
    ensures v.items == [] ==> ItemsText(v, 0, num) == "" && NormalItems(v, 0) == []
    ensures v.items != [] ==>
      var w := ItemText(v.items[0], num);
      ItemsText(v, 0, num) == w + ItemsText(v, 1, num) && w != "" && !IsSpace(w[0]) && w[0] != ']'
  {
    if |v.items| > 0 {
      TextStarts(v.items[0], true, num);
      hide Text;
    }
  }

  /** One step of the element loop. */
  lemma ItemStep(t: string, p: nat, items: seq<Json>, n: Json, q: nat, num: Numbers)
    requires p <= |t| && q < |t|
    requires ValueAt(t, p, num) == Some((n, q)) || ValueAt(t, p, num) == None
    ensures ValueAt(t, p, num) == None ==> ItemsAt(t, p, items, num) == None
    ensures ValueAt(t, p, num).Some? ==> ItemsRead(t, p, items, n, q, num)
  {
    hide ValueAt;
  }

  /** The element loop goes on, or ends. */
  predicate ItemsRead(t: string, p: nat, items: seq<Json>, n: Json, q: nat, num: Numbers)
    requires p <= |t| && q < |t|
  {
    && (t[q] == ']' ==> ItemsAt(t, p, items, num) == Some((Array(items + [n]), q + 1)))
    && (t[q] == ',' && q + 1 < |t| && !IsSpace(t[q + 1]) ==>
          ItemsAt(t, p, items, num) == ItemsAt(t, q + 1, items + [n], num))
  }

  lemma {:induction false} ItemsBack(v: Json, i: nat, t: string, p: nat, items: seq<Json>, num: Numbers)
    requires v.Array? && i < |v.items| && Keyed(v) && ReadsIntegers(num)
    requires LookingAt(t, p, ItemText(v.items[i], num) + ItemsText(v, i + 1, num) + "]")
    ensures ItemsAt(t, p, items, num)
      == if TameItems(v, i)
         then Some((Array(items + NormalItems(v, i)), p + |ItemText(v.items[i], num) + ItemsText(v, i + 1, num)| + 1))
         else None
    decreases v, 0, |v.items| - i
  {
    hide ValueAt, ItemsAt, Text, Keyed, AllTame, Normal, ItemText, ItemsText;
    var q := p + |ItemText(v.items[i], num)|;
    ItemLayout(v, i, t, p, num);
    ValueBack(v.items[i], true, t, p, num);
    var n := Normal(v.items[i]);
    ItemStep(t, p, items, n, q, num);
    if i + 1 < |v.items| {
      ItemsBack(v, i + 1, t, q + 1, items + [n], num);
      assert items + [n] + NormalItems(v, i + 1) == items + NormalItems(v, i);
    } else {
      assert items + [n] == items + NormalItems(v, i);
    }
  }

  /** Where an element's text ends, and what comes next. */
  lemma ItemLayout(v: Json, i: nat, t: string, p: nat, num: Numbers)
    requires v.Array? && i < |v.items| && Keyed(v)
    requires LookingAt(t, p, ItemText(v.items[i], num) + ItemsText(v, i + 1, num) + "]")
    ensures var w := ItemText(v.items[i], num); var q := p + |w|;
      && Keyed(v.items[i]) && Text(v.items[i], true, num) == Some(w)
      && LookingAt(t, p, w) && q < |t| && t[q] == (if i + 1 < |v.items| then ',' else ']')
      && (i + 1 == |v.items| ==> ItemsText(v, i + 1, num) == "" && NormalItems(v, i) == [Normal(v.items[i])])
      && (i + 1 < |v.items| ==>
            var more := ItemText(v.items[i + 1], num) + ItemsText(v, i + 2, num);
            q + 1 < |t| && !IsSpace(t[q + 1]) && LookingAt(t, q + 1, more + "]") && |ItemsText(v, i + 1, num)| == |more| + 1)
  {
    hide *;
    var w, rest := ItemText(v.items[i], num), ItemsText(v, i + 1, num);
    assert w + (rest + "]") == w + rest + "]";
    Split(t, p, w, rest + "]");
    CharAt(t, p + |w|, rest + "]", 0);
    ThisItem(v, i, num);
    if i + 1 < |v.items| { NextItem(v, i + 1, t, p + |w|, num); }
  }

  lemma ThisItem(v: Json, i: nat, num: Numbers)
    requires v.Array? && i < |v.items| && Keyed(v)
    ensures Keyed(v.items[i]) && Text(v.items[i], true, num) == Some(ItemText(v.items[i], num))
    ensures i + 1 == |v.items| ==> ItemsText(v, i + 1, num) == "" && NormalItems(v, i) == [Normal(v.items[i])]
  {
    TextStarts(v.items[i], true, num);
    hide Text, Normal;
  }

  /** A further element follows a comma at once. */
  lemma NextItem(v: Json, i: nat, t: string, q: nat, num: Numbers)
    requires v.Array? && 0 < i < |v.items| && Keyed(v) && LookingAt(t, q, ItemsText(v, i, num) + "]")
    ensures q + 1 < |t| && t[q] == ',' && !IsSpace(t[q + 1])
    ensures ItemsText(v, i, num) == "," + (ItemText(v.items[i], num) + ItemsText(v, i + 1, num))
    ensures LookingAt(t, q + 1, ItemText(v.items[i], num) + ItemsText(v, i + 1, num) + "]")
  {
    var w := ItemText(v.items[i], num) + ItemsText(v, i + 1, num);
    CommaItem(v, i, num);
    hide *;
    AfterComma(t, q, w);
  }

  lemma CommaItem(v: Json, i: nat, num: Numbers)
    requires v.Array? && 0 < i < |v.items| && Keyed(v)
    ensures var w := ItemText(v.items[i], num) + ItemsText(v, i + 1, num);
      ItemsText(v, i, num) == "," + w && w != "" && !IsSpace(w[0])
  {
    TextStarts(v.items[i], true, num);
    hide Text;
  }

  lemma AfterComma(t: string, q: nat, w: string)
    requires LookingAt(t, q, "," + w + "]") && w != ""
    ensures q + 1 < |t| && t[q] == ',' && t[q + 1] == w[0] && LookingAt(t, q + 1, w + "]")
  {
    assert "," + w + "]" == "," + (w + "]");
    Split(t, q, ",", w + "]");
    hide LookingAt;
    CharAt(t, q, ",", 0);
    CharAt(t, q + 1, w + "]", 0);
  }

  // ---- objects ----

  lemma {:induction false} CommaFirst(v: Json, i: nat, num: Numbers)
    requires v.Object? && i <= |v.props| && Keyed(v)
    ensures var rest := PropsText(v, i, true, num);
      PropsText(v, i, false, num) == if rest == "" then "" else "," + rest
    ensures PropsText(v, i, true, num) == "" ==> NormalProps(v, i) == [] && TameProps(v, i)
    decreases |v.props| - i
  {
    hide Keyed, Text, AllTame, Normal;
    if i < |v.props| {
      CommaFirst(v, i + 1, num);
      KeyedProp(v, i, num);
      TameStep(v, i);
      hide TameProps;
    }
  }

  lemma KeyedProp(v: Json, i: nat, num: Numbers)
    requires v.Object? && i < |v.props| && Keyed(v)
    ensures v.props[i].val.Undefined? <==> Text(v.props[i].val, false, num).None?
    ensures v.props[i].val.Undefined? ==> AllTame(v.props[i].val)
  {
  }

  /** None of the keys is one of the properties still to come. */
  predicate FreshKeys(props: seq<Prop>, v: Json, i: nat)
    requires v.Object? && i <= |v.props|
  {
    forall a, j :: 0 <= a < |props| && i <= j < |v.props| ==> props[a].key != v.props[j].key
  }

  lemma {:induction false} WithNewProp(props: seq<Prop>, key: string, val: Json)
    requires forall a :: 0 <= a < |props| ==> props[a].key != key
    ensures WithProp(props, key, val) == props + [Prop(key, val)]
  {
    if |props| > 0 {
      WithNewProp(props[1..], key, val);
      assert props == [props[0]] + props[1..];
    }
  }

  lemma {:induction false} ObjectBack(v: Json, t: string, p: nat, num: Numbers)
    requires v.Object? && Keyed(v) && ReadsIntegers(num) && LookingAt(t, p, "{" + PropsText(v, 0, true, num) + "}")
    ensures ObjectAt(t, p, num) == Read(v, p + |PropsText(v, 0, true, num)| + 2)
    decreases v, 1, 0
  {
    hide PropsAt, NormalProps, Text, PropsText, Keyed, LookingAt;
    ObjectLayout(v, t, p, num);
    CommaFirst(v, 0, num);
    if PropsText(v, 0, true, num) != "" {
      NoFreshKeys(v);
      PropsBack(v, 0, t, p + 1, [], num);
      assert [] + NormalProps(v, 0) == NormalProps(v, 0);
    }
  }

  lemma NoFreshKeys(v: Json)
    requires v.Object?
    ensures FreshKeys([], v, 0)
  {
  }

  lemma ObjectLayout(v: Json, t: string, p: nat, num: Numbers)
    requires v.Object? && LookingAt(t, p, "{" + PropsText(v, 0, true, num) + "}")
    ensures var inner := PropsText(v, 0, true, num);
      p + 1 < |t| && t[p + 1] == (if inner == "" then '}' else '"') && LookingAt(t, p + 1, inner + "}")
  {
    hide LookingAt, PropsText;
    var inner := PropsText(v, 0, true, num);
    Split(t, p, "{", inner + "}");
    assert "{" + (inner + "}") == "{" + inner + "}";
    CharAt(t, p + 1, inner + "}", 0);
    if inner != "" { PropsStart(v, 0, num); }
  }

  lemma {:induction false} PropsStart(v: Json, i: nat, num: Numbers)
    requires v.Object? && i <= |v.props| && PropsText(v, i, true, num) != ""
    ensures PropsText(v, i, true, num)[0] == '"'
    decreases |v.props| - i
  {
    if Text(v.props[i].val, false, num).None? { PropsStart(v, i + 1, num); }
  }

  lemma {:induction false} PropsBack(v: Json, i: nat, t: string, p: nat, props: seq<Prop>, num: Numbers)
    requires v.Object? && i <= |v.props| && Keyed(v) && ReadsIntegers(num) && FreshKeys(props, v, i)
    requires PropsText(v, i, true, num) != "" && LookingAt(t, p, PropsText(v, i, true, num) + "}")
    ensures PropsAt(t, p, props, num)
      == if TameProps(v, i) then Some((Object(props + NormalProps(v, i)), p + |PropsText(v, i, true, num)| + 1)) else None
    decreases v, 0, |v.props| - i, 1
  {
    hide *;
    EndHasNoText(v, num);
    if v.props[i].val.Undefined? {
      SkippedProp(v, i, props, num);
      PropsBack(v, i + 1, t, p, props, num);
    } else {
      SomeProp(v, i, t, p, props, num);
    }
  }

  lemma EndHasNoText(v: Json, num: Numbers)
    requires v.Object?
    ensures PropsText(v, |v.props|, true, num) == ""
  {
  }

  /** An undefined property leaves no trace. */
  lemma SkippedProp(v: Json, i: nat, props: seq<Prop>, num: Numbers)
    requires v.Object? && i < |v.props| && v.props[i].val.Undefined?
    ensures PropsText(v, i, true, num) == PropsText(v, i + 1, true, num) && NormalProps(v, i) == NormalProps(v, i + 1)
    ensures TameProps(v, i) == TameProps(v, i + 1) && (FreshKeys(props, v, i) ==> FreshKeys(props, v, i + 1))
  {
    assert AllTame(v.props[i].val);
  }

  lemma {:induction false} SomeProp(v: Json, i: nat, t: string, p: nat, props: seq<Prop>, num: Numbers)
    requires v.Object? && i < |v.props| && Keyed(v) && ReadsIntegers(num) && FreshKeys(props, v, i)
    requires !v.props[i].val.Undefined? && LookingAt(t, p, PropsText(v, i, true, num) + "}")
    ensures PropsAt(t, p, props, num)
      == if TameProps(v, i) then Some((Object(props + NormalProps(v, i)), p + |PropsText(v, i, true, num)| + 1)) else None
    decreases v, 0, |v.props| - i, 0
  {
    hide ValueAt, PropsAt, StringAt, Text, PropsText, NormalProps, Normal, Keyed, AllTame, TameProps, LookingAt, FreshKeys, WithProp,
         PropertyNames.Named, PropertyNames.Index;
    PropsLayout(v, i, t, p, num);
    var key, n, w := v.props[i].key, Normal(v.props[i].val), Text(v.props[i].val, false, num).value;
    var q := p + |key| + 3 + |w|;
    ValueBack(v.props[i].val, false, t, p + |key| + 3, num);
    PropStep(t, p, key, n, q, props, num);
    NewKey(v, i, props, n);
    var now := props + [Prop(key, n)];
    if PropsText(v, i + 1, true, num) != "" {
      PropsBack(v, i + 1, t, q + 1, now, num);
    } else {
      assert now + [] == now;
    }
    assert now + NormalProps(v, i + 1) == props + NormalProps(v, i);
  }

  lemma NewKey(v: Json, i: nat, props: seq<Prop>, n: Json)
    requires v.Object? && i < |v.props| && Keyed(v) && FreshKeys(props, v, i)
    ensures var key := v.props[i].key; var now := props + [Prop(key, n)];
      WithProp(props, key, n) == now && FreshKeys(now, v, i + 1)
  {
    WithNewProp(props, v.props[i].key, n);
    assert DistinctKeys(v.props);
    var now := props + [Prop(v.props[i].key, n)];
    forall a, j | 0 <= a < |now| && i + 1 <= j < |v.props| ensures now[a].key != v.props[j].key {
      if a < |props| { assert now[a] == props[a]; }
    }
  }

  /** Where a property's text ends, and what comes next. */
  lemma PropsLayout(v: Json, i: nat, t: string, p: nat, num: Numbers)
    requires v.Object? && i < |v.props| && Keyed(v) && !v.props[i].val.Undefined?
    requires LookingAt(t, p, PropsText(v, i, true, num) + "}")
    ensures Text(v.props[i].val, false, num).Some?
    ensures var key, w := v.props[i].key, Text(v.props[i].val, false, num).value;
      var more := PropsText(v, i + 1, true, num); var k := p + |key| + 2; var q := k + 1 + |w|;
      && Keyed(v.props[i].val) && PropertyNames.Named(key) == key && Ends(t, q)
      && NormalProps(v, i) == [Prop(key, Normal(v.props[i].val))] + NormalProps(v, i + 1)
      && k < |t| && t[p] == '"' && StringAt(t, p) == Some((key, k)) && t[k] == ':' && LookingAt(t, k + 1, w)
      && q < |t| && t[q] == (if more == "" then '}' else ',')
      && (TameProps(v, i) <==> AllTame(v.props[i].val) && TameProps(v, i + 1))
      && (more == "" ==> NormalProps(v, i + 1) == [] && TameProps(v, i + 1) && |PropsText(v, i, true, num)| == q - p)
      && (more != "" ==> LookingAt(t, q + 1, more + "}") && |PropsText(v, i, true, num)| == q - p + 1 + |more|)
  {
    hide *;
    TameStep(v, i);
    PropsParts(v, i, num);
    var key, w := v.props[i].key, Text(v.props[i].val, false, num).value;
    var rest, more := PropsText(v, i + 1, false, num), PropsText(v, i + 1, true, num);
    PropLayout(t, p, key, w, rest + "}");
    CommaFirst(v, i + 1, num);
    RestLayout(t, p + |key| + 3 + |w|, rest, more);
  }

  /** After a property: the brace, or a comma and the others. */
  lemma RestLayout(t: string, q: nat, rest: string, more: string)
    requires LookingAt(t, q, rest + "}") && rest == if more == "" then "" else "," + more
    ensures q < |t| && Ends(t, q) && t[q] == (if more == "" then '}' else ',')
    ensures more != "" ==> LookingAt(t, q + 1, more + "}")
  {
    CharAt(t, q, rest + "}", 0);
    if more != "" {
      assert rest + "}" == "," + (more + "}");
      Split(t, q, ",", more + "}");
    }
  }

  lemma TameStep(v: Json, i: nat)
    requires v.Object? && i < |v.props|
    ensures TameProps(v, i) <==> AllTame(v.props[i].val) && TameProps(v, i + 1)
  {
    hide AllTame;
  }

  lemma PropsParts(v: Json, i: nat, num: Numbers)
    requires v.Object? && i < |v.props| && Keyed(v) && !v.props[i].val.Undefined?
    ensures Keyed(v.props[i].val) && PlainKey(v.props[i].key) && PropertyNames.Named(v.props[i].key) == v.props[i].key
    ensures Text(v.props[i].val, false, num).Some?
    ensures NormalProps(v, i) == [Prop(v.props[i].key, Normal(v.props[i].val))] + NormalProps(v, i + 1)
    ensures var key, w, rest := v.props[i].key, Text(v.props[i].val, false, num).value, PropsText(v, i + 1, false, num);
      && PropsText(v, i, true, num) + "}" == "\"" + key + "\":" + (w + (rest + "}"))
      && |PropsText(v, i, true, num)| == |key| + 3 + |w| + |rest|
  {
    hide Normal, PlainKey, Tame, PropertyNames.Named;
  }

  /** Where the parts of a property's text are. */
  lemma PropLayout(t: string, p: nat, key: string, w: string, after: string)
    requires LookingAt(t, p, "\"" + key + "\":" + (w + after)) && PlainKey(key)
    ensures var k := p + |key| + 2; var q := k + 1 + |w|;
      && k < |t| && t[p] == '"' && StringAt(t, p) == Some((key, k)) && t[k] == ':'
      && LookingAt(t, k + 1, w) && LookingAt(t, q, after)
  {
    hide LookingAt, Chars, PlainKey;
    var k := p + |key| + 2;
    KeyStands(t, p, key, w, after);
    CharAt(t, p, "\"", 0);
    CharAt(t, k, ":", 0);
    KeyBack(t, p + 1, key, "");
    assert "" + key == key;
  }

  lemma KeyStands(t: string, p: nat, key: string, w: string, after: string)
    requires LookingAt(t, p, "\"" + key + "\":" + (w + after))
    ensures var k := p + |key| + 2;
      && LookingAt(t, p, "\"") && LookingAt(t, p + 1, key + "\"") && LookingAt(t, k, ":")
      && LookingAt(t, k + 1, w) && LookingAt(t, k + 1 + |w|, after)
  {
    hide LookingAt;
    var rest := w + after;
    assert "\"" + key + "\":" + rest == "\"" + ((key + "\"") + (":" + rest));
    Split(t, p, "\"", (key + "\"") + (":" + rest));
    Split(t, p + 1, key + "\"", ":" + rest);
    Split(t, p + |key| + 2, ":", rest);
    Split(t, p + |key| + 3, w, after);
  }

  /** One step of the property loop. */
  lemma PropStep(t: string, p: nat, key: string, n: Json, q: nat, props: seq<Prop>, num: Numbers)
    requires p < |t| && t[p] == '"' && q < |t|
    requires var k := p + |key| + 2;
      StringAt(t, p) == Some((key, k)) && k < |t| && t[k] == ':'
      && (ValueAt(t, k + 1, num) == Some((n, q)) || ValueAt(t, k + 1, num) == None)
    ensures ValueAt(t, p + |key| + 3, num) == None ==> PropsAt(t, p, props, num) == None
    ensures ValueAt(t, p + |key| + 3, num).Some? ==>
      && (t[q] == '}' ==> PropsAt(t, p, props, num) == Some((Object(WithProp(props, PropertyNames.Named(key), n)), q + 1)))
      && (t[q] == ',' ==>
           PropsAt(t, p, props, num) == PropsAt(t, q + 1, WithProp(props, PropertyNames.Named(key), n), num))
  {
    hide ValueAt, StringAt, WithProp, PropertyNames.Named;
    assert KeyAt(t, p) == Some((key, p + |key| + 3));
    if t[q] == '}' || t[q] == ',' { assert SkipSpace(t, q) == q; }
  }

  // ---- the results ----

  /** `parse_json(json_stringify_value(v))` rebuilds a value, up to what undefined turns into, if and only if every
      string in it is tame; else the text is refused. */
  lemma RoundTrip(v: Json, num: Numbers)
    requires Keyed(v) && ReadsIntegers(num) && !v.Undefined?
    ensures Text(v, false, num).Some?
    ensures Parsed(Text(v, false, num).value, num) == if AllTame(v) then Some(Normal(v)) else None
  {
    var t := Text(v, false, num).value;
    assert t[0..|t|] == t;
    ValueBack(v, false, t, 0, num);
  }

  /** Reading a string takes at least as many characters as it gives; just as many only where nothing was escaped. */
  lemma {:induction false} CharsTaken(t: string, p: nat, out: string)
    requires Chars(t, p, out).Some?
    ensures var (s, q) := Chars(t, p, out).value;
      && |out| <= |s| && s[..|out|] == out && |s| - |out| <= q - 1 - p && t[q - 1] == '"'
      && (|s| - |out| == q - 1 - p ==> t[p..q - 1] == s[|out|..] && PlainKey(t[p..q - 1]))
    decreases |t| - p
  {
    if t[p] == '"' {
      assert out[|out|..] == t[p..p] == "";
    } else if t[p] == '\\' {
      var (c, r) := Unescaped(t, p + 1).value;
      CharsTaken(t, r, out + [c]);
      var (s, q) := Chars(t, p, out).value;
      assert s[..|out|] == (out + [c])[..|out|] == out;
    } else {
      CharsTaken(t, p + 1, out + [t[p]]);
      var (s, q) := Chars(t, p, out).value;
      assert s[..|out|] == (out + [t[p]])[..|out|] == out;
      if |s| - |out| == q - 1 - p {
        assert t[p..q - 1] == [t[p]] + t[p + 1..q - 1];
        assert s[|out|..] == [t[p]] + s[|out| + 1..];
        var k := t[p + 1..q - 1];
        PlainLonger(t[p], k);
      }
    }
  }

  lemma PlainLonger(c: char, k: string)
    requires KeyChar(c) && PlainKey(k)
    ensures PlainKey([c] + k)
  {
    forall i | 0 <= i < |[c] + k| ensures KeyChar(([c] + k)[i]) {
      if i > 0 { assert ([c] + k)[i] == k[i - 1]; }
    }
  }

  /** A new object on which the property named `k` is set to null. */
  function KeyObject(k: string): Json {
    Object([Prop(PropertyNames.Named(k), Json.Null)])
  }

  predicate HasKey(props: seq<Prop>, key: string) {
    exists i :: 0 <= i < |props| && props[i].key == key
  }

  lemma {:induction false} WithPropKeys(props: seq<Prop>, key: string, val: Json, other: string)
    requires other == key || HasKey(props, other)
    ensures HasKey(WithProp(props, key, val), other)
  {
    var now := WithProp(props, key, val);
    if |props| == 0 || props[0].key == key {
      assert now[0].key == key;
      if other != key {
        var i :| 0 <= i < |props| && props[i].key == other;
        assert now[i].key == other;
      }
    } else if other != key && props[0].key == other {
      assert now[0].key == other;
    } else {
      assert other == key || HasKey(props[1..], other) by {
        if other != key {
          var i :| 0 <= i < |props| && props[i].key == other;
          assert props[1..][i - 1].key == other;
        }
      }
      WithPropKeys(props[1..], key, val, other);
      var i :| 0 <= i < |WithProp(props[1..], key, val)| && WithProp(props[1..], key, val)[i].key == other;
      assert now[i + 1].key == other;
    }
  }

  /** A property once read stays in the object. */
  lemma {:induction false} KeysStay(t: string, p: nat, props: seq<Prop>, num: Numbers, key: string)
    requires p <= |t| && PropsAt(t, p, props, num).Some?
    requires HasKey(props, key) || PropertyNames.Named(KeyAt(t, p).value.0) == key
    ensures var o := PropsAt(t, p, props, num).value.0; o.Object? && HasKey(o.props, key)
    decreases |t| - p
  {
    hide ValueAt, KeyAt, WithProp, SkipSpace, HasKey, PropertyNames.Named;
    var (k, a) := KeyAt(t, p).value;
    var (v, q) := ValueAt(t, a, num).value;
    var name := PropertyNames.Named(k);
    WithPropKeys(props, name, v, key);
    var c := SkipSpace(t, q);
    if At(t, c) == Some(',') { KeysStay(t, c + 1, WithProp(props, name, v), num, key); }
  }

  /** An index is plain in every spelling. */
  lemma PlainIndex(k: string)
    requires PropertyNames.Index(k).Some?
    ensures PlainKey(k) && PlainKey(PropertyNames.Named(k))
  {
    PropertyNames.NamedStays(k);
    DigitsPlain(k);
    DigitsPlain(PropertyNames.Named(k));
  }

  lemma DigitsPlain(k: string)
    requires PropertyNames.Index(k).Some?
    ensures PlainKey(k)
  {
    forall i | 0 <= i < |k| ensures KeyChar(k[i]) {
      assert Radix.IsDigit(k[i], 10);
    }
  }

  /** An object's key is printed without escapes, and the text comes back as the object exactly when the name is plain. */
  lemma KeyComesBack(k: string, num: Numbers)
    requires ReadsIntegers(num)
    ensures Text(KeyObject(k), false, num) == Some("{\"" + PropertyNames.Named(k) + "\":null}")
    ensures Parsed("{\"" + PropertyNames.Named(k) + "\":null}", num) == Some(KeyObject(k)) <==> PlainKey(k)
  {
    hide PropertyNames.Index, PropertyNames.Named, PlainKey, Parsed, Text;
    var name := PropertyNames.Named(k);
    KeyObjectText(name, num);
    PropertyNames.NamedStays(k);
    if PropertyNames.Index(k).Some? { PlainIndex(k); } else { NoIndex(k); }
    if PlainKey(k) {
      KeyRead(name, num);
    } else {
      WildKey(k, num);
    }
  }

  lemma NoIndex(k: string)
    requires PropertyNames.Index(k).None?
    ensures PropertyNames.Named(k) == k
  {
  }

  /** Whatever its spelling, a plain name in a text sets the property of that name: `{"01":null}` has the property `1`. */
  lemma KeyRead(k: string, num: Numbers)
    requires PlainKey(k) && ReadsIntegers(num)
    ensures Parsed("{\"" + k + "\":null}", num) == Some(KeyObject(k))
  {
    var t := "{\"" + k + "\":null}";
    var q := |k| + 8;
    OneProp(t, k);
    hide PropsAt, StringAt, LookingAt, PlainKey, PropertyNames.Named, Text;
    NullRead(t, |k| + 4, num);
    PropStep(t, 1, k, Json.Null, q, [], num);
    assert SkipSpace(t, 0) == 0 && SkipSpace(t, 1) == 1;
    assert ObjectAt(t, 0, num) == PropsAt(t, 1, [], num);
    assert SkipSpace(t, q + 1) == |t|;
  }

  lemma OneProp(t: string, k: string)
    requires t == "{\"" + k + "\":null}" && PlainKey(k)
    ensures |t| == |k| + 9 && t[0] == '{' && t[1] == '"' && StringAt(t, 1) == Some((k, |k| + 3)) && t[|k| + 3] == ':'
    ensures LookingAt(t, |k| + 4, "null") && t[|k| + 8] == '}'
  {
    assert t[1..1 + (|t| - 1)] == "\"" + k + "\":" + ("null" + "}");
    hide StringAt, PlainKey;
    PropLayout(t, 1, k, "null", "}");
  }

  lemma NullRead(t: string, p: nat, num: Numbers)
    requires LookingAt(t, p, "null") && p + 4 < |t| && t[p + 4] == '}' && ReadsIntegers(num)
    ensures ValueAt(t, p, num) == Some((Json.Null, p + 4))
  {
    ValueBack(Json.Null, false, t, p, num);
  }

  lemma KeyObjectText(name: string, num: Numbers)
    ensures Text(Object([Prop(name, Json.Null)]), false, num) == Some("{\"" + name + "\":null}")
  {
    var v := Object([Prop(name, Json.Null)]);
    assert PropsText(v, 1, false, num) == "";
    assert Text(v.props[0].val, false, num) == Some("null");
    assert PropsText(v, 0, true, num) == "" + "\"" + name + "\":" + "null" + "";
    assert "{" + ("" + "\"" + name + "\":" + "null" + "") + "}" == "{\"" + name + "\":null}";
  }

  lemma WildKey(k: string, num: Numbers)
    requires !PlainKey(k)
    ensures Parsed("{\"" + k + "\":null}", num) != Some(Object([Prop(k, Json.Null)]))
  {
    hide PropsAt, StringAt, Chars, PlainKey;
    var t := "{\"" + k + "\":null}";
    if Parsed(t, num) == Some(Object([Prop(k, Json.Null)])) {
      assert t[0] == '{' && t[1] == '"';
      assert SkipSpace(t, 0) == 0 && SkipSpace(t, 1) == 1;
      assert ValueAt(t, 0, num) == ObjectAt(t, 0, num) == PropsAt(t, 1, [], num);
      assert PropsAt(t, 1, [], num).Some? && PropsAt(t, 1, [], num).value.0 == Object([Prop(k, Json.Null)]);
      FirstKey(t, k, num);
    }
  }

  lemma FirstKey(t: string, k: string, num: Numbers)
    requires t == "{\"" + k + "\":null}" && PropsAt(t, 1, [], num).Some?
    requires PropsAt(t, 1, [], num).value.0 == Object([Prop(k, Json.Null)])
    ensures PlainKey(k)
  {
    var s := FirstName(t, k, num);
    hide PropsAt, ValueAt, Chars, PropertyNames.Named, PropertyNames.Index;
    PropertyNames.NamedStays(s);
    if PropertyNames.Index(s).Some? { PlainIndex(s); } else { NoIndex(s); OnlyKey(t, k); }
  }

  lemma FirstName(t: string, k: string, num: Numbers) returns (s: string)
    requires t == "{\"" + k + "\":null}" && PropsAt(t, 1, [], num).Some?
    requires PropsAt(t, 1, [], num).value.0 == Object([Prop(k, Json.Null)])
    ensures Chars(t, 2, "").Some? && Chars(t, 2, "").value.0 == s && PropertyNames.Named(s) == k
  {
    hide ValueAt, Chars, PropertyNames.Named;
    assert t[1] == '"' && SkipSpace(t, 1) == 1;
    s := StringAt(t, 1).value.0;
    KeysStay(t, 1, [], num, PropertyNames.Named(s));
  }

  /** A string token that gives back the whole key has nothing but plain characters. */
  lemma OnlyKey(t: string, k: string)
    requires t == "{\"" + k + "\":null}" && Chars(t, 2, "").Some? && Chars(t, 2, "").value.0 == k
    ensures PlainKey(k)
  {
    hide Chars;
    CharsTaken(t, 2, "");
    var (s, q) := Chars(t, 2, "").value;
    assert forall i :: 2 + |k| < i < |t| ==> t[i] != '"';
    assert t[2..2 + |k|] == k && s[0..] == s;
  }
}
