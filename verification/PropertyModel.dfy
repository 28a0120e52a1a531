/** One object's properties as values: the ordered list and the overflow index that shadows it (src/context.rs). */
module PropertyModel {
  import opened Values

  const THRESHOLD := 8

  type u32 = n: int | 0 <= n < 0x1_0000_0000

  /** The index key of a property: its kind (name or number) above its 32-bit key. */
  function Pack(kind: u32, key: u32): nat {
    kind * TWO_TO_32 + key
  }

  lemma PackInjective(k1: u32, n1: u32, k2: u32, n2: u32)
    ensures Pack(k1, n1) == Pack(k2, n2) <==> k1 == k2 && n1 == n2
  {
  }

  datatype Prop = Prop(key: nat, value: Value)

  datatype Props = Props(list: seq<Prop>, index: Option<map<nat, Value>>)

  const NO_PROPS := Props([], None)

  /** Position of `key` in the list, or the length of the list. */
  function Locate(list: seq<Prop>, key: nat): (i: nat)
    ensures i <= |list| && (i < |list| ==> list[i].key == key)
    ensures forall j :: 0 <= j < i ==> list[j].key != key
  {
    if list == [] then 0 else if list[0].key == key then 0 else 1 + Locate(list[1..], key)
  }

  function Keys(list: seq<Prop>): seq<nat> {
    seq(|list|, i requires 0 <= i < |list| => list[i].key)
  }

  predicate DistinctKeys(list: seq<Prop>) {
    forall i, j :: 0 <= i < j < |list| ==> list[i].key != list[j].key
  }

  /** The mapping a property list stands for. */
  function MapOf(list: seq<Prop>): map<nat, Value> {
    if list == [] then map[]
    else
      var last := list[|list| - 1];
      MapOf(list[..|list| - 1])[last.key := last.value]
  }

  // ---- the three operations ----

  function Find(o: Props, key: nat): Option<Value> {
    if |o.list| > THRESHOLD && o.index.Some? then
      if key in o.index.value then Some(o.index.value[key]) else None
    else
      var i := Locate(o.list, key);
      if i < |o.list| then Some(o.list[i].value) else None
  }

  /** Writes a property; `room` says whether a new list node can be allocated. The flag is the success. */
  function Set(o: Props, key: nat, v: Value, room: bool): (Props, bool) {
    var i := Locate(o.list, key);
    if |o.list| > THRESHOLD && o.index.Some? then
      var index := o.index.value[key := v];
      if key in o.index.value then
        (Props(if i < |o.list| then o.list[i := Prop(key, v)] else o.list, Some(index)), true)
      else if room then (Props(o.list + [Prop(key, v)], Some(index)), true)
      else (Props(o.list, Some(index)), false)
    else if i < |o.list| then (Props(o.list[i := Prop(key, v)], o.index), true)
    else if !room then (o, false)
    else
      var list := o.list + [Prop(key, v)];
      (Props(list, if |list| > THRESHOLD && o.index.None? then Some(MapOf(list)) else o.index), true)
  }

  function Delete(o: Props, key: nat): (Props, bool) {
    var i := Locate(o.list, key);
    var index := if |o.list| > THRESHOLD && o.index.Some? then Some(o.index.value - {key}) else o.index;
    if i < |o.list| then (Props(o.list[..i] + o.list[i + 1..], index), true) else (Props(o.list, index), false)
  }

  // ---- agreement ----

  /** The list has no key twice; the index exists exactly above the threshold and says what the list says. */
  ghost predicate Coherent(o: Props) {
    && DistinctKeys(o.list)
    && (o.index.Some? <==> |o.list| > THRESHOLD)
    && (o.index.Some? ==> o.index.value == MapOf(o.list))
  }

  /** A key is in the mapping when the list has it, with the value the list has for it. */
  lemma {:induction false} InMap(list: seq<Prop>, k: nat)
    requires DistinctKeys(list)
    ensures k in MapOf(list) <==> Locate(list, k) < |list|
    ensures k in MapOf(list) ==> MapOf(list)[k] == list[Locate(list, k)].value
  {
    if list != [] {
      var rest, last := list[..|list| - 1], list[|list| - 1];
      InMap(rest, k);
      assert forall j :: 0 <= j < |rest| ==> rest[j] == list[j];
    }
  }

  /** Lookup in a coherent object is lookup in its mapping, through either path. */
  lemma FindIsLookup(o: Props, key: nat)
    requires Coherent(o)
    ensures Find(o, key) == if key in MapOf(o.list) then Some(MapOf(o.list)[key]) else None
  {
    InMap(o.list, key);
  }

  /** A list stands for a mapping when every single lookup does. */
  lemma SameMap(list: seq<Prop>, m: map<nat, Value>)
    requires DistinctKeys(list)
    requires forall k :: k in m <==> Locate(list, k) < |list|
    requires forall k :: k in m ==> list[Locate(list, k)].value == m[k]
    ensures MapOf(list) == m
  {
    forall k
      ensures k in MapOf(list) <==> k in m
      ensures k in m ==> MapOf(list)[k] == m[k]
    {
      InMap(list, k);
    }
  }

  /** Overwriting one entry changes the mapping at that key and keeps the order of the keys. */
  lemma ReplaceMap(list: seq<Prop>, i: nat, v: Value)
    requires DistinctKeys(list) && i < |list|
    ensures var next := list[i := Prop(list[i].key, v)];
      DistinctKeys(next) && Keys(next) == Keys(list) && MapOf(next) == MapOf(list)[list[i].key := v]
  {
    var next := list[i := Prop(list[i].key, v)];
    assert Keys(next) == Keys(list);
    forall k
      ensures Locate(next, k) == Locate(list, k)
      ensures k in MapOf(list) <==> Locate(list, k) < |list|
      ensures k in MapOf(list) ==> MapOf(list)[k] == list[Locate(list, k)].value
      ensures k == list[i].key <==> Locate(list, k) == i
    {
      InMap(list, k);
      assert forall j :: 0 <= j < |list| ==> next[j].key == list[j].key;
    }
    SameMap(next, MapOf(list)[list[i].key := v]);
  }

  lemma AppendMap(list: seq<Prop>, key: nat, v: Value)
    requires DistinctKeys(list) && Locate(list, key) == |list|
    ensures var next := list + [Prop(key, v)];
      DistinctKeys(next) && Keys(next) == Keys(list) + [key] && MapOf(next) == MapOf(list)[key := v]
  {
    var next := list + [Prop(key, v)];
    assert next[..|list|] == list;
    assert Keys(next) == Keys(list) + [key];
  }

  lemma LocateRemoved(list: seq<Prop>, i: nat, k: nat)
    requires DistinctKeys(list) && i < |list|
    ensures var next := list[..i] + list[i + 1..];
      Locate(next, k) == if k == list[i].key then |next|
                         else if Locate(list, k) < i then Locate(list, k) else Locate(list, k) - 1
  {
    var next := list[..i] + list[i + 1..];
    assert forall j :: 0 <= j < |next| ==> next[j] == list[if j < i then j else j + 1];
    var at := Locate(list, k);
    if at == i || at == |list| {
      assert forall j :: 0 <= j < |next| ==> next[j].key != k;
    } else {
      assert next[if at < i then at else at - 1].key == k;
    }
  }

  lemma RemoveMap(list: seq<Prop>, i: nat)
    requires DistinctKeys(list) && i < |list|
    ensures var next := list[..i] + list[i + 1..];
      DistinctKeys(next) && Keys(next) == Keys(list)[..i] + Keys(list)[i + 1..] && MapOf(next) == MapOf(list) - {list[i].key}
  {
    var next := list[..i] + list[i + 1..];
    assert Keys(next) == Keys(list)[..i] + Keys(list)[i + 1..];
    assert forall j :: 0 <= j < |next| ==> next[j] == list[if j < i then j else j + 1];
    var m := MapOf(list) - {list[i].key};
    forall k
      ensures k in m <==> Locate(next, k) < |next|
      ensures k in m ==> next[Locate(next, k)].value == m[k]
    {
      InMap(list, k);
      LocateRemoved(list, i, k);
    }
    SameMap(next, m);
  }

  /** A write that runs out of memory in the middle: the index has taken the key, the list has not. */
  predicate LosesNode(o: Props, key: nat, room: bool) {
    |o.list| > THRESHOLD && !room && Locate(o.list, key) == |o.list|
  }

  /** A delete that takes the object from nine properties to eight leaves its index behind. */
  predicate LeavesIndex(o: Props, key: nat) {
    |o.list| == THRESHOLD + 1 && Locate(o.list, key) < |o.list|
  }

  /** A write keeps the agreement if and only if it does not lose a node. When it keeps it and succeeds, it is an
      insertion into the mapping, a present key keeps its place and a new key comes last. */
  lemma SetKeeps(o: Props, key: nat, v: Value, room: bool)
    requires Coherent(o)
    ensures Coherent(Set(o, key, v, room).0) <==> !LosesNode(o, key, room)
    ensures Set(o, key, v, room).1 <==> room || Locate(o.list, key) < |o.list|
    ensures Set(o, key, v, room).1 ==>
      && MapOf(Set(o, key, v, room).0.list) == MapOf(o.list)[key := v]
      && Keys(Set(o, key, v, room).0.list) ==
           if Locate(o.list, key) < |o.list| then Keys(o.list) else Keys(o.list) + [key]
    ensures !Set(o, key, v, room).1 ==> Set(o, key, v, room).0.list == o.list
  {
    var i := Locate(o.list, key);
    InMap(o.list, key);
    if i < |o.list| {
      ReplaceMap(o.list, i, v);
    } else {
      AppendMap(o.list, key, v);
      if LosesNode(o, key, room) {
        assert key in Set(o, key, v, room).0.index.value;
        assert key !in MapOf(o.list);
      }
    }
  }

  /** A delete keeps the agreement if and only if it does not leave an index behind. It always removes the key and
      keeps the order of the others. */
  lemma DeleteKeeps(o: Props, key: nat)
    requires Coherent(o)
    ensures Coherent(Delete(o, key).0) <==> !LeavesIndex(o, key)
    ensures Delete(o, key).1 <==> key in MapOf(o.list)
    ensures MapOf(Delete(o, key).0.list) == MapOf(o.list) - {key}
    ensures var i := Locate(o.list, key);
      Keys(Delete(o, key).0.list) == if i < |o.list| then Keys(o.list)[..i] + Keys(o.list)[i + 1..] else Keys(o.list)
  {
    var i := Locate(o.list, key);
    hide MapOf, Keys, Locate;
    InMap(o.list, key);
    if i < |o.list| {
      RemoveMap(o.list, i);
      hide DistinctKeys;
    } else {
      hide DistinctKeys;
      assert MapOf(o.list) - {key} == MapOf(o.list);
    }
  }

  /** Before an object has an index its keys are distinct; this holds after any run, safe or not. */
  ghost predicate Plausible(o: Props) {
    o.index.None? ==> DistinctKeys(o.list)
  }

  lemma StaysPlausible(o: Props, r: Request)
    requires Plausible(o)
    ensures Plausible(Apply(o, r))
  {
    match r
    case Put(key, v, room) =>
      if o.index.None? {
        var i := Locate(o.list, key);
        if i < |o.list| { ReplaceMap(o.list, i, v); } else { AppendMap(o.list, key, v); }
      }
    case Remove(key) =>
      if o.index.None? && Locate(o.list, key) < |o.list| { RemoveMap(o.list, Locate(o.list, key)); }
  }

  // ---- runs ----

  datatype Request = Put(key: nat, value: Value, room: bool) | Remove(key: nat)

  function Apply(o: Props, r: Request): Props {
    match r
    case Put(key, v, room) => Set(o, key, v, room).0
    case Remove(key) => Delete(o, key).0
  }

  function Run(o: Props, rs: seq<Request>): Props
    decreases rs
  {
    if rs == [] then o else Run(Apply(o, rs[0]), rs[1..])
  }

  /** The same requests on a plain mapping; a write without room for its node is refused. */
  function Plain(m: map<nat, Value>, r: Request): map<nat, Value> {
    match r
    case Put(key, v, room) => if room || key in m then m[key := v] else m
    case Remove(key) => m - {key}
  }

  function PlainRun(m: map<nat, Value>, rs: seq<Request>): map<nat, Value>
    decreases rs
  {
    if rs == [] then m else PlainRun(Plain(m, rs[0]), rs[1..])
  }

  /** No request of the run loses a node or leaves an index behind. */
  predicate SafeRun(o: Props, rs: seq<Request>)
    decreases rs
  {
    rs != [] ==>
      && (match rs[0]
          case Put(key, _, room) => !LosesNode(o, key, room)
          case Remove(key) => !LeavesIndex(o, key))
      && SafeRun(Apply(o, rs[0]), rs[1..])
  }

  lemma {:induction false} RunSplit(o: Props, rs: seq<Request>, r: Request)
    ensures Run(o, rs + [r]) == Apply(Run(o, rs), r)
    decreases rs
  {
    if rs == [] {
      assert [r][1..] == [];
    } else {
      assert (rs + [r])[1..] == rs[1..] + [r];
      RunSplit(Apply(o, rs[0]), rs[1..], r);
    }
  }

  lemma StepCoherent(o: Props, r: Request)
    requires Coherent(o)
    ensures Coherent(Apply(o, r)) <==> SafeRun(o, [r])
  {
    match r
    case Put(key, v, room) => SetKeeps(o, key, v, room);
    case Remove(key) => DeleteKeeps(o, key);
  }

  ghost predicate CoherentAfter(o: Props, rs: seq<Request>, n: nat)
    requires n <= |rs|
  {
    Coherent(Run(o, rs[..n]))
  }

  /** A run is safe if and only if the store is coherent after every request of it. */
  lemma {:induction false} SafeExactly(o: Props, rs: seq<Request>)
    requires Coherent(o)
    ensures SafeRun(o, rs) <==> forall n :: 0 <= n <= |rs| ==> CoherentAfter(o, rs, n)
    decreases rs
  {
    if rs != [] {
      var o1, rest := Apply(o, rs[0]), rs[1..];
      StepCoherent(o, rs[0]);
      assert SafeRun(o, rs) <==> SafeRun(o, [rs[0]]) && SafeRun(o1, rest);
      forall n | 0 < n <= |rs| ensures Run(o, rs[..n]) == Run(o1, rest[..n - 1]) {
        assert rs[..n][1..] == rest[..n - 1];
      }
      assert CoherentAfter(o, rs, 1) == Coherent(o1);
      if Coherent(o1) {
        SafeExactly(o1, rest);
        forall n | 0 <= n <= |rest| ensures CoherentAfter(o, rs, n + 1) == CoherentAfter(o1, rest, n) {}
        assert forall n :: 0 < n <= |rs| ==> CoherentAfter(o, rs, n) == CoherentAfter(o1, rest, n - 1);
      }
    }
  }

  // ---- what lookups answer ----

  function Lookup(m: map<nat, Value>, key: nat): Option<Value> {
    if key in m then Some(m[key]) else None
  }

  /** Every lookup in the object is lookup in the mapping. */
  ghost predicate Answers(o: Props, m: map<nat, Value>) {
    forall key :: Find(o, key) == Lookup(m, key)
  }

  /** Like a coherent object, but one of up to eight properties may have an index, saying anything: nothing reads it. */
  ghost predicate Dormant(o: Props) {
    DistinctKeys(o.list) && (|o.list| > THRESHOLD ==> o.index == Some(MapOf(o.list)))
  }

  /** A write that makes the list long enough for the index that an earlier delete left behind. */
  predicate WakesIndex(o: Props, key: nat, room: bool) {
    |o.list| == THRESHOLD && o.index.Some? && Locate(o.list, key) == |o.list| && room
  }

  predicate RightStep(o: Props, r: Request) {
    match r
    case Put(key, v, room) =>
      !LosesNode(o, key, room) && (WakesIndex(o, key, room) ==> o.index.value == MapOf(o.list)[key := v])
    case Remove(_) => true
  }

  /** No request of the run loses a node, or wakes an index that does not say what the list says. */
  predicate RightRun(o: Props, rs: seq<Request>)
    decreases rs
  {
    rs != [] ==> RightStep(o, rs[0]) && RightRun(Apply(o, rs[0]), rs[1..])
  }

  lemma DormantAnswers(o: Props, m: map<nat, Value>)
    requires Dormant(o)
    ensures Answers(o, m) <==> MapOf(o.list) == m
  {
    forall key ensures Find(o, key) == Lookup(MapOf(o.list), key) {
      InMap(o.list, key);
    }
    SameLookups(MapOf(o.list), m);
  }

  lemma SameLookups(m1: map<nat, Value>, m2: map<nat, Value>)
    ensures m1 == m2 <==> forall key :: Lookup(m1, key) == Lookup(m2, key)
  {
    if forall key :: Lookup(m1, key) == Lookup(m2, key) {
      forall key ensures (key in m1 <==> key in m2) && (key in m1 ==> m1[key] == m2[key]) {
        assert Lookup(m1, key) == Lookup(m2, key);
      }
      assert m1 == m2;
    }
  }

  lemma PutAnswers(o: Props, key: nat, v: Value, room: bool)
    requires Dormant(o)
    ensures var o1 := Set(o, key, v, room).0; var m := Plain(MapOf(o.list), Put(key, v, room));
      (Answers(o1, m) <==> RightStep(o, Put(key, v, room))) && (RightStep(o, Put(key, v, room)) ==> Dormant(o1) && MapOf(o1.list) == m)
  {
    var o1, m := Set(o, key, v, room).0, Plain(MapOf(o.list), Put(key, v, room));
    var i := Locate(o.list, key);
    InMap(o.list, key);
    if i < |o.list| {
      ReplaceMap(o.list, i, v);
      DormantAnswers(o1, m);
    } else if LosesNode(o, key, room) {
      assert Find(o1, key) == Some(v) && Lookup(m, key) == None;
    } else if room {
      AppendMap(o.list, key, v);
      if WakesIndex(o, key, room) {
        forall k ensures Find(o1, k) == Lookup(o.index.value, k) {}
        SameLookups(o.index.value, m);
      } else {
        DormantAnswers(o1, m);
      }
    } else {
      DormantAnswers(o1, m);
    }
  }

  lemma RemoveAnswers(o: Props, key: nat)
    requires Dormant(o)
    ensures var o1 := Delete(o, key).0; var m := MapOf(o.list) - {key}; Answers(o1, m) && Dormant(o1) && MapOf(o1.list) == m
  {
    var i := Locate(o.list, key);
    InMap(o.list, key);
    if i < |o.list| { RemoveMap(o.list, i); } else { assert MapOf(o.list) - {key} == MapOf(o.list); }
    DormantAnswers(Delete(o, key).0, MapOf(o.list) - {key});
  }

  /** One request: its answers are right exactly when it is, and then the object is ready for the next. */
  lemma StepAnswers(o: Props, r: Request)
    requires Dormant(o)
    ensures var o1 := Apply(o, r); var m := Plain(MapOf(o.list), r);
      (Answers(o1, m) <==> RightStep(o, r)) && (RightStep(o, r) ==> Dormant(o1) && MapOf(o1.list) == m)
  {
    match r
    case Put(key, v, room) => PutAnswers(o, key, v, room);
    case Remove(key) => RemoveAnswers(o, key);
  }

  ghost predicate AnswersAfter(o: Props, rs: seq<Request>, n: nat)
    requires n <= |rs|
  {
    Answers(Run(o, rs[..n]), PlainRun(MapOf(o.list), rs[..n]))
  }

  /** After every request of a run the store answers every lookup like a plain map, if and only if no request loses a
      node or wakes a stale index. */
  lemma {:induction false} RightExactly(o: Props, rs: seq<Request>)
    requires Dormant(o)
    ensures RightRun(o, rs) <==> forall n :: 0 <= n <= |rs| ==> AnswersAfter(o, rs, n)
    decreases rs
  {
    if rs == [] {
      DormantAnswers(o, MapOf(o.list));
    } else {
      var o1, rest, m1 := Apply(o, rs[0]), rs[1..], Plain(MapOf(o.list), rs[0]);
      StepAnswers(o, rs[0]);
      hide Apply, Plain, RightStep, Dormant, Answers, MapOf;
      forall n | 0 < n <= |rs|
        ensures Run(o, rs[..n]) == Run(o1, rest[..n - 1])
        ensures PlainRun(MapOf(o.list), rs[..n]) == PlainRun(m1, rest[..n - 1])
      {
        assert rs[..n][1..] == rest[..n - 1];
      }
      DormantAnswers(o, MapOf(o.list));
      assert AnswersAfter(o, rs, 0);
      assert AnswersAfter(o, rs, 1) == Answers(o1, m1);
      if RightStep(o, rs[0]) {
        RightExactly(o1, rest);
        forall n | 0 <= n <= |rest| ensures AnswersAfter(o, rs, n + 1) == AnswersAfter(o1, rest, n) {}
        assert forall n :: 0 < n <= |rs| ==> AnswersAfter(o, rs, n) == AnswersAfter(o1, rest, n - 1);
      }
    }
  }

  /** A safe run is right: a coherent store never wakes an index. */
  lemma {:induction false} SafeIsRight(o: Props, rs: seq<Request>)
    requires Coherent(o) && SafeRun(o, rs)
    ensures RightRun(o, rs)
    decreases rs
  {
    if rs != [] {
      StepCoherent(o, rs[0]);
      SafeIsRight(Apply(o, rs[0]), rs[1..]);
    }
  }

  lemma EmptyCoherent()
    ensures Coherent(NO_PROPS) && MapOf(NO_PROPS.list) == map[]
  {
  }

  /** From the empty object, every safe run leaves a coherent store that answers every lookup like a plain map. */
  lemma RunAgrees(rs: seq<Request>, key: nat)
    requires SafeRun(NO_PROPS, rs)
    ensures Coherent(Run(NO_PROPS, rs)) && Find(Run(NO_PROPS, rs), key) == Lookup(PlainRun(map[], rs), key)
  {
    EmptyCoherent();
    SafeExactly(NO_PROPS, rs);
    SafeIsRight(NO_PROPS, rs);
    RightExactly(NO_PROPS, rs);
    assert rs[..|rs|] == rs;
    assert CoherentAfter(NO_PROPS, rs, |rs|) && AnswersAfter(NO_PROPS, rs, |rs|);
  }

  // ---- the stale index ----

  /** An object with `n` properties that say `m` under an index that says `stale`. */
  ghost predicate Indexed(o: Props, m: map<nat, Value>, stale: map<nat, Value>, n: nat) {
    DistinctKeys(o.list) && MapOf(o.list) == m && o.index == Some(stale) && |o.list| == n
  }

  lemma LeftIndex(o: Props, gone: nat)
    requires Coherent(o) && LeavesIndex(o, gone)
    ensures var m := MapOf(o.list) - {gone}; Indexed(Delete(o, gone).0, m, m, THRESHOLD)
  {
    RemoveMap(o.list, Locate(o.list, gone));
  }

  /** Among eight properties or fewer a write leaves the index alone. */
  lemma PutUnder(o: Props, m: map<nat, Value>, stale: map<nat, Value>, n: nat, key: nat, v: Value)
    requires Indexed(o, m, stale, n) && n <= THRESHOLD
    ensures Indexed(Set(o, key, v, true).0, m[key := v], stale, if key in m then n else n + 1) && Set(o, key, v, true).1
  {
    var i := Locate(o.list, key);
    InMap(o.list, key);
    if i < |o.list| { ReplaceMap(o.list, i, v); } else { AppendMap(o.list, key, v); }
  }

  lemma RemoveUnder(o: Props, m: map<nat, Value>, stale: map<nat, Value>, n: nat, key: nat)
    requires Indexed(o, m, stale, n) && n <= THRESHOLD && key in m
    ensures n > 0 && Indexed(Delete(o, key).0, m - {key}, stale, n - 1)
  {
    InMap(o.list, key);
    RemoveMap(o.list, Locate(o.list, key));
  }

  /** The lookup reads the list of eight properties or fewer, and the index of more. */
  lemma FindUnder(o: Props, m: map<nat, Value>, stale: map<nat, Value>, n: nat, key: nat)
    requires Indexed(o, m, stale, n)
    ensures Find(o, key) == Lookup(if n <= THRESHOLD then m else stale, key)
  {
    InMap(o.list, key);
  }

  /** A coherent object with nine properties loses the write of a new key after any one of its keys is deleted:
      the index left behind is not rebuilt when the list grows back, and hides the new property. */
  lemma StaleIndexHides(o: Props, gone: nat, key: nat, v: Value)
    requires Coherent(o) && LeavesIndex(o, gone) && key != gone && key !in MapOf(o.list)
    ensures var o1 := Delete(o, gone).0;
      var (o2, ok) := Set(o1, key, v, true);
      ok && Find(o1, key) == None && Find(o2, key) == None && key in MapOf(o2.list)
  {
    hide Coherent, LeavesIndex, Find, Set, Delete, MapOf, DistinctKeys;
    var m := MapOf(o.list) - {gone};
    LeftIndex(o, gone);
    var o1 := Delete(o, gone).0;
    FindUnder(o1, m, m, 8, key);
    PutUnder(o1, m, m, 8, key, v);
    FindUnder(Set(o1, key, v, true).0, m[key := v], m, 9, key);
  }

  /** It also answers with the value a key had before it was overwritten among eight properties. */
  lemma StaleIndexOverwritten(o: Props, gone: nat, key: nat, v: Value, other: nat, w: Value)
    requires Coherent(o) && LeavesIndex(o, gone) && key != gone && key in MapOf(o.list)
    requires other != gone && other !in MapOf(o.list)
    ensures var rs := [Remove(gone), Put(key, v, true), Put(other, w, true)];
      Find(Run(o, rs), key) == Some(MapOf(o.list)[key]) && Lookup(PlainRun(MapOf(o.list), rs), key) == Some(v)
  {
    var r1, r2, r3 := Remove(gone), Put(key, v, true), Put(other, w, true);
    ThreeSteps(o, r1, r2, r3);
    ThreePlain(MapOf(o.list), r1, r2, r3);
    hide Coherent, LeavesIndex, Find, Set, Delete, MapOf, DistinctKeys, Run, PlainRun, Indexed;
    var m := MapOf(o.list) - {gone};
    LeftIndex(o, gone);
    var o1 := Delete(o, gone).0;
    PutUnder(o1, m, m, 8, key, v);
    var o2 := Set(o1, key, v, true).0;
    PutUnder(o2, m[key := v], m, 8, other, w);
    FindUnder(Set(o2, other, w, true).0, m[key := v][other := w], m, 9, key);
  }

  /** And it answers for a key that was deleted among eight properties. */
  lemma StaleIndexDeleted(o: Props, gone: nat, key: nat, a: nat, b: nat, v: Value)
    requires Coherent(o) && LeavesIndex(o, gone) && key != gone && key in MapOf(o.list)
    requires a != b && a != gone && a !in MapOf(o.list) && b != gone && b !in MapOf(o.list)
    ensures var rs := [Remove(gone), Remove(key), Put(a, v, true)] + [Put(b, v, true)];
      Find(Run(o, rs), key) == Some(MapOf(o.list)[key]) && Lookup(PlainRun(MapOf(o.list), rs), key) == None
  {
    var r1, r2, r3, r4 := Remove(gone), Remove(key), Put(a, v, true), Put(b, v, true);
    RunSplit(o, [r1, r2, r3], r4);
    ThreeSteps(o, r1, r2, r3);
    PlainSplit(MapOf(o.list), [r1, r2, r3], r4);
    ThreePlain(MapOf(o.list), r1, r2, r3);
    hide Coherent, LeavesIndex, Find, Set, Delete, MapOf, DistinctKeys, Run, PlainRun, Indexed;
    var m := MapOf(o.list) - {gone};
    LeftIndex(o, gone);
    var o1 := Delete(o, gone).0;
    RemoveUnder(o1, m, m, 8, key);
    var o2 := Delete(o1, key).0;
    PutUnder(o2, m - {key}, m, 7, a, v);
    var o3 := Set(o2, a, v, true).0;
    PutUnder(o3, (m - {key})[a := v], m, 8, b, v);
    FindUnder(Set(o3, b, v, true).0, (m - {key})[a := v][b := v], m, 9, key);
  }

  lemma ThreeSteps(o: Props, r1: Request, r2: Request, r3: Request)
    ensures Run(o, [r1, r2, r3]) == Apply(Apply(Apply(o, r1), r2), r3)
  {
    hide Apply;
    assert [r1, r2, r3] == [r1, r2] + [r3] && [r1, r2] == [r1] + [r2] && [r1] == [] + [r1];
    RunSplit(o, [r1, r2], r3);
    RunSplit(o, [r1], r2);
    RunSplit(o, [], r1);
  }

  lemma ThreePlain(m: map<nat, Value>, r1: Request, r2: Request, r3: Request)
    ensures PlainRun(m, [r1, r2, r3]) == Plain(Plain(Plain(m, r1), r2), r3)
  {
    hide Plain;
    assert [r1, r2, r3] == [r1, r2] + [r3] && [r1, r2] == [r1] + [r2] && [r1] == [] + [r1];
    PlainSplit(m, [r1, r2], r3);
    PlainSplit(m, [r1], r2);
    PlainSplit(m, [], r1);
  }

  lemma {:induction false} PlainSplit(m: map<nat, Value>, rs: seq<Request>, r: Request)
    ensures PlainRun(m, rs + [r]) == Plain(PlainRun(m, rs), r)
    decreases rs
  {
    if rs == [] {
      assert [r][1..] == [];
    } else {
      assert (rs + [r])[1..] == rs[1..] + [r];
      PlainSplit(Plain(m, rs[0]), rs[1..], r);
    }
  }

  function Numbered(n: nat): seq<Prop> {
    seq(n, i requires 0 <= i => Prop(i, Int(0)))
  }

  function Writes(n: nat): seq<Request> {
    seq(n, i requires 0 <= i => Put(i, Int(0), true))
  }

  lemma {:induction false} WritesGive(n: nat)
    requires n <= 9
    ensures Run(NO_PROPS, Writes(n)) == Props(Numbered(n), if n == 9 then Some(MapOf(Numbered(9))) else None)
  {
    if n > 0 {
      WritesGive(n - 1);
      assert Writes(n) == Writes(n - 1) + [Put(n - 1, Int(0), true)];
      RunSplit(NO_PROPS, Writes(n - 1), Put(n - 1, Int(0), true));
      assert Numbered(n) == Numbered(n - 1) + [Prop(n - 1, Int(0))];
      LocateFirst(Numbered(n - 1), n - 1, n - 1);
    }
  }

  lemma LocateFirst(list: seq<Prop>, key: nat, i: nat)
    requires i <= |list| && forall j :: 0 <= j < i ==> list[j].key != key
    requires i < |list| ==> list[i].key == key
    ensures Locate(list, key) == i
  {
  }

  lemma NineWritten()
    ensures var o := Run(NO_PROPS, Writes(9)); Coherent(o) && LeavesIndex(o, 0) && 9 !in MapOf(o.list)
  {
    WritesGive(9);
    hide Run, MapOf;
    var list := Numbered(9);
    LocateFirst(list, 0, 0);
    LocateFirst(list, 9, 9);
    InMap(list, 9);
  }

  /** A run that ends so: nine writes from the empty object, a delete, and the write of a tenth key, which is lost. */
  lemma StaleIndexReachable()
    ensures var o := Run(NO_PROPS, Writes(9)); Coherent(o) && LeavesIndex(o, 0) && 9 !in MapOf(o.list)
    ensures var rs := Writes(9) + [Remove(0)] + [Put(9, Int(1), true)];
      Find(Run(NO_PROPS, rs), 9) == None && Lookup(PlainRun(map[], rs), 9) == Some(Int(1))
  {
    var o := Run(NO_PROPS, Writes(9));
    NineWritten();
    StaleIndexHides(o, 0, 9, Int(1));
    hide Coherent, LeavesIndex, Find, Set, Delete, MapOf, DistinctKeys, Run, PlainRun;
    RunSplit(NO_PROPS, Writes(9), Remove(0));
    RunSplit(NO_PROPS, Writes(9) + [Remove(0)], Put(9, Int(1), true));
    PlainSplit(map[], Writes(9) + [Remove(0)], Put(9, Int(1), true));
  }

  // ---- a repaired delete ----

  /** Not in the engine: a delete that drops the index together with the ninth property. */
  function RepairedDelete(o: Props, key: nat): (Props, bool) {
    var (o1, found) := Delete(o, key);
    (if |o1.list| <= THRESHOLD then o1.(index := None) else o1, found)
  }

  lemma RepairedDeleteKeeps(o: Props, key: nat)
    requires Coherent(o)
    ensures Coherent(RepairedDelete(o, key).0)
    ensures MapOf(RepairedDelete(o, key).0.list) == MapOf(o.list) - {key}
    ensures RepairedDelete(o, key).1 <==> key in MapOf(o.list)
  {
    DeleteKeeps(o, key);
    if Locate(o.list, key) < |o.list| { RemoveMap(o.list, Locate(o.list, key)); }
    hide MapOf, Locate, DistinctKeys;
  }
}
