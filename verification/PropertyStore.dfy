/** The property store in place: linked nodes hanging off objects, and overflow indexes keyed by object (src/context.rs). */
module PropertyStore {
  import opened Values
  import opened PropertyModel

  class Property {
    var next: Property?
    const key: nat
    var value: Value

    constructor (key: nat, value: Value)
      ensures this.key == key && this.value == value && next == null
    {
      this.key, this.value, next := key, value, null;
    }
  }

  class HeapObject {
    var head: Property?
    var tail: Property?
    var count: nat
    ghost var nodes: seq<Property>
    /** What the nodes hold. */
    ghost var list: seq<Prop>
    /** This object's entry in the context's table of overflow indexes, which is keyed by object pointer. */
    var index: Option<map<nat, Value>>

    /** The nodes hang together in order, the tail is the last of them and the count is their number. */
    ghost predicate Valid()
      reads this, nodes
    {
      && count == |nodes|
      && |list| == |nodes|
      && (forall i :: 0 <= i < |nodes| ==> list[i] == Prop(nodes[i].key, nodes[i].value))
      && (forall i, j :: 0 <= i < j < |nodes| ==> nodes[i] != nodes[j])
      && head == (if nodes == [] then null else nodes[0])
      && tail == (if nodes == [] then null else nodes[|nodes| - 1])
      && (forall i {:trigger nodes[i].next} :: 0 <= i < |nodes| ==> nodes[i].next == if i + 1 < |nodes| then nodes[i + 1] else null)
    }

    ghost function State(): Props
      reads this
    {
      Props(list, index)
    }

    constructor ()
      ensures Valid() && State() == NO_PROPS
    {
      head, tail, count, nodes, list, index := null, null, 0, [], [], None;
    }

    /** Walks the list to the first node with `key`; `prev` is the node before it. */
    method Walk(key: nat) returns (prev: Property?, cur: Property?)
      requires Valid()
      ensures var i := Locate(list, key);
        && cur == (if i < |nodes| then nodes[i] else null)
        && prev == (if i == 0 then null else nodes[i - 1])
    {
      prev, cur := null, head;
      ghost var i := 0;
      while cur != null && cur.key != key
        invariant 0 <= i <= |nodes|
        invariant cur == (if i < |nodes| then nodes[i] else null)
        invariant prev == (if i == 0 then null else nodes[i - 1])
        invariant forall j :: 0 <= j < i ==> nodes[j].key != key
        decreases |nodes| - i
      {
        prev, cur := cur, cur.next;
        i := i + 1;
      }
      LocateFirst(list, key, i);
    }

    method Overwrite(node: Property, v: Value, ghost i: nat)
      requires Valid() && i < |nodes| && node == nodes[i]
      modifies this`list, node`value
      ensures Valid() && nodes == old(nodes) && list == old(list)[i := Prop(node.key, v)]
    {
      node.value := v;
      list := list[i := Prop(node.key, v)];
    }

    method Append(node: Property)
      requires Valid() && node !in nodes && node.next == null
      modifies this`head, this`tail, this`count, this`nodes, this`list, nodes
      ensures Valid() && nodes == old(nodes) + [node]
      ensures list == old(list) + [Prop(node.key, node.value)]
    {
      if tail == null {
        head := node;
      } else {
        tail.next := node;
      }
      tail := node;
      count := count + 1;
      nodes, list := nodes + [node], list + [Prop(node.key, node.value)];
    }

    method Unlink(prev: Property?, cur: Property, ghost i: nat)
      requires Valid() && i < |nodes| && cur == nodes[i] && prev == (if i == 0 then null else nodes[i - 1])
      modifies this`head, this`tail, this`count, this`nodes, this`list, nodes
      ensures Valid() && nodes == old(nodes)[..i] + old(nodes)[i + 1..]
      ensures list == old(list)[..i] + old(list)[i + 1..]
    {
      ghost var before := nodes;
      if prev == null {
        head := cur.next;
      } else {
        prev.next := cur.next;
      }
      if cur.next == null {
        tail := prev;
      }
      count := count - 1;
      nodes, list := nodes[..i] + nodes[i + 1..], list[..i] + list[i + 1..];
      WithoutOne(before, i);
      forall j | 0 <= j < |nodes|
        ensures nodes[j].next == if j + 1 < |nodes| then nodes[j + 1] else null
      {
        assert nodes[j] == before[if j < i then j else j + 1];
        assert j + 1 < |nodes| ==> nodes[j + 1] == before[if j + 1 < i then j + 1 else j + 2];
      }
    }

    /** Unlinks the first node with `key`. */
    method Remove(key: nat) returns (found: bool)
      requires Valid()
      modifies this`head, this`tail, this`count, this`nodes, this`list, nodes
      ensures Valid() && forall n :: n in nodes ==> n in old(nodes)
      ensures var i := Locate(old(list), key);
        found == (i < |old(list)|) && list == if found then old(list)[..i] + old(list)[i + 1..] else old(list)
    {
      ghost var i := Locate(list, key);
      var prev, cur := Walk(key);
      found := cur != null;
      if found {
        Unlink(prev, cur, i);
      }
    }

    /** Overwrites the first node with `key`. */
    method Replace(key: nat, v: Value) returns (found: bool)
      requires Valid()
      modifies this`list, nodes
      ensures Valid() && nodes == old(nodes)
      ensures var i := Locate(old(list), key);
        found == (i < |old(list)|) && list == if found then old(list)[i := Prop(key, v)] else old(list)
    {
      ghost var i := Locate(list, key);
      var _, cur := Walk(key);
      found := cur != null;
      if found {
        Overwrite(cur, v, i);
      }
    }

    // ---- the operations ----

    method FindPropValue(key: nat) returns (r: Option<Value>)
      requires Valid()
      ensures r == Find(State(), key)
    {
      if count > THRESHOLD && index.Some? {
        return if key in index.value then Some(index.value[key]) else None;
      }
      var _, cur := Walk(key);
      r := if cur == null then None else Some(cur.value);
    }

    /** The node to be appended for a new key: freshly allocated, or absent when memory has run out. */
    ghost predicate Fresh(node: Property?, key: nat, v: Value)
      reads this, node
    {
      node != null ==> node !in nodes && node.next == null && node.key == key && node.value == v
    }

    method SetPropValue(key: nat, v: Value, node: Property?) returns (ok: bool)
      requires Valid() && Plausible(State()) && Fresh(node, key, v)
      modifies this, nodes
      ensures Valid() && (State(), ok) == Set(old(State()), key, v, node != null)
      ensures nodes == old(nodes) || (node != null && nodes == old(nodes) + [node])
    {
      if count > THRESHOLD && index.Some? {
        ok := SetIndexed(key, v, node);
      } else {
        ok := SetListed(key, v, node);
      }
    }

    /** The index takes the key first, then the list follows. */
    method SetIndexed(key: nat, v: Value, node: Property?) returns (ok: bool)
      requires Valid() && Fresh(node, key, v) && count > THRESHOLD && index.Some?
      modifies this, nodes
      ensures Valid() && (State(), ok) == Set(old(State()), key, v, node != null)
      ensures nodes == old(nodes) || (node != null && nodes == old(nodes) + [node])
    {
      var known := key in index.value;
      index := Some(index.value[key := v]);
      if known {
        var _ := Replace(key, v);
        return true;
      }
      if node == null { return false; }
      Append(node);
      ok := true;
    }

    /** A linear search; a new node may make the list long enough for an index. */
    method SetListed(key: nat, v: Value, node: Property?) returns (ok: bool)
      requires Valid() && Plausible(State()) && Fresh(node, key, v) && !(count > THRESHOLD && index.Some?)
      modifies this, nodes
      ensures Valid() && (State(), ok) == Set(old(State()), key, v, node != null)
      ensures nodes == old(nodes) || (node != null && nodes == old(nodes) + [node])
    {
      ok := Replace(key, v);
      if !ok && node != null {
        AppendListed(node);
        ok := true;
      }
    }

    /** A new last node; it may make the list long enough for an index. */
    method AppendListed(node: Property)
      requires Valid() && Plausible(State()) && node !in nodes && node.next == null
      requires Locate(list, node.key) == |list|
      modifies this, nodes
      ensures Valid() && nodes == old(nodes) + [node] && list == old(list) + [Prop(node.key, node.value)]
      ensures index == if |list| > THRESHOLD && old(index).None? then Some(MapOf(list)) else old(index)
    {
      hide MapOf, Locate, DistinctKeys;
      Append(node);
      if index.None? { AppendMap(old(list), node.key, node.value); }
      if count > THRESHOLD && index.None? {
        BuildIndex();
      }
    }

    /** The index of a list, filled in list order. */
    method BuildIndex()
      requires Valid() && DistinctKeys(list)
      modifies this`index
      ensures index == Some(MapOf(list))
    {
      var filled: map<nat, Value> := map[];
      var cur := head;
      ghost var i := 0;
      while cur != null
        invariant 0 <= i <= |nodes|
        invariant cur == (if i < |nodes| then nodes[i] else null)
        invariant Valid() && filled == MapOf(list[..i])
        decreases |nodes| - i
      {
        assert list[..i + 1] == list[..i] + [list[i]];
        AppendMap(list[..i], list[i].key, list[i].value);
        filled := filled[cur.key := cur.value];
        cur := cur.next;
        i := i + 1;
      }
      assert list[..i] == list;
      index := Some(filled);
    }

    method DeletePropValue(key: nat) returns (found: bool)
      requires Valid()
      modifies this, nodes
      ensures Valid() && (State(), found) == Delete(old(State()), key)
      ensures forall n :: n in nodes ==> n in old(nodes)
    {
      hide Locate;
      ghost var before := State();
      if count > THRESHOLD && index.Some? {
        index := Some(index.value - {key});
      }
      assert index == Delete(before, key).0.index;
      found := Remove(key);
    }
  }

  lemma WithoutOne<T>(s: seq<T>, i: nat)
    requires i < |s|
    ensures var r := s[..i] + s[i + 1..]; |r| == |s| - 1 && forall j :: 0 <= j < |r| ==> r[j] == s[if j < i then j else j + 1]
    ensures var r := s[..i] + s[i + 1..];
      (forall j, k :: 0 <= j < k < |s| ==> s[j] != s[k]) ==> forall j, k :: 0 <= j < k < |r| ==> r[j] != r[k]
  {
  }

  /** Objects that are valid, take their nodes from `pool` and share none. */
  ghost predicate Separate(all: set<HeapObject>, pool: set<Property>)
    reads all, pool
  {
    && (forall o, n :: o in all && n in o.nodes ==> n in pool)
    && (forall o :: o in all ==> o.Valid())
    && (forall o1, o2, n :: o1 in all && o2 in all && o1 != o2 && n in o1.nodes ==> n !in o2.nodes)
  }

  /** Nothing an object is made of has changed, so it is valid still. */
  twostate lemma ValidKept(o: HeapObject)
    requires old(o.Valid()) && unchanged(o) && forall n :: n in o.nodes ==> unchanged(n)
    ensures o.Valid()
  {
    assert forall i :: 0 <= i < |o.nodes| ==> o.nodes[i] in o.nodes;
    assert forall i {:trigger o.nodes[i].next} :: 0 <= i < |o.nodes| ==>
      o.nodes[i].next == old(o.nodes[i].next) && o.nodes[i].value == old(o.nodes[i].value);
  }

  /** A write to one object of many changes that object as specified and leaves every other one as it was; `node` is
      absent when memory has run out. */
  method SetAmong(ghost all: set<HeapObject>, ghost pool: set<Property>, obj: HeapObject, key: nat, v: Value, node: Property?)
    returns (ok: bool)
    requires obj in all && Separate(all, pool) && Plausible(obj.State())
    requires node != null ==> node !in pool && node.next == null && node.key == key && node.value == v
    modifies obj, obj.nodes
    ensures Separate(all, if node == null then pool else pool + {node})
    ensures (obj.State(), ok) == Set(old(obj.State()), key, v, node != null)
    ensures forall o :: o in all && o != obj ==> o.State() == old(o.State())
  {
    ok := obj.SetPropValue(key, v, node);
    forall o | o in all && o != obj
      ensures o.Valid()
    {
      assert forall i :: 0 <= i < |o.nodes| ==> o.nodes[i] in o.nodes;
      ValidKept(o);
    }
  }

  /** The same for a delete. */
  method DeleteAmong(ghost all: set<HeapObject>, ghost pool: set<Property>, obj: HeapObject, key: nat) returns (found: bool)
    requires obj in all && Separate(all, pool)
    modifies obj, obj.nodes
    ensures Separate(all, pool) && (obj.State(), found) == Delete(old(obj.State()), key)
    ensures forall o :: o in all && o != obj ==> o.State() == old(o.State())
  {
    found := obj.DeletePropValue(key);
    forall o | o in all && o != obj
      ensures o.Valid()
    {
      assert forall i :: 0 <= i < |o.nodes| ==> o.nodes[i] in o.nodes;
      ValidKept(o);
    }
  }
}
