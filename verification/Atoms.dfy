/** The interning table (src/context.rs): ids for byte strings, found through a hash that may collide. */
module Atoms {
  import opened Values

  type Bytes = seq<bv8>

  const MAX_REFS := 0xFFFF_FFFF

  /** An atom: its bytes (the first entry of a table has none) and a count that stops at 32 bits. */
  datatype Atom = Atom(bytes: Option<Bytes>, refs: nat)

  function AddRef(a: Atom): Atom {
    a.(refs := if a.refs >= MAX_REFS then a.refs else a.refs + 1)
  }

  function Release(a: Atom): Atom {
    a.(refs := if a.refs > 0 then a.refs - 1 else 0)
  }

  /** The bytes of the entries: what a table means, whatever the hash and the counts. */
  function Names(entries: seq<Atom>): (names: seq<Option<Bytes>>)
    ensures |names| == |entries| && forall i :: 0 <= i < |entries| ==> names[i] == entries[i].bytes
  {
    seq(|entries|, i requires 0 <= i < |entries| => entries[i].bytes)
  }

  /** Reference lookup: the first entry with these bytes. */
  function Known(names: seq<Option<Bytes>>, b: Bytes): (r: Option<nat>)
    ensures r.Some? ==> r.value < |names| && names[r.value] == Some(b)
    ensures r.None? ==> forall i :: 0 <= i < |names| ==> names[i] != Some(b)
  {
    if |names| == 0 then None
    else
      var r := Known(names[..|names| - 1], b);
      if r.Some? then r else if names[|names| - 1] == Some(b) then Some(|names| - 1) else None
  }

  /** Entry 0 is nobody's; no two entries have the same bytes. */
  ghost predicate Injective(names: seq<Option<Bytes>>) {
    && |names| > 0 && names[0] == None
    && (forall i :: 0 < i < |names| ==> names[i].Some?)
    && (forall i, j :: 0 < i < j < |names| ==> names[i] != names[j])
  }

  lemma KnownIs(names: seq<Option<Bytes>>, i: nat)
    requires Injective(names) && 0 < i < |names|
    ensures Known(names, names[i].value) == Some(i)
  {
    var r := Known(names, names[i].value);
    assert r.Some? && names[r.value] == names[i];
  }

  class AtomTable {
    const hash: Bytes -> nat
    var entries: seq<Atom>
    var index: map<nat, nat>

    constructor (hash: Bytes -> nat)
      ensures Valid() && this.hash == hash && Names(entries) == [None]
    {
      this.hash := hash;
      entries := [Atom(None, 1)];
      index := map[];
    }

    /** Every name has its hash in the index; an indexed id is some entry with that hash, not always the right one. */
    ghost predicate Valid()
      reads this
    {
      && Injective(Names(entries))
      && (forall i :: 0 < i < |entries| ==> hash(entries[i].bytes.value) in index)
      && (forall h :: h in index ==> 0 < index[h] < |entries|)
    }

    /** Hash, check, and on a collision scan: together the reference lookup, for any hash function. */
    method Find(b: Bytes) returns (r: Option<nat>)
      requires Valid()
      ensures r == Known(Names(entries), b)
    {
      var h := hash(b);
      if h !in index {
        assert forall i :: 0 < i < |entries| ==> entries[i].bytes != Some(b);
        return None;
      }
      var id := index[h];
      if entries[id].bytes == Some(b) {
        KnownIs(Names(entries), id);
        return Some(id);
      }
      var i := 0;
      while i < |entries|
        invariant 0 <= i <= |entries|
        invariant forall j :: 0 <= j < i ==> entries[j].bytes != Some(b)
      {
        if entries[i].bytes == Some(b) {
          KnownIs(Names(entries), i);
          return Some(i);
        }
        i := i + 1;
      }
      r := None;
    }

    method Push(b: Bytes) returns (id: nat)
      requires Valid() && Known(Names(entries), b) == None
      modifies this
      ensures Valid() && id == old(|entries|) && entries == old(entries) + [Atom(Some(b), 1)]
    {
      id := |entries|;
      index := index[hash(b) := id];
      entries := entries + [Atom(Some(b), 1)];
    }

    /** `intern_string`; `room` says whether the arena has space for a new string. */
    method Intern(b: Bytes, room: bool) returns (id: Option<nat>)
      requires Valid()
      modifies this
      ensures Valid()
      ensures match old(Known(Names(entries), b))
        case Some(k) => id == Some(k) && entries == old(entries)[k := AddRef(old(entries[k]))]
        case None =>
          if room then id == Some(old(|entries|)) && entries == old(entries) + [Atom(Some(b), 1)]
          else id == None && entries == old(entries)
    {
      id := Find(b);
      if id.Some? {
        var _ := Dup(id.value);
      } else if room {
        var n := Push(b);
        id := Some(n);
      }
    }

    method Dup(id: nat) returns (ok: bool)
      requires Valid()
      modifies this`entries
      ensures Valid() && ok == (id < |entries|)
      ensures entries == if id < old(|entries|) then old(entries)[id := AddRef(old(entries[id]))] else old(entries)
    {
      ok := id < |entries|;
      if ok {
        entries := entries[id := AddRef(entries[id])];
        assert Names(entries) == old(Names(entries));
      }
    }

    method Free(id: nat)
      requires Valid()
      modifies this`entries
      ensures Valid()
      ensures entries == if id < old(|entries|) then old(entries)[id := Release(old(entries[id]))] else old(entries)
    {
      if id < |entries| {
        entries := entries[id := Release(entries[id])];
        assert Names(entries) == old(Names(entries));
      }
    }

    /** `atom_bytes`; entry 0 has no string to look at. */
    method AtomBytes(id: nat) returns (b: Option<Bytes>)
      requires Valid() && id != 0
      ensures b == if id < |entries| then entries[id].bytes else None
      ensures b.Some? ==> Known(Names(entries), b.value) == Some(id)
    {
      if id >= |entries| { return None; }
      KnownIs(Names(entries), id);
      b := entries[id].bytes;
    }

    /** One step of a run. */
    method Perform(u: Use) returns (id: Option<nat>)
      requires Valid()
      modifies this
      ensures Valid() && Names(entries) == After(old(Names(entries)), u)
      ensures id == if u.Intern? then Known(Names(entries), u.bytes) else None
    {
      id := None;
      match u {
        case Intern(b, room) =>
          id := Intern(b, room);
          assert Names(entries) == After(old(Names(entries)), u);
          if id.Some? { KnownIs(Names(entries), id.value); }
        case Dup(n) =>
          var _ := Dup(n);
          assert Names(entries) == old(Names(entries));
        case Free(n) =>
          Free(n);
          assert Names(entries) == old(Names(entries));
      }
    }

    /** A whole run: every answer is the reference lookup in the names of that moment. */
    method PerformAll(uses: seq<Use>) returns (ids: seq<Option<nat>>)
      requires Valid()
      modifies this
      ensures Valid() && |ids| == |uses| && Names(entries) == AfterAll(old(Names(entries)), uses)
      ensures forall i :: 0 <= i < |uses| ==> ids[i] == Answer(old(Names(entries)), uses, i)
    {
      ids := [];
      while |ids| < |uses|
        invariant |ids| <= |uses| && Valid() && Names(entries) == AfterAll(old(Names(entries)), uses[..|ids|])
        invariant forall i :: 0 <= i < |ids| ==> ids[i] == Answer(old(Names(entries)), uses, i)
      {
        assert uses[..|ids| + 1][..|ids|] == uses[..|ids|];
        var id := Perform(uses[|ids|]);
        ids := ids + [id];
      }
      assert uses[..|ids|] == uses;
    }
  }

  // ---- runs, on names alone ----

  datatype Use = Intern(bytes: Bytes, room: bool) | Dup(id: nat) | Free(id: nat)

  function After(names: seq<Option<Bytes>>, u: Use): seq<Option<Bytes>> {
    if u.Intern? && u.room && Known(names, u.bytes) == None then names + [Some(u.bytes)] else names
  }

  function AfterAll(names: seq<Option<Bytes>>, uses: seq<Use>): seq<Option<Bytes>> {
    if |uses| == 0 then names else After(AfterAll(names, uses[..|uses| - 1]), uses[|uses| - 1])
  }

  /** The id that step `i` of a run gives. */
  function Answer(names: seq<Option<Bytes>>, uses: seq<Use>, i: nat): Option<nat>
    requires i < |uses|
  {
    if uses[i].Intern? then Known(AfterAll(names, uses[..i + 1]), uses[i].bytes) else None
  }

  /** Names stay injective and are only ever added at the end, so an id never changes its meaning. */
  lemma {:induction false} NamesGrow(names: seq<Option<Bytes>>, uses: seq<Use>, n: nat)
    requires Injective(names) && n <= |uses|
    ensures Injective(AfterAll(names, uses)) && AfterAll(names, uses[..n]) <= AfterAll(names, uses)
    decreases |uses|
  {
    if n == |uses| {
      assert uses[..n] == uses;
    }
    if |uses| > 0 {
      var m := |uses| - 1;
      NamesGrow(names, uses[..m], if n <= m then n else m);
      if n <= m { assert uses[..m][..n] == uses[..n]; }
    }
  }

  /** What was answered stays true: in the final table the id names exactly the bytes that were interned. */
  lemma AnswerStays(names: seq<Option<Bytes>>, uses: seq<Use>, i: nat)
    requires Injective(names) && i < |uses| && Answer(names, uses, i).Some?
    ensures Known(AfterAll(names, uses), uses[i].bytes) == Answer(names, uses, i)
    ensures AfterAll(names, uses)[Answer(names, uses, i).value] == Some(uses[i].bytes)
  {
    var early, now := AfterAll(names, uses[..i + 1]), AfterAll(names, uses);
    NamesGrow(names, uses, i + 1);
    var id := Answer(names, uses, i).value;
    assert early[id] == now[id];
    KnownIs(now, id);
  }

  /** Over any run, for any hash: two interned strings get the same id exactly when they are equal. */
  lemma SameIdSameBytes(names: seq<Option<Bytes>>, uses: seq<Use>, i: nat, j: nat)
    requires Injective(names) && i < |uses| && j < |uses|
    requires Answer(names, uses, i).Some? && Answer(names, uses, j).Some?
    ensures Answer(names, uses, i) == Answer(names, uses, j) <==> uses[i].bytes == uses[j].bytes
  {
    AnswerStays(names, uses, i);
    AnswerStays(names, uses, j);
  }

  /** An intern fails only for want of room: then exactly when the string is new. */
  lemma FailsOnlyWithoutRoom(names: seq<Option<Bytes>>, uses: seq<Use>, i: nat)
    requires i < |uses| && uses[i].Intern?
    ensures Answer(names, uses, i) == None <==> !uses[i].room && Known(AfterAll(names, uses[..i]), uses[i].bytes) == None
  {
    assert uses[..i + 1][..i] == uses[..i];
    var before := AfterAll(names, uses[..i]);
    var now := AfterAll(names, uses[..i + 1]);
    assert now == After(before, uses[i]);
    if now != before { assert now[|before|] == Some(uses[i].bytes); }
  }
}
