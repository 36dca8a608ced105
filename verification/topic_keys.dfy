/**
 * Topic keys of the actor model: a `TopicKey<T>` pairs an event type with
 * a topic id; `TopicKeys<TS...>` holds, for each type of an ordered list of
 * distinct types, the set of topic ids to subscribe to. C++ resolves the
 * types at compile time; here a type is a tag carried at run time.
 */
module Topics {
  import opened Wrappers
  import opened Words

  /** An event type, as `std::type_index` identifies it. */
  type TypeTag = string

  datatype TopicKey = TopicKey(tag: TypeTag, id: U64)

  /** `static_cast<TopicID>(-1)`: the id of a key not yet assigned. */
  const UninitializedId: U64 := MaxU64

  function Uninitialized(tag: TypeTag): (k: TopicKey)
    ensures k.tag == tag && k.id == TWO_64 - 1
  {
    TopicKey(tag, UninitializedId)
  }

  /** The `abort()` of a second `AssignOnce`. */
  datatype Fatal = AssignOnceIsNotOnce

  /**
   * `AssignOnce(rhs)`: only an uninitialised key takes an id, and only a
   * real one; every other call is fatal.
   */
  function AssignOnce(k: TopicKey, rhs: TopicKey): (r: Result<TopicKey, Fatal>)
    requires rhs.tag == k.tag
    ensures r.Ok? <==> k.id == TWO_64 - 1 && rhs.id != TWO_64 - 1
    ensures r.Ok? ==> r.value == rhs
  {
    if k.id == UninitializedId && rhs.id != UninitializedId then Ok(TopicKey(k.tag, rhs.id)) else Err(AssignOnceIsNotOnce)
  }

  /** Once assigned, a key can never be assigned again. */
  lemma AssignOnceAtMostOnce(k: TopicKey, first: TopicKey, second: TopicKey)
    requires first.tag == k.tag && second.tag == k.tag
    requires AssignOnce(k, first).Ok?
    ensures AssignOnce(AssignOnce(k, first).value, second) == Err(AssignOnceIsNotOnce)
  {
  }

  predicate NoDup<T(==)>(s: seq<T>) {
    forall i, j :: 0 <= i < j < |s| ==> s[i] != s[j]
  }

  /** `TopicKeys<TS...>`: the type list and one id set per listed type. */
  datatype TopicKeys = TopicKeys(types: seq<TypeTag>, ids: map<TypeTag, set<U64>>)

  predicate WellFormed(ks: TopicKeys) {
    NoDup(ks.types) && ks.ids.Keys == set t | t in ks.types
  }

  /** Unary `+key`: a one-type `TopicKeys` holding the key's id. */
  function Single(k: TopicKey): (r: TopicKeys)
    ensures WellFormed(r)
    ensures r.types == [k.tag] && r.ids[k.tag] == {k.id}
  {
    TopicKeys([k.tag], map[k.tag := {k.id}])
  }

  /**
   * `TopicKey<T> + TopicKey<T2>`: one type when both agree, else the two
   * types in operand order, each id under its own type.
   */
  function KeyPlusKey(a: TopicKey, b: TopicKey): (r: TopicKeys)
    ensures WellFormed(r)
    ensures a.tag == b.tag ==> r.types == [a.tag] && r.ids[a.tag] == {a.id, b.id}
    ensures a.tag != b.tag ==> r.types == [a.tag, b.tag] && r.ids[a.tag] == {a.id} && r.ids[b.tag] == {b.id}
  {
    if a.tag == b.tag then TopicKeys([a.tag], map[a.tag := {a.id, b.id}])
    else TopicKeys([a.tag, b.tag], map[a.tag := {a.id}, b.tag := {b.id}])
  }

  /**
   * `TopicKeys<TS...> + TopicKey<T>`: every set is copied and the id joins
   * T's set; T is appended to the type list only when it is new.
   */
  function KeysPlusKey(ks: TopicKeys, k: TopicKey): (r: TopicKeys)
    requires WellFormed(ks)
    ensures WellFormed(r)
    ensures k.tag in ks.types ==> r.types == ks.types
    ensures k.tag !in ks.types ==> r.types == ks.types + [k.tag]
    ensures r.ids[k.tag] == (if k.tag in ks.ids then ks.ids[k.tag] else {}) + {k.id}
    ensures forall t :: t in ks.ids && t != k.tag ==> r.ids[t] == ks.ids[t]
  {
    var old_ids := if k.tag in ks.ids then ks.ids[k.tag] else {};
    var types := if k.tag in ks.types then ks.types else ks.types + [k.tag];
    TopicKeys(types, ks.ids[k.tag := old_ids + {k.id}])
  }

  /** Both spellings of a two-key sum agree. */
  lemma KeyPlusKeyIsSinglePlusKey(a: TopicKey, b: TopicKey)
    ensures KeyPlusKey(a, b) == KeysPlusKey(Single(a), b)
  {
    var r := KeysPlusKey(Single(a), b);
    if a.tag != b.tag {
      assert r.types == [a.tag, b.tag];
      assert r.ids.Keys == {a.tag, b.tag};
      assert r.ids[a.tag] == {a.id} && r.ids[b.tag] == {b.id};
      assert r.ids == map[a.tag := {a.id}, b.tag := {b.id}];
    } else {
      assert r.ids.Keys == {a.tag};
      assert r.ids[a.tag] == {a.id, b.id};
      assert r.ids == map[a.tag := {a.id, b.id}];
    }
  }

  /** `k0 + k1 + ... + kn`, evaluated left to right. */
  function Sum(keys: seq<TopicKey>): (r: TopicKeys)
    requires |keys| > 0
    ensures WellFormed(r)
    decreases |keys|
  {
    if |keys| == 1 then Single(keys[0]) else KeysPlusKey(Sum(keys[..|keys| - 1]), keys[|keys| - 1])
  }

  /** Position of the first key of type `t`. */
  function FirstIndex(keys: seq<TopicKey>, t: TypeTag): (i: nat)
    ensures i <= |keys|
    ensures i < |keys| ==> keys[i].tag == t
    ensures forall j :: 0 <= j < i ==> keys[j].tag != t
  {
    if |keys| == 0 then 0 else if keys[0].tag == t then 0 else 1 + FirstIndex(keys[1..], t)
  }

  /** The ids of all keys of type `t`. */
  function IdsOf(keys: seq<TopicKey>, t: TypeTag): set<U64> {
    set i | 0 <= i < |keys| && keys[i].tag == t :: keys[i].id
  }

  lemma FirstIndexOfPrefix(keys: seq<TopicKey>, t: TypeTag)
    requires |keys| > 0
    ensures var p := keys[..|keys| - 1];
            FirstIndex(keys, t) == if FirstIndex(p, t) < |p| then FirstIndex(p, t) else
                                   if keys[|keys| - 1].tag == t then |p| else |keys|
  {
    var p := keys[..|keys| - 1];
    assert forall j :: 0 <= j < |p| ==> keys[j] == p[j];
  }

  /** Type list of a sum: its keys' types, each once, by first appearance. */
  lemma {:induction false} SumTypes(keys: seq<TopicKey>)
    requires |keys| > 0
    ensures var r := Sum(keys);
            && (forall t :: t in r.types <==> FirstIndex(keys, t) < |keys|)
            && (forall i, j :: 0 <= i < j < |r.types| ==> FirstIndex(keys, r.types[i]) < FirstIndex(keys, r.types[j]))
    decreases |keys|
  {
    if |keys| > 1 {
      var r := Sum(keys);
      var p := keys[..|keys| - 1];
      var k := keys[|keys| - 1];
      SumTypes(p);
      var s := Sum(p);
      forall t ensures FirstIndex(keys, t) == if FirstIndex(p, t) < |p| then FirstIndex(p, t) else
                                              if k.tag == t then |p| else |keys| {
        FirstIndexOfPrefix(keys, t);
      }
      forall i, j | 0 <= i < j < |r.types| ensures FirstIndex(keys, r.types[i]) < FirstIndex(keys, r.types[j]) {
        assert r.types[i] == s.types[i];
        assert r.types[i] in s.types;
        if j < |s.types| {
          assert r.types[j] == s.types[j];
          assert r.types[j] in s.types;
        }
      }
    }
  }

  /** Appending one key adds its id to its own type's ids only. */
  lemma IdsOfSnoc(keys: seq<TopicKey>, t: TypeTag)
    requires |keys| > 0
    ensures var p := keys[..|keys| - 1];
            var k := keys[|keys| - 1];
            IdsOf(keys, t) == if t == k.tag then IdsOf(p, t) + {k.id} else IdsOf(p, t)
  {
    var p := keys[..|keys| - 1];
    assert forall i :: 0 <= i < |p| ==> keys[i] == p[i];
  }

  /** A type that no key has contributes no ids. */
  lemma IdsOfAbsent(keys: seq<TopicKey>, t: TypeTag)
    requires FirstIndex(keys, t) == |keys|
    ensures IdsOf(keys, t) == {}
  {
  }

  /** Id sets of a sum: under each type, exactly the ids of that type's keys. */
  lemma {:induction false} SumIds(keys: seq<TopicKey>)
    requires |keys| > 0
    ensures forall t :: t in Sum(keys).ids ==> Sum(keys).ids[t] == IdsOf(keys, t)
    decreases |keys|
  {
    var r := Sum(keys);
    if |keys| == 1 {
      forall t | t in r.ids ensures r.ids[t] == IdsOf(keys, t) {
        assert keys[0].tag == t;
      }
    } else {
      var p := keys[..|keys| - 1];
      var k := keys[|keys| - 1];
      SumIds(p);
      SumTypes(p);
      forall t | t in r.ids ensures r.ids[t] == IdsOf(keys, t) {
        IdsOfSnoc(keys, t);
        if t !in Sum(p).ids {
          IdsOfAbsent(p, t);
        }
      }
    }
  }

  /** `a1 + b1 + a2 + a3` lists types `<A, B>`; `b1 + a1` lists `<B, A>`. */
  lemma TypeOrderExamples(a1: U64, a2: U64, a3: U64, b1: U64)
    ensures Sum([TopicKey("A", a1), TopicKey("B", b1), TopicKey("A", a2), TopicKey("A", a3)]).types == ["A", "B"]
    ensures Sum([TopicKey("A", a1), TopicKey("B", b1), TopicKey("A", a2), TopicKey("A", a3)]).ids["A"] == {a1, a2, a3}
    ensures Sum([TopicKey("B", b1), TopicKey("A", a1)]).types == ["B", "A"]
    ensures Sum([TopicKey("A", a1), TopicKey("A", a2), TopicKey("A", a3), TopicKey("B", b1)]).types == ["A", "B"]
  {
    var k1 := [TopicKey("A", a1), TopicKey("B", b1), TopicKey("A", a2), TopicKey("A", a3)];
    assert k1[..3][..2][..1] == [TopicKey("A", a1)];
    assert k1[..3][..2] == [TopicKey("A", a1), TopicKey("B", b1)];
    assert k1[..3] == [TopicKey("A", a1), TopicKey("B", b1), TopicKey("A", a2)];
    assert Sum(k1[..3][..2]).types == ["A", "B"];
    assert Sum(k1[..3]).types == ["A", "B"];
    assert Sum(k1[..3]).ids["A"] == {a1, a2};
    var k2 := [TopicKey("B", b1), TopicKey("A", a1)];
    assert k2[..1] == [TopicKey("B", b1)];
    var k3 := [TopicKey("A", a1), TopicKey("A", a2), TopicKey("A", a3), TopicKey("B", b1)];
    assert k3[..3][..2][..1] == [TopicKey("A", a1)];
    assert k3[..3][..2] == [TopicKey("A", a1), TopicKey("A", a2)];
    assert k3[..3] == [TopicKey("A", a1), TopicKey("A", a2), TopicKey("A", a3)];
    assert Sum(k3[..3][..2]).types == ["A"];
    assert Sum(k3[..3]).types == ["A"];
  }
}
