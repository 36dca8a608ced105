/**
 * The all-types subscriber registry of `lib_c5t_actor_model.cc`: subscriber
 * ids, the cleanup handler per event type, and the types each subscriber
 * registered. The `unordered_set` of types is kept sorted here; the source
 * leaves the order of the cleanup calls unspecified.
 */
module ActorRegistry {
  import opened Words
  import opened Topics
  import Ordered

  /** The identity of a per-type singleton that can clean a subscriber up. */
  type HandlerRef = string

  datatype Registry = Registry(idsUsed: U64, cleanups: map<TypeTag, HandlerRef>, typesPerId: map<U64, seq<TypeTag>>)

  const Empty: Registry := Registry(0, map[], map[])

  /** Every registered type has a handler, and each subscriber's types are a sorted set. */
  predicate Valid(r: Registry) {
    && (forall sid :: sid in r.typesPerId ==> Ordered.SortedSet(r.typesPerId[sid], Ordered.StrLess))
    && (forall sid, i :: sid in r.typesPerId && 0 <= i < |r.typesPerId[sid]| ==> r.typesPerId[sid][i] in r.cleanups)
  }

  datatype Allocated = Allocated(registry: Registry, id: U64)

  /** `AllocateNextID`: pre-increments the 64-bit counter. */
  function AllocateNextID(r: Registry): (a: Allocated)
    ensures a.id == (r.idsUsed + 1) % TWO_64 && a.registry.idsUsed == a.id
    ensures a.registry == r.(idsUsed := a.id)
  {
    var n := Inc64(r.idsUsed);
    Allocated(r.(idsUsed := n), n)
  }

  /** The ids handed out by `n` consecutive allocations. */
  function AllocateMany(r: Registry, n: nat): (ids: seq<U64>)
    ensures |ids| == n
    decreases n
  {
    if n == 0 then [] else var a := AllocateNextID(r); [a.id] + AllocateMany(a.registry, n - 1)
  }

  /** From a fresh counter, ids are 1, 2, 3, ...: never 0 and strictly increasing. */
  lemma {:induction false} AllocatedIdsCount(r: Registry, n: nat)
    requires r.idsUsed + n < TWO_64
    ensures forall i :: 0 <= i < n ==> AllocateMany(r, n)[i] == r.idsUsed + i + 1
    decreases n
  {
    if n > 0 {
      var a := AllocateNextID(r);
      AllocatedIdsCount(a.registry, n - 1);
      var ids := AllocateMany(r, n);
      assert ids[1..] == AllocateMany(a.registry, n - 1);
      forall i | 0 <= i < n ensures ids[i] == r.idsUsed + i + 1 {
        if i > 0 {
          assert ids[i] == ids[1..][i - 1];
        }
      }
    }
  }

  lemma AllocatedIdsFromZero(n: nat)
    requires n < TWO_64
    ensures var ids := AllocateMany(Empty, n);
            && (forall i :: 0 <= i < n ==> ids[i] != 0)
            && (forall i, j :: 0 <= i < j < n ==> ids[i] < ids[j])
  {
    AllocatedIdsCount(Empty, n);
  }

  function TypesOf(r: Registry, sid: U64): seq<TypeTag> {
    if sid in r.typesPerId then r.typesPerId[sid] else []
  }

  /**
   * `InternalRegisterTypeForSubscriber`: the first handler registered for a
   * type stays; the type joins the subscriber's set.
   */
  function RegisterType(r: Registry, t: TypeTag, sid: U64, handler: HandlerRef): (r': Registry)
    requires Valid(r)
    ensures Valid(r')
    ensures r'.idsUsed == r.idsUsed
    ensures r'.cleanups == if t in r.cleanups then r.cleanups else r.cleanups[t := handler]
    ensures forall x :: x in TypesOf(r', sid) <==> x == t || x in TypesOf(r, sid)
    ensures forall s :: s != sid ==> TypesOf(r', s) == TypesOf(r, s)
    ensures r'.typesPerId.Keys == r.typesPerId.Keys + {sid}
  {
    Ordered.StrLessIsStrictTotalOrder();
    var cleanups := if t in r.cleanups then r.cleanups else r.cleanups[t := handler];
    var types := Ordered.SetInsert(TypesOf(r, sid), t, Ordered.StrLess);
    forall i | 0 <= i < |types| ensures types[i] in cleanups {
      assert types[i] in types;
      if types[i] != t {
        var j :| 0 <= j < |TypesOf(r, sid)| && TypesOf(r, sid)[j] == types[i];
      }
    }
    Registry(r.idsUsed, cleanups, r.typesPerId[sid := types])
  }

  /** Registering again, with any handler, changes nothing. */
  lemma RegisterTypeIdempotent(r: Registry, t: TypeTag, sid: U64, first: HandlerRef, again: HandlerRef)
    requires Valid(r)
    ensures RegisterType(RegisterType(r, t, sid, first), t, sid, again) == RegisterType(r, t, sid, first)
  {
    var r1 := RegisterType(r, t, sid, first);
    var r2 := RegisterType(r1, t, sid, again);
    Ordered.StrLessIsStrictTotalOrder();
    Ordered.SortedSetsWithSameMembers(TypesOf(r2, sid), TypesOf(r1, sid), Ordered.StrLess);
    assert r2.typesPerId == r1.typesPerId;
  }

  /** One call of a per-type handler's `CleanupSubscriberByID`. */
  datatype CleanupCall = CleanupCall(handler: HandlerRef, sid: U64)

  function CleanupCalls(cleanups: map<TypeTag, HandlerRef>, types: seq<TypeTag>, sid: U64): (calls: seq<CleanupCall>)
    requires forall i :: 0 <= i < |types| ==> types[i] in cleanups
    ensures |calls| == |types|
    ensures forall i :: 0 <= i < |types| ==> calls[i] == CleanupCall(cleanups[types[i]], sid)
  {
    if |types| == 0 then [] else [CleanupCall(cleanups[types[0]], sid)] + CleanupCalls(cleanups, types[1..], sid)
  }

  datatype Cleaned = Cleaned(registry: Registry, calls: seq<CleanupCall>)

  /**
   * `CleanupSubscriberByID`: calls the handler of each type the subscriber
   * registered, once per type, passing the subscriber's id. The type set is
   * kept; an unknown id gets an empty set and no calls.
   */
  function CleanupSubscriberByID(r: Registry, sid: U64): (c: Cleaned)
    requires Valid(r)
    ensures Valid(c.registry)
    ensures |c.calls| == |TypesOf(r, sid)|
    ensures forall i :: 0 <= i < |c.calls| ==> c.calls[i] == CleanupCall(r.cleanups[TypesOf(r, sid)[i]], sid)
    ensures sid !in r.typesPerId ==> c.calls == []
    ensures forall s :: TypesOf(c.registry, s) == TypesOf(r, s)
    ensures c.registry.cleanups == r.cleanups && c.registry.idsUsed == r.idsUsed
  {
    var types := TypesOf(r, sid);
    Cleaned(r.(typesPerId := r.typesPerId[sid := types]), CleanupCalls(r.cleanups, types, sid))
  }

  /** A second cleanup of the same subscriber repeats exactly the same calls. */
  lemma CleanupRepeats(r: Registry, sid: U64)
    requires Valid(r)
    ensures CleanupSubscriberByID(CleanupSubscriberByID(r, sid).registry, sid).calls == CleanupSubscriberByID(r, sid).calls
  {
  }
}
