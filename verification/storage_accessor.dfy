/**
 * `C5T_STORAGE_FIELD_ACCESSOR<T>` of `lib_c5t_storage.h`: a lazily loaded
 * per-field cache (`contents`, key to `{loaded, value}`) in front of the
 * active storage instance. JSON is an abstract `Codec`; every call the
 * accessor makes to the backend is recorded in `calls`.
 */
module StorageAccessor {
  import opened Wrappers
  import opened StorageBackend
  import Ordered

  /** A cache slot: whether the key was loaded, and the value (null when absent). */
  datatype Entry<T> = Entry(loaded: bool, value: Option<T>)

  type Cache<T> = map<string, Entry<T>>

  /** `JSON` and `ParseJSON` of the field's type; a parse failure is `None`. */
  datatype Codec<!T> = Codec(serialize: T -> string, deserialize: string -> Option<T>)

  /** The backend calls an accessor can make. */
  datatype BackendCall = Load(field: string, key: string) | Save(field: string, key: string, value: string) | Delete(field: string, key: string)

  /** An accessor: the field's name and cache, the active instance, the disk, and the backend calls so far. */
  datatype Accessor<T> = Accessor(field: string, cache: Cache<T>, instance: Instance, files: Files, calls: seq<BackendCall>)

  /** An operation's result together with the accessor after it. */
  datatype Answer<T, R> = Answer(acc: Accessor<T>, result: R)

  /** `contents[key]`: a slot that was never touched reads as not loaded and absent. */
  function Slot<T>(c: Cache<T>, key: string): (e: Entry<T>)
    ensures key !in c ==> e == Entry(false, None)
  {
    if key in c then c[key] else Entry(false, None)
  }

  /** The value a string on disk stands for: none when missing or when it fails to parse. */
  function Decode<T>(codec: Codec<T>, s: Option<string>): (r: Option<T>)
    ensures s.None? ==> r.None?
  {
    if s.Some? then codec.deserialize(s.value) else None
  }

  /**
   * `InnerGet`: the first access to a key loads it from the backend and
   * parses it; a failed parse leaves the key absent, also nulling a value
   * the slot already held. Later accesses answer from the cache.
   */
  function InnerGet<T>(a: Accessor<T>, codec: Codec<T>, key: string): (r: Answer<T, Option<T>>)
    ensures r.acc.field == a.field && r.acc.instance == a.instance && r.acc.files == a.files
    ensures Slot(a.cache, key).loaded ==> r.acc == a && r.result == Slot(a.cache, key).value
    ensures !Slot(a.cache, key).loaded ==>
              && r.acc.calls == a.calls + [Load(a.field, key)]
              && r.result == Decode(codec, DoLoad(a.files, a.instance, a.field, key))
              && r.acc.cache == a.cache[key := Entry(true, r.result)]
  {
    var p := Slot(a.cache, key);
    if p.loaded then Answer(a, p.value)
    else
      var s := DoLoad(a.files, a.instance, a.field, key);
      var v := if s.Some? then codec.deserialize(s.value) else None;
      Answer(a.(cache := a.cache[key := Entry(true, v)], calls := a.calls + [Load(a.field, key)]), v)
  }

  /** What reading a key's file directly gives: the decoded value, or none. */
  function OnDisk<T>(a: Accessor<T>, codec: Codec<T>, key: string): Option<T> {
    Decode(codec, DoLoad(a.files, a.instance, a.field, key))
  }

  /** A read touches neither the disk nor the instance, and makes at most one backend call, a load of that key. */
  predicate ReadFrame<T>(a: Accessor<T>, r: Accessor<T>, key: string) {
    && r.field == a.field && r.instance == a.instance && r.files == a.files
    && (r.calls == a.calls || r.calls == a.calls + [Load(a.field, key)])
  }

  /** `Has`: whether the key holds a value; through a coherent cache, whether its file decodes to one. */
  function Has<T>(a: Accessor<T>, codec: Codec<T>, key: string): (r: Answer<T, bool>)
    ensures ReadFrame(a, r.acc, key)
    ensures Coherent(a, codec) ==> (r.result <==> OnDisk(a, codec, key).Some?) && Coherent(r.acc, codec)
  {
    var g := InnerGet(a, codec, key);
    Answer(g.acc, g.result.Some?)
  }

  /** `Get`: the value, or none; through a coherent cache, what the key's file decodes to. */
  function Get<T>(a: Accessor<T>, codec: Codec<T>, key: string): (r: Answer<T, Option<T>>)
    ensures ReadFrame(a, r.acc, key)
    ensures Coherent(a, codec) ==> r.result == OnDisk(a, codec, key) && Coherent(r.acc, codec)
  {
    InnerGet(a, codec, key)
  }

  /** `GetOrDefault`: the value, or `def` when the key is absent; through a coherent cache, read from the file. */
  function GetOrDefault<T>(a: Accessor<T>, codec: Codec<T>, key: string, def: T): (r: Answer<T, T>)
    ensures ReadFrame(a, r.acc, key)
    ensures Coherent(a, codec) ==>
              && (OnDisk(a, codec, key).Some? ==> r.result == OnDisk(a, codec, key).value)
              && (OnDisk(a, codec, key).None? ==> r.result == def)
              && Coherent(r.acc, codec)
  {
    var g := InnerGet(a, codec, key);
    Answer(g.acc, g.result.GetOr(def))
  }

  /**
   * `GetOrThrow` with its default exception: `StorageKeyNotFoundException`
   * exactly when the key is absent; through a coherent cache, exactly when
   * the key's file does not decode to a value.
   */
  function GetOrThrow<T>(a: Accessor<T>, codec: Codec<T>, key: string): (r: Answer<T, Result<T, StorageError>>)
    ensures ReadFrame(a, r.acc, key)
    ensures r.result.Err? ==> r.result.error == KeyNotFound
    ensures Coherent(a, codec) ==>
              && (r.result.Ok? <==> OnDisk(a, codec, key).Some?)
              && (r.result.Ok? ==> r.result.value == OnDisk(a, codec, key).value)
              && Coherent(r.acc, codec)
  {
    var g := InnerGet(a, codec, key);
    Answer(g.acc, if g.result.Some? then Ok(g.result.value) else Err(KeyNotFound))
  }

  /**
   * `Set` (`InnerSet`): saves the serialised value through the backend, then
   * marks the slot loaded with the new value. `writeOk` is whether the file
   * write succeeded; the source ignores a failure.
   */
  function Set<T>(a: Accessor<T>, codec: Codec<T>, key: string, value: T, writeOk: bool): (r: Accessor<T>)
    ensures r.calls == a.calls + [Save(a.field, key, codec.serialize(value))]
    ensures r.files == DoSave(a.files, a.instance, a.field, key, codec.serialize(value), writeOk)
    ensures r.cache == a.cache[key := Entry(true, Some(value))]
    ensures r.field == a.field && r.instance == a.instance
  {
    var s := codec.serialize(value);
    a.(files := DoSave(a.files, a.instance, a.field, key, s, writeOk),
       calls := a.calls + [Save(a.field, key, s)],
       cache := a.cache[key := Entry(true, Some(value))])
  }

  /**
   * `Del` (`InnerDel`): looks the key up first; only a present value is
   * nulled in the cache and deleted in the backend.
   */
  function Del<T>(a: Accessor<T>, codec: Codec<T>, key: string, writeOk: bool): (r: Accessor<T>)
    ensures var g := InnerGet(a, codec, key);
            && (g.result.None? ==> r == g.acc)
            && (g.result.Some? ==>
                  && r.calls == g.acc.calls + [Delete(a.field, key)]
                  && r.files == DoDelete(a.files, a.instance, a.field, key, writeOk)
                  && r.cache == g.acc.cache[key := Entry(true, None)])
    ensures r.field == a.field && r.instance == a.instance
  {
    var g := InnerGet(a, codec, key);
    if g.result.Some? then
      g.acc.(cache := g.acc.cache[key := Entry(true, None)],
             files := DoDelete(g.acc.files, g.acc.instance, a.field, key, writeOk),
             calls := g.acc.calls + [Delete(a.field, key)])
    else g.acc
  }

  /**
   * The accessor's constructor: on the instance's first use of this field
   * (`NeedToStartFresh`) the field's whole cache is dropped, so values are
   * re-read from the new instance's directory.
   */
  function Open<T>(inst: Instance, files: Files, field: string, cache: Cache<T>): (r: Accessor<T>)
    ensures r.field == field && r.files == files && r.calls == []
    ensures r.instance == NeedToStartFresh(inst, field).instance
    ensures field !in inst.initialized ==> r.cache == map[]
    ensures field in inst.initialized ==> r.cache == cache
  {
    var f := NeedToStartFresh(inst, field);
    Accessor(field, if f.startFresh then map[] else cache, f.instance, files, [])
  }

  /**
   * `C5T_STORAGE_USE_FIELD<T>(name)`: the active instance (else
   * `StorageNotInitializedException`), the field declared under `name` (else
   * `StorageFieldDeclaredAndNotDefinedException`), of the requested type
   * (else `StorageInternalErrorException`).
   */
  function UseField<T>(s: Storage, name: string, typeTag: string, cache: Cache<T>): (r: Result<Accessor<T>, StorageError>)
    ensures s.active.None? ==> r == Err(NotInitialized)
    ensures s.active.Some? ==>
              var f := UseFieldTypeErased(s.active.value, name);
              && (f.None? ==> r == Err(FieldDeclaredAndNotDefined))
              && (f.Some? && f.value.typeTag != typeTag ==> r == Err(InternalError))
              && (f.Some? && f.value.typeTag == typeTag ==> r == Ok(Open(s.active.value, s.files, name, cache)))
  {
    match ActiveInstance(s)
    case Err(e) => Err(e)
    case Ok(inst) =>
      match UseFieldTypeErased(inst, name)
      case None => Err(FieldDeclaredAndNotDefined)
      case Some(decl) => if decl.typeTag != typeTag then Err(InternalError) else Ok(Open(inst, s.files, name, cache))
  }

  /** Writes what the accessor changed back into the storage: the instance's state and the disk. */
  function Release<T>(s: Storage, a: Accessor<T>): (r: Storage)
    ensures r.active == Some(a.instance) && r.files == a.files && r.meta == s.meta && r.nextSerial == s.nextSerial
  {
    s.(active := Some(a.instance), files := a.files)
  }

  /**
   * The accessor works on the instance's own map, so what it leaves is what
   * the next use of the field through the same instance sees: the field is
   * not started fresh again, and the cache and the disk are kept.
   */
  lemma ReleaseThenReuse<T>(s: Storage, name: string, tag: string, cache: Cache<T>, w: Accessor<T>)
    requires UseField(s, name, tag, cache).Ok?
    requires w.instance == UseField(s, name, tag, cache).value.instance
    ensures UseField(Release(s, w), name, tag, w.cache) == Ok(Accessor(name, w.cache, w.instance, w.files, []))
  {
    StartFreshOnlyOnce(s.active.value, name);
  }

  /** Every slot that exists was loaded (`contents[key]` is created only to be loaded at once). */
  predicate AllLoaded<T>(c: Cache<T>) {
    forall k :: k in c ==> c[k].loaded
  }

  /** The cache agrees with the disk: every cached value is what the key's file decodes to. */
  ghost predicate Coherent<T>(a: Accessor<T>, codec: Codec<T>) {
    && AllLoaded(a.cache)
    && forall k :: k in a.cache ==> a.cache[k].value == Decode(codec, DoLoad(a.files, a.instance, a.field, k))
  }

  /** The codec reads back what it writes, and never writes the tombstone. */
  ghost predicate RoundTrips<T(!new)>(codec: Codec<T>) {
    forall v :: codec.deserialize(codec.serialize(v)) == Some(v) && codec.serialize(v) != Tombstone
  }

  /** A coherent accessor answers exactly what reading the disk directly would. */
  lemma CoherentReads<T>(a: Accessor<T>, codec: Codec<T>, key: string)
    requires Coherent(a, codec)
    ensures InnerGet(a, codec, key).result == Decode(codec, DoLoad(a.files, a.instance, a.field, key))
    ensures Coherent(InnerGet(a, codec, key).acc, codec)
  {
  }

  lemma OpenCoherent<T>(inst: Instance, files: Files, field: string, cache: Cache<T>, codec: Codec<T>)
    requires field !in inst.initialized
    ensures Coherent(Open(inst, files, field, cache), codec)
  {
  }

  lemma SetKeepsCoherent<T(!new)>(a: Accessor<T>, codec: Codec<T>, key: string, value: T)
    requires Coherent(a, codec) && RoundTrips(codec)
    ensures Coherent(Set(a, codec, key, value, true), codec)
  {
    var r := Set(a, codec, key, value, true);
    forall k | k in r.cache ensures r.cache[k].value == Decode(codec, DoLoad(r.files, r.instance, r.field, k)) {
      if k != key {
        WritesAreKeyed(a.files, a.instance, a.instance, a.field, key, a.field, k, codec.serialize(value), true);
      }
    }
  }

  lemma DelKeepsCoherent<T>(a: Accessor<T>, codec: Codec<T>, key: string)
    requires Coherent(a, codec)
    ensures Coherent(Del(a, codec, key, true), codec)
  {
    var g := InnerGet(a, codec, key);
    var r := Del(a, codec, key, true);
    if g.result.Some? {
      forall k | k in r.cache ensures r.cache[k].value == Decode(codec, DoLoad(r.files, r.instance, r.field, k)) {
        if k != key {
          WritesAreKeyed(a.files, a.instance, a.instance, a.field, key, a.field, k, Tombstone, true);
        }
      }
    }
  }

  /** A key is loaded from the backend on its first access only. */
  lemma LoadsOnce<T>(a: Accessor<T>, codec: Codec<T>, key: string)
    ensures var g := InnerGet(a, codec, key);
            && InnerGet(g.acc, codec, key).acc == g.acc
            && InnerGet(g.acc, codec, key).result == g.result
            && |g.acc.calls| <= |a.calls| + 1
  {
  }

  /** After `Set(k, v)`: `Has(k)`, `Get(k) == v`, and no reload. */
  lemma SetThenGet<T>(a: Accessor<T>, codec: Codec<T>, key: string, value: T, writeOk: bool)
    ensures var s := Set(a, codec, key, value, writeOk);
            && Has(s, codec, key).result
            && Get(s, codec, key) == Answer(s, Some(value))
            && GetOrThrow(s, codec, key).result == Ok(value)
            && Last(s.calls) == Save(a.field, key, codec.serialize(value))
  {
  }

  function Last<X>(s: seq<X>): X
    requires |s| > 0
  {
    s[|s| - 1]
  }

  /** After `Del(k)` the key is absent; a delete reaches the backend only if the key was present. */
  lemma DelThenHas<T>(a: Accessor<T>, codec: Codec<T>, key: string, writeOk: bool)
    ensures var d := Del(a, codec, key, writeOk);
            && !Has(d, codec, key).result
            && GetOrThrow(d, codec, key).result == Err(KeyNotFound)
            && (Delete(a.field, key) in d.calls[|a.calls|..] <==> InnerGet(a, codec, key).result.Some?)
  {
    var g := InnerGet(a, codec, key);
    var d := Del(a, codec, key, writeOk);
    if g.result.Some? {
      assert d.calls[|a.calls|..][|d.calls[|a.calls|..]| - 1] == Delete(a.field, key);
    } else {
      assert forall i :: 0 <= i < |d.calls[|a.calls|..]| ==> d.calls[|a.calls|..][i].Load?;
    }
  }

  /** On an absent key `Get` is none, `GetOrDefault` is the default, `GetOrThrow` throws. */
  lemma AbsentKey<T>(a: Accessor<T>, codec: Codec<T>, key: string, def: T)
    requires InnerGet(a, codec, key).result.None?
    ensures !Has(a, codec, key).result
    ensures Get(a, codec, key).result == None
    ensures GetOrDefault(a, codec, key, def).result == def
    ensures GetOrThrow(a, codec, key).result == Err(KeyNotFound)
  {
  }

  /** A new instance finds every declared field, and has started none fresh. */
  lemma CreatedFindsDeclared(s: Storage, dir: string, decl: FieldDecl)
    requires MetaValid(s.meta) && s.active.None? && decl in s.meta.fields
    ensures var inst := CreateInstance(s, dir).value.instance;
            UseFieldTypeErased(inst, decl.name) == Some(decl) && inst.initialized == {} && inst.path == dir
  {
    var i :| 0 <= i < |s.meta.fields| && s.meta.fields[i] == decl;
    IndexFieldsFinds(s.meta.fields, i);
  }

  /** The first use of a field through an instance reads the instance's directory, not the stale cache. */
  lemma FirstUseReadsDisk<T>(s: Storage, decl: FieldDecl, cache: Cache<T>, codec: Codec<T>, key: string)
    requires s.active.Some? && decl.name !in s.active.value.initialized
    requires UseFieldTypeErased(s.active.value, decl.name) == Some(decl)
    ensures UseField(s, decl.name, decl.typeTag, cache).Ok?
    ensures Get(UseField(s, decl.name, decl.typeTag, cache).value, codec, key).result
            == Decode(codec, DoLoad(s.files, s.active.value, decl.name, key))
  {
  }

  /**
   * The persistence scenario: set `key` through an instance on `dir`,
   * destroy it, then read the key back through a new instance on `dir` and
   * ask for it through a new instance on `other`. `None` if a step fails.
   */
  function SetReopenRead<T>(s0: Storage, codec: Codec<T>, decl: FieldDecl, dir: string, other: string,
                            key: string, value: T, cache: Cache<T>): (r: Option<(Option<T>, bool)>)
    ensures r.Some? ==> CreateInstance(s0, dir).Ok?
  {
    match CreateInstance(s0, dir)
    case Err(_) => None
    case Ok(c1) =>
      match UseField(c1.storage, decl.name, decl.typeTag, cache)
      case Err(_) => None
      case Ok(a1) =>
        var w := Set(a1, codec, key, value, true);
        match DestroyInstance(Release(c1.storage, w), w.instance.serial)
        case Err(_) => None
        case Ok(s1) =>
          var c2 := CreateInstance(s1, dir);
          var c3 := CreateInstance(s1, other);
          if c2.Err? || c3.Err? then None
          else
            var a2 := UseField(c2.value.storage, decl.name, decl.typeTag, w.cache);
            var a3 := UseField(c3.value.storage, decl.name, decl.typeTag, w.cache);
            if a2.Err? || a3.Err? then None
            else Some((Get(a2.value, codec, key).result, Has(a3.value, codec, key).result))
  }

  /**
   * Persistence: a value set through one instance is seen by a later
   * instance on the same directory (whose first use of the field drops the
   * stale cache), and not by one on another directory that holds no file
   * for the key.
   */
  lemma PersistsAcrossInstances<T(!new)>(s0: Storage, codec: Codec<T>, decl: FieldDecl, dir: string, other: string,
                                         key: string, value: T, cache: Cache<T>)
    requires MetaValid(s0.meta) && s0.active.None? && RoundTrips(codec)
    requires decl in s0.meta.fields && other != dir
    requires FileKey(other, decl.name, key) !in s0.files
    ensures SetReopenRead(s0, codec, decl, dir, other, key, value, cache) == Some((Some(value), false))
  {
    CreatedFindsDeclared(s0, dir, decl);
    var c1 := CreateInstance(s0, dir).value;
    FirstUseReadsDisk(c1.storage, decl, cache, codec, key);
    var a1 := UseField(c1.storage, decl.name, decl.typeTag, cache).value;
    var w := Set(a1, codec, key, value, true);
    assert w.files == s0.files[FileKey(dir, decl.name, key) := codec.serialize(value)];
    var s1 := DestroyInstance(Release(c1.storage, w), w.instance.serial).value;
    assert s1.meta == s0.meta && s1.active.None? && s1.files == w.files;
    CreatedFindsDeclared(s1, dir, decl);
    var c2 := CreateInstance(s1, dir).value;
    FirstUseReadsDisk(c2.storage, decl, w.cache, codec, key);
    CreatedFindsDeclared(s1, other, decl);
    var c3 := CreateInstance(s1, other).value;
    FirstUseReadsDisk(c3.storage, decl, w.cache, codec, key);
  }
}
