/**
 * The file-backed storage of `lib_c5t_storage.cc` and the field registry of
 * `lib_c5t_storage.h`. The file system is a map from (directory, field, key)
 * to file contents; a write that fails is an oracle the caller supplies,
 * since the source swallows the exception. At most one instance is active at
 * a time, as the process-wide `pimpl` pointer demands.
 */
module StorageBackend {
  import opened Wrappers
  import Ordered

  /** What `DoDelete` writes in place of a value; no JSON text equals it. */
  const Tombstone: string := "-\n"

  /** The file `path/field/key`. */
  datatype FileKey = FileKey(dir: string, field: string, key: string)

  type Files = map<FileKey, string>

  /** A declared field: its name and the C++ type it stores, as a tag. */
  datatype FieldDecl = FieldDecl(name: string, typeTag: string)

  /** The fatal `abort()` paths. */
  datatype StorageFatal = DeclaredTwice(name: string) | TwoInstances | ConfusedInstances

  /** The exceptions thrown to the caller. */
  datatype StorageError = NotInitialized | FieldDeclaredAndNotDefined | InternalError | KeyNotFound

  /** `C5T_STORAGE_META_SINGLETON`: every declared field, in declaration order, and their names. */
  datatype Meta = Meta(fields: seq<FieldDecl>, names: set<string>)

  const EmptyMeta: Meta := Meta([], {})

  ghost predicate MetaValid(m: Meta) {
    && (forall i, j :: 0 <= i < j < |m.fields| ==> m.fields[i].name != m.fields[j].name)
    && m.names == NamesOf(m.fields)
  }

  /** `DeclareField`: a second declaration of a name aborts; otherwise the field is appended. */
  function DeclareField(m: Meta, f: FieldDecl): (r: Result<Meta, StorageFatal>)
    requires MetaValid(m)
    ensures r.Err? <==> exists i :: 0 <= i < |m.fields| && m.fields[i].name == f.name
    ensures r.Err? ==> r.error == DeclaredTwice(f.name)
    ensures r.Ok? ==> MetaValid(r.value) && r.value.fields == m.fields + [f] && r.value.names == m.names + {f.name}
  {
    if f.name in m.names then Err(DeclaredTwice(f.name))
    else
      var r := Meta(m.fields + [f], m.names + {f.name});
      NamesOfSnoc(r.fields);
      assert r.fields[..|r.fields| - 1] == m.fields;
      Ok(r)
  }

  /** Declaring a list of fields one by one; the first repeated name aborts. */
  function DeclareAll(m: Meta, fs: seq<FieldDecl>): (r: Result<Meta, StorageFatal>)
    requires MetaValid(m)
    ensures r.Ok? ==> MetaValid(r.value) && r.value.fields == m.fields + fs
    decreases |fs|
  {
    if |fs| == 0 then Ok(m)
    else
      match DeclareField(m, fs[0])
      case Err(e) => Err(e)
      case Ok(m1) =>
        var r := DeclareAll(m1, fs[1..]);
        assert r.Ok? ==> r.value.fields == m.fields + fs by {
          assert m1.fields + fs[1..] == m.fields + fs;
        }
        r
  }

  /**
   * A `C5T_STORAGE_Instance`: its directory, its name-to-field index (a
   * `std::map`, kept sorted by name) and the fields it has started fresh.
   */
  datatype Instance = Instance(serial: nat, path: string, index: seq<(string, FieldDecl)>, initialized: set<string>)

  /** The active-instance pointer, the next instance identity, and the disk. */
  datatype Storage = Storage(meta: Meta, active: Option<Instance>, nextSerial: nat, files: Files)

  /** The names of a list of fields. */
  function NamesOf(fields: seq<FieldDecl>): set<string> {
    set i | 0 <= i < |fields| :: fields[i].name
  }

  lemma NamesOfSnoc(fields: seq<FieldDecl>)
    requires |fields| > 0
    ensures NamesOf(fields) == NamesOf(fields[..|fields| - 1]) + {fields[|fields| - 1].name}
  {
    var p := fields[..|fields| - 1];
    assert forall i :: 0 <= i < |p| ==> p[i] == fields[i];
  }

  /** The index the constructor builds by visiting every declared field in order. */
  function IndexFields(fields: seq<FieldDecl>): (r: seq<(string, FieldDecl)>)
    ensures Ordered.Sorted(r, Ordered.StrLess)
    ensures forall n :: Ordered.HasKey(r, n) <==> n in NamesOf(fields)
    decreases |fields|
  {
    Ordered.StrLessIsStrictTotalOrder();
    if |fields| == 0 then []
    else
      var f := fields[|fields| - 1];
      NamesOfSnoc(fields);
      Ordered.Put(IndexFields(fields[..|fields| - 1]), f.name, f, Ordered.StrLess)
  }

  /** With distinct names, each field is indexed under its own name. */
  lemma {:induction false} IndexFieldsFinds(fields: seq<FieldDecl>, i: nat)
    requires forall a, b :: 0 <= a < b < |fields| ==> fields[a].name != fields[b].name
    requires i < |fields|
    ensures Ordered.Find(IndexFields(fields), fields[i].name) == Some(fields[i])
    decreases |fields|
  {
    var p := fields[..|fields| - 1];
    if i < |fields| - 1 {
      assert p[i] == fields[i];
      IndexFieldsFinds(p, i);
    }
  }

  /** With distinct names the index has one entry per declared field. */
  lemma {:induction false} IndexFieldsCount(fields: seq<FieldDecl>)
    requires forall a, b :: 0 <= a < b < |fields| ==> fields[a].name != fields[b].name
    ensures |IndexFields(fields)| == |fields|
    decreases |fields|
  {
    if |fields| > 0 {
      var p := fields[..|fields| - 1];
      var f := fields[|fields| - 1];
      IndexFieldsCount(p);
      assert f.name !in NamesOf(p) by {
        forall i | 0 <= i < |p| ensures p[i].name != f.name {
          assert p[i] == fields[i];
        }
      }
    }
  }

  datatype Created = Created(storage: Storage, instance: Instance)

  /**
   * `C5T_STORAGE_CREATE_UNIQUE_INSANCE`: aborts if an instance is active;
   * otherwise indexes every declared field and becomes the active instance.
   */
  function CreateInstance(s: Storage, path: string): (r: Result<Created, StorageFatal>)
    ensures r.Err? <==> s.active.Some?
    ensures r.Err? ==> r.error == TwoInstances
    ensures r.Ok? ==> var inst := r.value.instance;
                      && r.value.storage.active == Some(inst) && inst.path == path
                      && inst.initialized == {} && inst.serial == s.nextSerial
                      && r.value.storage.files == s.files && r.value.storage.meta == s.meta
                      && r.value.storage.nextSerial == s.nextSerial + 1
  {
    if s.active.Some? then Err(TwoInstances)
    else
      var inst := Instance(s.nextSerial, path, IndexFields(s.meta.fields), {});
      Ok(Created(s.(active := Some(inst), nextSerial := s.nextSerial + 1), inst))
  }

  /** The destructor: aborts unless this instance is the active one; otherwise clears the pointer. */
  function DestroyInstance(s: Storage, serial: nat): (r: Result<Storage, StorageFatal>)
    ensures r.Err? <==> s.active.None? || s.active.value.serial != serial
    ensures r.Err? ==> r.error == ConfusedInstances
    ensures r.Ok? ==> r.value == s.(active := None)
  {
    if s.active.None? || s.active.value.serial != serial then Err(ConfusedInstances) else Ok(s.(active := None))
  }

  /** `C5T_STORAGE_INJECT`: makes the given instance the active one, unconditionally. */
  function Inject(s: Storage, inst: Instance): (r: Storage)
    ensures r.active == Some(inst) && r.files == s.files && r.meta == s.meta
  {
    s.(active := Some(inst))
  }

  /** `C5T_STORAGE_INSTANCE`: the active instance, or `StorageNotInitializedException`. */
  function ActiveInstance(s: Storage): (r: Result<Instance, StorageError>)
    ensures r.Ok? <==> s.active.Some?
    ensures r.Ok? ==> Some(r.value) == s.active
    ensures r.Err? ==> r.error == NotInitialized
  {
    if s.active.Some? then Ok(s.active.value) else Err(NotInitialized)
  }

  /** `FieldsCount`. */
  function FieldsCount(inst: Instance): (n: nat)
    ensures n == |Ordered.Keys(inst.index)|
  {
    |inst.index|
  }

  /** `ListFields`: the indexed names, in the index's (sorted) order. */
  function ListFields(inst: Instance): (names: seq<string>)
    ensures |names| == FieldsCount(inst)
    ensures forall i :: 0 <= i < |names| ==> names[i] == inst.index[i].0
  {
    Ordered.Keys(inst.index)
  }

  /** A freshly created instance lists each declared name exactly once, in sorted order. */
  lemma ListFieldsOfCreated(s: Storage, path: string)
    requires MetaValid(s.meta) && s.active.None?
    ensures var inst := CreateInstance(s, path).value.instance;
            && FieldsCount(inst) == |s.meta.fields|
            && (forall n :: n in ListFields(inst) <==> n in s.meta.names)
            && (forall i, j :: 0 <= i < j < FieldsCount(inst) ==> Ordered.StrLess(ListFields(inst)[i], ListFields(inst)[j]))
  {
    var inst := CreateInstance(s, path).value.instance;
    IndexFieldsCount(s.meta.fields);
    var names := ListFields(inst);
    forall n ensures n in names <==> n in s.meta.names {
      if n in names {
        var i :| 0 <= i < |names| && names[i] == n;
        assert inst.index[i].0 == n;
        assert Ordered.HasKey(inst.index, n);
      }
      if n in s.meta.names {
        assert Ordered.HasKey(inst.index, n);
        var i :| 0 <= i < |inst.index| && inst.index[i].0 == n;
        assert names[i] == n;
      }
    }
  }

  const ExampleFields: seq<FieldDecl> := [FieldDecl("kv2", "map"), FieldDecl("kv3", "map"), FieldDecl("kv1", "map")]

  lemma ExampleMeta()
    ensures DeclareAll(EmptyMeta, ExampleFields) == Ok(Meta(ExampleFields, {"kv2", "kv3", "kv1"}))
  {
    var fs := ExampleFields;
    var m1 := DeclareField(EmptyMeta, fs[0]).value;
    var m2 := DeclareField(m1, fs[1]).value;
    assert m2.names == {"kv2", "kv3"};
    var m3 := DeclareField(m2, fs[2]).value;
    assert m3.fields == fs && m3.names == {"kv2", "kv3", "kv1"};
    assert fs[2..][1..] == [] && DeclareAll(m3, []) == Ok(m3);
    assert DeclareAll(m2, fs[2..]) == Ok(m3);
    assert fs[1..][1..] == fs[2..];
    assert DeclareAll(m1, fs[1..]) == Ok(m3);
  }

  lemma ExampleOrder()
    ensures Ordered.SortedSet(["kv1", "kv2", "kv3"], Ordered.StrLess)
  {
    assert Ordered.StrLess("kv1", "kv2") && Ordered.StrLess("kv2", "kv3") && Ordered.StrLess("kv1", "kv3");
  }

  /** Three fields declared in any order are listed as `kv1,kv2,kv3`. */
  lemma ListFieldsExample()
    ensures var m := DeclareAll(EmptyMeta, ExampleFields);
            && m.Ok?
            && ListFields(CreateInstance(Storage(m.value, None, 0, map[]), "dir").value.instance) == ["kv1", "kv2", "kv3"]
  {
    ExampleMeta();
    ExampleOrder();
    var s := Storage(Meta(ExampleFields, {"kv2", "kv3", "kv1"}), None, 0, map[]);
    ListFieldsOfCreated(s, "dir");
    var names := ListFields(CreateInstance(s, "dir").value.instance);
    Ordered.StrLessIsStrictTotalOrder();
    Ordered.SortedSetsWithSameMembers(names, ["kv1", "kv2", "kv3"], Ordered.StrLess);
  }

  /** `UseFieldTypeErased`: the indexed field of that name, or null. */
  function UseFieldTypeErased(inst: Instance, name: string): (r: Option<FieldDecl>)
    ensures r.None? <==> !Ordered.HasKey(inst.index, name)
    ensures r.Some? ==> (name, r.value) in inst.index
  {
    Ordered.Find(inst.index, name)
  }

  datatype Fresh = Fresh(instance: Instance, startFresh: bool)

  /** `NeedToStartFresh`: true on the first call for a field, false on every later one. */
  function NeedToStartFresh(inst: Instance, field: string): (r: Fresh)
    ensures r.startFresh <==> field !in inst.initialized
    ensures r.instance.initialized == inst.initialized + {field}
    ensures r.instance.path == inst.path && r.instance.index == inst.index && r.instance.serial == inst.serial
  {
    if field !in inst.initialized then Fresh(inst.(initialized := inst.initialized + {field}), true)
    else Fresh(inst, false)
  }

  lemma StartFreshOnlyOnce(inst: Instance, field: string)
    ensures !NeedToStartFresh(NeedToStartFresh(inst, field).instance, field).startFresh
  {
  }

  function FileOf(inst: Instance, field: string, key: string): FileKey {
    FileKey(inst.path, field, key)
  }

  /** `DoSave`: writes the value to the key's file; a failed write leaves the disk as it was. */
  function DoSave(files: Files, inst: Instance, field: string, key: string, value: string, writeOk: bool): (r: Files)
    ensures writeOk ==> r == files[FileOf(inst, field, key) := value]
    ensures !writeOk ==> r == files
  {
    if writeOk then files[FileOf(inst, field, key) := value] else files
  }

  /** `DoLoad`: the file's content, or none when the file is missing or holds the tombstone. */
  function DoLoad(files: Files, inst: Instance, field: string, key: string): (r: Option<string>)
    ensures r.Some? <==> FileOf(inst, field, key) in files && files[FileOf(inst, field, key)] != Tombstone
    ensures r.Some? ==> r.value == files[FileOf(inst, field, key)]
  {
    var f := FileOf(inst, field, key);
    if f in files && files[f] != Tombstone then Some(files[f]) else None
  }

  /** `DoDelete`: writes the tombstone over the key's file. */
  function DoDelete(files: Files, inst: Instance, field: string, key: string, writeOk: bool): (r: Files)
    ensures writeOk ==> r == files[FileOf(inst, field, key) := Tombstone]
    ensures !writeOk ==> r == files
  {
    DoSave(files, inst, field, key, Tombstone, writeOk)
  }

  /** A saved value loads back, unless it is the tombstone text itself. */
  lemma SaveThenLoad(files: Files, inst: Instance, field: string, key: string, value: string)
    ensures DoLoad(DoSave(files, inst, field, key, value, true), inst, field, key)
            == if value == Tombstone then None else Some(value)
  {
  }

  /** A deleted key loads as absent. */
  lemma DeleteThenLoad(files: Files, inst: Instance, field: string, key: string)
    ensures DoLoad(DoDelete(files, inst, field, key, true), inst, field, key) == None
  {
  }

  /** Writes touch only their own (directory, field, key): another key, field or directory loads as before. */
  lemma WritesAreKeyed(files: Files, inst: Instance, other: Instance, field: string, key: string,
                       field2: string, key2: string, value: string, writeOk: bool)
    requires other.path != inst.path || field2 != field || key2 != key
    ensures DoLoad(DoSave(files, inst, field, key, value, writeOk), other, field2, key2) == DoLoad(files, other, field2, key2)
    ensures DoLoad(DoDelete(files, inst, field, key, writeOk), other, field2, key2) == DoLoad(files, other, field2, key2)
  {
  }

  /** A second instance can be created only after the first is destroyed. */
  lemma SingleActiveInstance(s: Storage, p1: string, p2: string)
    requires s.active.None?
    ensures var c := CreateInstance(s, p1).value;
            && CreateInstance(c.storage, p2) == Err(TwoInstances)
            && DestroyInstance(c.storage, c.instance.serial).Ok?
            && CreateInstance(DestroyInstance(c.storage, c.instance.serial).value, p2).Ok?
  {
  }
}
