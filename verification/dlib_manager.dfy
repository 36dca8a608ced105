/**
 * `C5T_DLibs_Manager` of `lib_c5t_dlib.cc`: loading a library by name,
 * reloading it when its file changed (the "symlink trick": every version is
 * opened through a fresh symlink whose name carries the file's stat key, so
 * the loader cannot hand back the old mapping), and the calls built on it.
 * `stat`, `symlink` and `dlopen` are oracles over the path they are given;
 * a library handle is identified by a generation number.
 */
module DLibManager {
  import opened Wrappers
  import opened Decimal
  import Ordered
  import opened DLibSymbols

  /** The platform suffix on Linux. */
  const DotSO: string := ".so"
  const LibPrefix: string := "libdlib_ext_"

  datatype Status = InternalError | Fail | Loaded | UpToDate | Reloaded

  /** `C5T_DLIB_RELOAD_RESULT`: a status and the library, if one is available. */
  datatype ReloadResult = ReloadResult(status: Status, lib: Option<nat>)

  /** A default-constructed `C5T_DLIB_RELOAD_RESULT`. */
  const DefaultResult: ReloadResult := ReloadResult(InternalError, None)

  /** The file's inode and modification time (seconds, nanoseconds). */
  datatype StatKey = StatKey(ino: nat, sec: int, nsec: int)

  /** A value-initialised key, as a fresh `loaded_libs` entry holds. */
  const NoKey: StatKey := StatKey(0, 0, 0)

  /** The file system and the loader, as seen from the manager. */
  datatype Env = Env(stat: string -> Option<StatKey>, symlinkOk: string -> bool, dlopen: string -> Option<SymbolTable>)

  /**
   * An open library: its generation, the path it was opened through, its
   * symbol table (fixed while it stays mapped) and its symbol memo.
   */
  datatype Instance = Instance(gen: nat, path: string, table: SymbolTable, lib: Lib)

  /** A `loaded_libs` value: the key last seen and the library, if open. */
  datatype Entry = Entry(key: StatKey, inst: Option<Instance>)

  /** An `OnLoad` or `OnUnload` that was found in a library and called. */
  datatype Hook = Hook(gen: nat, symbol: string)

  datatype Manager = Manager(
    baseDir: string,
    startUs: string,
    loaded: seq<(string, Entry)>,
    symlinks: seq<string>,
    nextGen: nat,
    hooks: seq<Hook>)

  /** A new manager: base directory `.` and the construction time as its prefix. */
  function NewManager(startUs: string): (m: Manager)
    ensures m.baseDir == "." && m.loaded == [] && m.symlinks == [] && m.hooks == []
  {
    Manager(".", startUs, [], [], 0, [])
  }

  function SetBaseDir(m: Manager, dir: string): (r: Manager)
    ensures r.baseDir == dir && r == m.(baseDir := dir)
  {
    m.(baseDir := dir)
  }

  function OrigBaseName(name: string): string {
    LibPrefix + name + DotSO
  }

  function OrigFullName(baseDir: string, name: string): string {
    baseDir + "/" + OrigBaseName(name)
  }

  /** `LibkeyToString`: the start time and the three key fields, `_`-separated. */
  function LibkeyToString(startUs: string, k: StatKey): string {
    startUs + "_" + IntToString(k.ino) + "_" + IntToString(k.sec) + "_" + IntToString(k.nsec)
  }

  /** The symlink through which the version with key `k` is opened. */
  function LinkFullName(baseDir: string, startUs: string, name: string, k: StatKey): string {
    baseDir + "/" + LibPrefix + name + "_" + LibkeyToString(startUs, k) + DotSO
  }

  /** The `loaded_libs` entry under `name`, default-constructed when absent. */
  function EntryOf(m: Manager, name: string): Entry {
    Ordered.Find(m.loaded, name).GetOr(Entry(NoKey, None))
  }

  /** The hook a call of `symbol` produced, if the library has it. */
  function HookIf(called: Option<Addr>, gen: nat, symbol: string): (hs: seq<Hook>)
    ensures hs == [] <==> called.None?
  {
    if called.Some? then [Hook(gen, symbol)] else []
  }

  /**
   * Destroying an open library calls its `OnUnload`, looked up through the
   * library itself, if it has one.
   */
  function UnloadHooks(inst: Option<Instance>): (hs: seq<Hook>)
    ensures |hs| <= 1 && (inst.None? ==> hs == [])
    ensures inst.Some? && MemoFaithful(inst.value.lib, inst.value.table) ==>
              (hs == [Hook(inst.value.gen, "OnUnload")] <==> Resolve(inst.value.table, "OnUnload").Some?)
    ensures forall h :: h in hs ==> h == Hook(inst.value.gen, "OnUnload")
  {
    if inst.None? then []
    else HookIf(CallOrDefaultVoid(inst.value.lib, inst.value.table, "OnUnload").1, inst.value.gen, "OnUnload")
  }

  /**
   * An open library has an earlier generation, was opened through a symlink
   * the manager made, and its memo agrees with its symbol table.
   */
  predicate Accounted(e: Entry, nextGen: nat, symlinks: seq<string>) {
    e.inst.Some? ==>
      && e.inst.value.gen < nextGen && e.inst.value.path in symlinks
      && MemoFaithful(e.inst.value.lib, e.inst.value.table)
  }

  /** What the manager keeps true. */
  ghost predicate Valid(m: Manager) {
    && Ordered.Sorted(m.loaded, Ordered.StrLess)
    && (forall p :: p in m.loaded ==> Accounted(p.1, m.nextGen, m.symlinks))
  }

  lemma NewManagerValid(startUs: string)
    ensures Valid(NewManager(startUs))
  {
  }

  /** `loaded_libs[name] = e`. */
  function Store(m: Manager, name: string, e: Entry): (r: Manager)
    requires Ordered.Sorted(m.loaded, Ordered.StrLess)
    ensures Ordered.Sorted(r.loaded, Ordered.StrLess)
    ensures Ordered.Find(r.loaded, name) == Some(e)
    ensures forall x :: x != name ==> Ordered.Find(r.loaded, x) == Ordered.Find(m.loaded, x)
    ensures forall p :: p in r.loaded ==> p.0 == name || p in m.loaded
    ensures r == m.(loaded := r.loaded)
  {
    Ordered.StrLessIsStrictTotalOrder();
    var loaded := Ordered.Put(m.loaded, name, e, Ordered.StrLess);
    assert forall p :: p in loaded ==> p.0 == name || p in m.loaded by {
      forall p | p in loaded ensures p.0 == name || p in m.loaded {
        var i :| 0 <= i < |loaded| && loaded[i] == p;
        assert loaded[i].0 == name || (loaded[i].0, loaded[i].1) in m.loaded;
      }
    }
    m.(loaded := loaded)
  }

  /** Storing an entry whose library (if any) is accounted for keeps the manager valid. */
  lemma {:induction false} StoreKeepsValid(m: Manager, name: string, e: Entry)
    requires Valid(m)
    requires Accounted(e, m.nextGen, m.symlinks)
    ensures Valid(Store(m, name, e))
  {
    Ordered.StrLessIsStrictTotalOrder();
    var r := Store(m, name, e).loaded;
    forall p | p in r ensures Accounted(p.1, m.nextGen, m.symlinks) {
      var i :| 0 <= i < |r| && r[i] == p;
      if p.0 == name {
        Ordered.FindSorted(r, Ordered.StrLess, i);
      }
    }
  }

  /** A later generation counter and more symlinks keep the manager valid. */
  lemma GrowKeepsValid(m: Manager, nextGen: nat, link: string)
    requires Valid(m) && nextGen >= m.nextGen
    ensures Valid(m.(nextGen := nextGen, symlinks := m.symlinks + [link]))
  {
    forall p | p in m.loaded ensures Accounted(p.1, nextGen, m.symlinks + [link]) {
      assert Accounted(p.1, m.nextGen, m.symlinks);
    }
  }

  /** The old library is dropped (its `OnUnload` runs) and the entry takes the new key with no library. */
  function Detach(m: Manager, name: string, key: StatKey): (m1: Manager)
    requires Valid(m)
    ensures Valid(m1)
    ensures m1.baseDir == m.baseDir && m1.startUs == m.startUs && m1.symlinks == m.symlinks && m1.nextGen == m.nextGen
    ensures Ordered.Find(m1.loaded, name) == Some(Entry(key, None))
    ensures forall x :: x != name ==> Ordered.Find(m1.loaded, x) == Ordered.Find(m.loaded, x)
    ensures m1.hooks == m.hooks + UnloadHooks(EntryOf(m, name).inst)
  {
    StoreKeepsValid(m, name, Entry(key, None));
    Store(m, name, Entry(key, None)).(hooks := m.hooks + UnloadHooks(EntryOf(m, name).inst))
  }

  /** A library opened through `link` is stored under `name` as the next generation, after its `OnLoad`. */
  function Attach(m2: Manager, name: string, key: StatKey, link: string, table: SymbolTable): (m3: Manager)
    requires Valid(m2) && link in m2.symlinks
    ensures Valid(m3)
    ensures m3.baseDir == m2.baseDir && m3.startUs == m2.startUs && m3.symlinks == m2.symlinks
    ensures m3.nextGen == m2.nextGen + 1
    ensures Ordered.Find(m3.loaded, name) == Some(Entry(key, Some(Instance(m2.nextGen, link, table, CallOrDefaultVoid(NoSymbols, table, "OnLoad").0))))
    ensures forall x :: x != name ==> Ordered.Find(m3.loaded, x) == Ordered.Find(m2.loaded, x)
    ensures m3.hooks == m2.hooks + (if Resolve(table, "OnLoad").Some? then [Hook(m2.nextGen, "OnLoad")] else [])
  {
    NoSymbolsFaithful(table);
    var onLoad := CallOrDefaultVoid(NoSymbols, table, "OnLoad");
    var inst := Instance(m2.nextGen, link, table, onLoad.0);
    var grown := m2.(nextGen := m2.nextGen + 1);
    assert Valid(grown) by {
      forall p | p in m2.loaded ensures Accounted(p.1, grown.nextGen, grown.symlinks) {
        assert Accounted(p.1, m2.nextGen, m2.symlinks);
      }
    }
    StoreKeepsValid(grown, name, Entry(key, Some(inst)));
    Store(grown, name, Entry(key, Some(inst))).(hooks := m2.hooks + HookIf(onLoad.1, inst.gen, "OnLoad"))
  }

  /**
   * The part of `LoadLibAndReloadAsNeededFromLockedSection` after a changed
   * (or first) key: the old library is dropped, the symlink for the new key
   * is created (failing if it exists or cannot be made), and the library is
   * opened through it.
   */
  function Reload(m: Manager, env: Env, name: string, key: StatKey): (r: (Manager, ReloadResult))
    requires Valid(m)
    ensures Valid(r.0)
    ensures r.0.baseDir == m.baseDir && r.0.startUs == m.startUs
    ensures Ordered.HasKey(r.0.loaded, name) && EntryOf(r.0, name).key == key
    ensures forall x :: x != name ==> Ordered.Find(r.0.loaded, x) == Ordered.Find(m.loaded, x)
    ensures r.1.status in {Fail, Loaded, Reloaded}
    ensures r.1.lib.Some? <==> r.1.status != Fail
    ensures r.1.lib.Some? ==> EntryOf(r.0, name).inst.Some? && r.1.lib.value == EntryOf(r.0, name).inst.value.gen == m.nextGen
    ensures r.1.lib.None? ==> EntryOf(r.0, name).inst.None?
    ensures r.1.status == Reloaded <==> r.1.lib.Some? && EntryOf(m, name).inst.Some?
    ensures m.hooks <= r.0.hooks
  {
    var m1 := Detach(m, name, key);
    var link := LinkFullName(m.baseDir, m.startUs, name, key);
    if link in m1.symlinks || !env.symlinkOk(link) then (m1, ReloadResult(Fail, None))
    else
      var m2 := m1.(symlinks := m1.symlinks + [link]);
      GrowKeepsValid(m1, m1.nextGen, link);
      match env.dlopen(link)
      case None => (m2, ReloadResult(Fail, None))
      case Some(table) =>
        var m3 := Attach(m2, name, key, link, table);
        (m3, ReloadResult(if EntryOf(m, name).inst.Some? then Reloaded else Loaded, Some(m2.nextGen)))
  }

  /**
   * `LoadLibAndReloadAsNeededFromLockedSection`: a library file that cannot
   * be `stat`-ed fails without touching `loaded_libs`; an open library whose
   * key is unchanged is up to date; anything else goes through `Reload`.
   * Never `InternalError`, and a library is returned unless the status is
   * `Fail`.
   */
  function Load(m: Manager, env: Env, name: string): (r: (Manager, ReloadResult))
    requires Valid(m)
    ensures Valid(r.0)
    ensures r.0.baseDir == m.baseDir && r.0.startUs == m.startUs
    ensures r.1.status != InternalError
    ensures r.1.lib.Some? <==> r.1.status != Fail
    ensures env.stat(OrigFullName(m.baseDir, name)).None? ==> r == (m, ReloadResult(Fail, None))
    ensures r.1.status == UpToDate <==>
              && env.stat(OrigFullName(m.baseDir, name)).Some?
              && EntryOf(m, name).inst.Some?
              && EntryOf(m, name).key == env.stat(OrigFullName(m.baseDir, name)).value
    ensures r.1.status == UpToDate ==> r.0 == m && r.1.lib == Some(EntryOf(m, name).inst.value.gen)
    ensures r.1.status == Reloaded ==> EntryOf(m, name).inst.Some? && r.1.lib.value == m.nextGen
    ensures r.1.status == Loaded ==> EntryOf(m, name).inst.None? && r.1.lib.value == m.nextGen
    ensures r.1.lib.Some? ==> EntryOf(r.0, name).inst.Some? && EntryOf(r.0, name).inst.value.gen == r.1.lib.value
    ensures forall x :: x != name ==> Ordered.Find(r.0.loaded, x) == Ordered.Find(m.loaded, x)
    ensures m.hooks <= r.0.hooks
  {
    match env.stat(OrigFullName(m.baseDir, name))
    case None => (m, ReloadResult(Fail, None))
    case Some(key) =>
      var e := EntryOf(m, name);
      if e.key == key && e.inst.Some? then (m, ReloadResult(UpToDate, Some(e.inst.value.gen)))
      else Reload(m, env, name, key)
  }

  /** Loading again with the file unchanged is up to date and hands back the same library. */
  lemma LoadAgainIsUpToDate(m: Manager, env: Env, name: string)
    requires Valid(m)
    requires Load(m, env, name).1.status != Fail
    ensures var (m1, r1) := Load(m, env, name);
            Load(m1, env, name) == (m1, ReloadResult(UpToDate, r1.lib))
  {
  }

  /**
   * A version whose symlink was made but which did not open keeps failing
   * while the file is unchanged: the symlink already exists.
   */
  lemma FailedOpenIsSticky(m: Manager, env: Env, name: string)
    requires Valid(m)
    requires env.stat(OrigFullName(m.baseDir, name)).Some?
    requires var key := env.stat(OrigFullName(m.baseDir, name)).value;
             && EntryOf(m, name) == Entry(key, None)
             && LinkFullName(m.baseDir, m.startUs, name, key) in m.symlinks
    ensures Load(m, env, name).1 == ReloadResult(Fail, None)
    ensures Load(m, env, name).0.symlinks == m.symlinks
  {
  }

  /** Two numbers printed at the same place and followed by a non-digit read back as the same number. */
  lemma PrintedIntsAgree(pre: string, n1: int, n2: int, rest1: string, rest2: string)
    requires |rest1| == 0 || !IsDigit(rest1[0])
    requires |rest2| == 0 || !IsDigit(rest2[0])
    requires pre + IntToString(n1) + rest1 == pre + IntToString(n2) + rest2
    ensures n1 == n2 && rest1 == rest2
  {
    ScanIntToString(pre, n1, rest1);
    ScanIntToString(pre, n2, rest2);
    var s := pre + IntToString(n1) + rest1;
    assert rest1 == s[|pre| + |IntToString(n1)|..];
    assert rest2 == s[|pre| + |IntToString(n2)|..];
  }

  lemma Regroup(p: string, a: string, b: string, c: string, r: string)
    ensures p + "_" + a + "_" + b + "_" + c + r == (p + "_") + a + ("_" + b + "_" + c + r)
    ensures "_" + b + "_" + c + r == "_" + b + ("_" + c + r)
  {
  }

  /** Distinct stat keys give distinct `LibkeyToString`s: the fields are decimal numbers between `_`s. */
  lemma LibkeyToStringInjective(startUs: string, k1: StatKey, k2: StatKey, rest1: string, rest2: string)
    requires |rest1| == 0 || !IsDigit(rest1[0])
    requires |rest2| == 0 || !IsDigit(rest2[0])
    requires LibkeyToString(startUs, k1) + rest1 == LibkeyToString(startUs, k2) + rest2
    ensures k1 == k2 && rest1 == rest2
  {
    var a1, b1, c1 := IntToString(k1.ino), IntToString(k1.sec), IntToString(k1.nsec);
    var a2, b2, c2 := IntToString(k2.ino), IntToString(k2.sec), IntToString(k2.nsec);
    Regroup(startUs, a1, b1, c1, rest1);
    Regroup(startUs, a2, b2, c2, rest2);
    PrintedIntsAgree(startUs + "_", k1.ino, k2.ino, "_" + b1 + "_" + c1 + rest1, "_" + b2 + "_" + c2 + rest2);
    PrintedIntsAgree("_", k1.sec, k2.sec, "_" + c1 + rest1, "_" + c2 + rest2);
    PrintedIntsAgree("_", k1.nsec, k2.nsec, rest1, rest2);
  }

  /**
   * The symlink trick: a library file with a new stat key is opened through
   * a symlink no earlier version of the same library used.
   */
  lemma LinkNamesDistinct(baseDir: string, startUs: string, name: string, k1: StatKey, k2: StatKey)
    requires k1 != k2
    ensures LinkFullName(baseDir, startUs, name, k1) != LinkFullName(baseDir, startUs, name, k2)
  {
    var pre := baseDir + "/" + LibPrefix + name + "_";
    var s1 := LibkeyToString(startUs, k1) + DotSO;
    var s2 := LibkeyToString(startUs, k2) + DotSO;
    assert LinkFullName(baseDir, startUs, name, k1) == pre + s1;
    assert LinkFullName(baseDir, startUs, name, k2) == pre + s2;
    if pre + s1 == pre + s2 {
      assert s1 == (pre + s1)[|pre|..] == (pre + s2)[|pre|..] == s2;
      LibkeyToStringInjective(startUs, k1, k2, DotSO, DotSO);
    }
  }

  /**
   * `UseDLib`: load or reload, then call the success callback with the
   * library (true) or the failure callback (false). The result is the
   * library handed to the success callback, if any.
   */
  function UseDLib(m: Manager, env: Env, name: string): (r: (Manager, Option<nat>))
    requires Valid(m)
    ensures Valid(r.0) && r.0 == Load(m, env, name).0
    ensures r.1.Some? <==> Load(m, env, name).1.status != Fail
    ensures r.1 == Load(m, env, name).1.lib
  {
    var (m1, res) := Load(m, env, name);
    (m1, res.lib)
  }

  /**
   * `DoLoadOrReloadDLib` (`C5T_DLIB_RELOAD`): the load, under the lock, ahead
   * of any use. Unless it failed, the next `UseDLib` with the file unchanged
   * hands the same library to its callback and changes nothing.
   */
  function DoLoadOrReload(m: Manager, env: Env, name: string): (r: (Manager, ReloadResult))
    requires Valid(m)
    ensures Valid(r.0) && r.1.status != InternalError
    ensures r.1.lib.Some? <==> r.1.status != Fail
    ensures r.1.status != Fail ==> UseDLib(r.0, env, name) == (r.0, r.1.lib)
  {
    var r := Load(m, env, name);
    assert r.1.status != Fail ==> UseDLib(r.0, env, name) == (r.0, r.1.lib) by {
      if r.1.status != Fail {
        LoadAgainIsUpToDate(m, env, name);
      }
    }
    r
  }

  /** `ListDLibs`: every name ever successfully `stat`-ed, in increasing order. */
  function ListDLibs(m: Manager): (names: seq<string>)
    requires Valid(m)
    ensures forall i, j :: 0 <= i < j < |names| ==> Ordered.StrLess(names[i], names[j])
    ensures forall x :: x in names <==> Ordered.HasKey(m.loaded, x)
  {
    var ks := Ordered.Keys(m.loaded);
    assert forall x :: x in ks <==> Ordered.HasKey(m.loaded, x) by {
      forall x ensures x in ks <==> Ordered.HasKey(m.loaded, x) {
        if x in ks {
          var i :| 0 <= i < |ks| && ks[i] == x;
          assert m.loaded[i].0 == x;
        }
      }
    }
    ks
  }

  /** A load lists the library exactly when its file could be `stat`-ed; other names stay as they were. */
  lemma LoadListsName(m: Manager, env: Env, name: string)
    requires Valid(m)
    ensures name in ListDLibs(Load(m, env, name).0) <==>
              name in ListDLibs(m) || env.stat(OrigFullName(m.baseDir, name)).Some?
    ensures forall x :: x != name ==> (x in ListDLibs(Load(m, env, name).0) <==> x in ListDLibs(m))
  {
  }

  /**
   * `C5T_DLIB_CALL` returning a value: `f` applied to the library when it
   * is available, `g()` otherwise.
   */
  function DLibCall<T>(m: Manager, env: Env, name: string, f: nat -> T, g: () -> T): (r: (Manager, T))
    requires Valid(m)
    ensures r.0 == Load(m, env, name).0
    ensures Load(m, env, name).1.status == Fail ==> r.1 == g()
    ensures Load(m, env, name).1.status != Fail ==> r.1 == f(Load(m, env, name).1.lib.value)
  {
    var (m1, lib) := UseDLib(m, env, name);
    (m1, if lib.Some? then f(lib.value) else g())
  }

  /** Why a `C5T_DLIB_*` call cannot proceed. */
  datatype Abort = NotInitialized

  /** `C5T_DLibs_Manager_Instance`: the installed manager, or an abort when none was installed. */
  function ManagerInstance(installed: Option<Manager>): (r: Result<Manager, Abort>)
    ensures r.Ok? <==> installed.Some?
    ensures r.Ok? ==> r.value == installed.value
  {
    if installed.Some? then Ok(installed.value) else Err(NotInitialized)
  }

  /** `C5T_DLIB_USE_PROVIDED_INSTANCE_AND_SET_BASE_DIR`: installs the manager with the given base directory. */
  function InstallWithBaseDir(m: Manager, dir: string): (installed: Option<Manager>)
    ensures installed.Some? && installed.value.baseDir == dir
    ensures installed.value.loaded == m.loaded && installed.value.symlinks == m.symlinks
  {
    Some(SetBaseDir(m, dir))
  }

  /** Once installed, the subsystem no longer aborts. */
  lemma InstalledDoesNotAbort(m: Manager, dir: string)
    ensures ManagerInstance(InstallWithBaseDir(m, dir)).Ok?
  {
  }

  /** The hooks of destroying the table: one per entry still open whose library exports `OnUnload`, in no promised order. */
  function UnloadAll(loaded: seq<(string, Entry)>): (hs: seq<Hook>)
    ensures |hs| <= |loaded|
    ensures forall h :: h in hs ==> h.symbol == "OnUnload"
  {
    if |loaded| == 0 then []
    else UnloadHooks(loaded[0].1.inst) + UnloadAll(loaded[1..])
  }

  /** The library of an entry, when one is open and exports `OnUnload`. */
  predicate HasOnUnload(e: Entry) {
    e.inst.Some? && Resolve(e.inst.value.table, "OnUnload").Some?
  }

  /** Every open library whose memo agrees with it unloads with exactly its own `OnUnload`, if it exports one. */
  lemma {:induction false} UnloadAllHooks(loaded: seq<(string, Entry)>)
    requires forall p :: p in loaded ==> p.1.inst.Some? ==> MemoFaithful(p.1.inst.value.lib, p.1.inst.value.table)
    ensures forall h :: h in UnloadAll(loaded) <==>
              exists p :: p in loaded && HasOnUnload(p.1) && h == Hook(p.1.inst.value.gen, "OnUnload")
    decreases |loaded|
  {
    if |loaded| > 0 {
      UnloadAllHooks(loaded[1..]);
      var first := UnloadHooks(loaded[0].1.inst);
      forall h ensures h in UnloadAll(loaded) <==>
                 exists p :: p in loaded && HasOnUnload(p.1) && h == Hook(p.1.inst.value.gen, "OnUnload") {
        if h in first {
          assert loaded[0] in loaded;
        } else if h in UnloadAll(loaded[1..]) {
          var p :| p in loaded[1..] && HasOnUnload(p.1) && h == Hook(p.1.inst.value.gen, "OnUnload");
          assert p in loaded;
        }
      }
    }
  }

  /**
   * Destroying the manager removes every symlink it made, then every
   * library still open is unloaded through its own mapping: the hooks are
   * exactly the `OnUnload` of each open library that exports one.
   */
  function Destroy(m: Manager): (r: (seq<string>, seq<Hook>))
    requires Valid(m)
    ensures r.0 == m.symlinks
    ensures |r.1| <= |m.loaded|
    ensures forall h :: h in r.1 <==>
              exists p :: p in m.loaded && HasOnUnload(p.1) && h == Hook(p.1.inst.value.gen, "OnUnload")
  {
    assert forall p :: p in m.loaded ==> Accounted(p.1, m.nextGen, m.symlinks);
    UnloadAllHooks(m.loaded);
    (m.symlinks, UnloadAll(m.loaded))
  }
}
