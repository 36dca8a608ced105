/**
 * `C5T_DLib` and `IDLib` of `lib_c5t_dlib.{h,cc}`: symbol lookup in a loaded
 * library with memoisation (including of absent symbols), the call helpers
 * built on it, and the interface-query helpers. `dlsym` is an oracle fixed
 * for the library's lifetime; calling a found function is an oracle too.
 */
module DLibSymbols {
  import opened Wrappers

  /** A non-null function address. */
  type Addr = x: nat | x > 0 witness 1

  /** What one `dlsym` does: find the symbol, return null, or throw `DLSymException`. */
  datatype Lookup = Address(addr: Addr) | Null | DLSymError

  /** The library's symbol table, as `dlsym` would consult it. */
  type SymbolTable = string -> Lookup

  /** A `symbols` slot: `{ptr, not_present}`, both unset until the first lookup. */
  datatype Slot = Slot(ptr: Option<Addr>, notPresent: bool)

  /** A loaded library: its memo and every name actually passed to `dlsym`. */
  datatype Lib = Lib(symbols: map<string, Slot>, lookups: seq<string>)

  const NoSymbols: Lib := Lib(map[], [])

  function SlotOf(lib: Lib, name: string): Slot {
    if name in lib.symbols then lib.symbols[name] else Slot(None, false)
  }

  /** The address a table holds for a name, or null. */
  function Resolve(table: SymbolTable, name: string): Option<Addr> {
    if table(name).Address? then Some(table(name).addr) else None
  }

  datatype Raw = Raw(lib: Lib, pf: Option<Addr>)

  /**
   * `GetRawPF`: a found address is served from the memo; a name once found
   * absent (null or exception) is answered null without another lookup;
   * otherwise `dlsym` is asked once and the answer memoised.
   */
  function GetRawPF(lib: Lib, table: SymbolTable, name: string): (r: Raw)
    ensures var p := SlotOf(lib, name);
            && (p.ptr.Some? ==> r == Raw(lib, p.ptr))
            && (p.ptr.None? && p.notPresent ==> r.pf == None && r.lib.lookups == lib.lookups)
            && (p.ptr.None? && !p.notPresent ==> r.lib.lookups == lib.lookups + [name] && r.pf == Resolve(table, name))
    ensures SlotOf(r.lib, name).ptr.Some? || SlotOf(r.lib, name).notPresent
    ensures forall n :: n != name ==> SlotOf(r.lib, n) == SlotOf(lib, n)
  {
    var p := SlotOf(lib, name);
    var lib1 := lib.(symbols := lib.symbols[name := p]);
    if p.ptr.Some? then Raw(lib, p.ptr)
    else if p.notPresent then Raw(lib1, None)
    else
      var lib2 := lib1.(lookups := lib.lookups + [name]);
      match table(name)
      case Address(a) => Raw(lib2.(symbols := lib.symbols[name := p.(ptr := Some(a))]), Some(a))
      case Null => Raw(lib2.(symbols := lib.symbols[name := p.(notPresent := true)]), None)
      case DLSymError => Raw(lib2.(symbols := lib.symbols[name := p.(notPresent := true)]), None)
  }

  /** The memo agrees with the table: found slots hold the table's address, absent slots what the table lacks. */
  predicate MemoFaithful(lib: Lib, table: SymbolTable) {
    forall n :: n in lib.symbols ==>
      && (lib.symbols[n].ptr.Some? ==> Resolve(table, n) == lib.symbols[n].ptr)
      && (lib.symbols[n].ptr.None? && lib.symbols[n].notPresent ==> Resolve(table, n).None?)
  }

  /** Through a faithful memo, every lookup answers what `dlsym` would, and the memo stays faithful. */
  lemma GetRawPFAnswersTable(lib: Lib, table: SymbolTable, name: string)
    requires MemoFaithful(lib, table)
    ensures GetRawPF(lib, table, name).pf == Resolve(table, name)
    ensures MemoFaithful(GetRawPF(lib, table, name).lib, table)
  {
  }

  /** A name is passed to `dlsym` at most once, whether it was found or not. */
  lemma LookedUpAtMostOnce(lib: Lib, table: SymbolTable, name: string)
    ensures var r1 := GetRawPF(lib, table, name);
            var r2 := GetRawPF(r1.lib, table, name);
            r2.lib.lookups == r1.lib.lookups && r2.pf == r1.pf
  {
  }

  /**
   * Every name passed to `dlsym` is settled in the memo (found or absent),
   * and none was passed twice.
   */
  predicate Memoised(lib: Lib) {
    && (forall i :: 0 <= i < |lib.lookups| ==> SlotOf(lib, lib.lookups[i]).ptr.Some? || SlotOf(lib, lib.lookups[i]).notPresent)
    && (forall i, j :: 0 <= i < j < |lib.lookups| ==> lib.lookups[i] != lib.lookups[j])
  }

  /** A lookup passes the name to `dlsym` only when it is not yet settled, and then settles it. */
  lemma GetRawPFKeepsMemoised(lib: Lib, table: SymbolTable, name: string)
    requires Memoised(lib)
    ensures Memoised(GetRawPF(lib, table, name).lib)
  {
    var r := GetRawPF(lib, table, name).lib;
    if r.lookups != lib.lookups {
      assert name !in lib.lookups;
    }
  }

  /** `GetRawPF` for each name in turn, with every answer. */
  function LookUpAll(lib: Lib, table: SymbolTable, names: seq<string>): (r: (Lib, seq<Option<Addr>>))
    ensures |r.1| == |names|
    decreases |names|
  {
    if |names| == 0 then (lib, [])
    else
      var g := GetRawPF(lib, table, names[0]);
      var rest := LookUpAll(g.lib, table, names[1..]);
      (rest.0, [g.pf] + rest.1)
  }

  /**
   * Over the library's whole life, starting from an empty memo or any
   * faithful one: every lookup answers what `dlsym` would, and no name is
   * passed to `dlsym` twice.
   */
  lemma {:induction false} LookUpAllAnswersTable(lib: Lib, table: SymbolTable, names: seq<string>)
    requires MemoFaithful(lib, table) && Memoised(lib)
    ensures var r := LookUpAll(lib, table, names);
            && (forall i :: 0 <= i < |names| ==> r.1[i] == Resolve(table, names[i]))
            && MemoFaithful(r.0, table) && Memoised(r.0)
    decreases |names|
  {
    if |names| > 0 {
      var g := GetRawPF(lib, table, names[0]);
      GetRawPFAnswersTable(lib, table, names[0]);
      GetRawPFKeepsMemoised(lib, table, names[0]);
      LookUpAllAnswersTable(g.lib, table, names[1..]);
      var r := LookUpAll(lib, table, names);
      forall i | 0 <= i < |names| ensures r.1[i] == Resolve(table, names[i]) {
        if i > 0 {
          assert r.1[i] == LookUpAll(g.lib, table, names[1..]).1[i - 1];
          assert names[1..][i - 1] == names[i];
        }
      }
    }
  }

  /** A fresh library's empty memo agrees with any table. */
  lemma NoSymbolsFaithful(table: SymbolTable)
    ensures MemoFaithful(NoSymbols, table) && Memoised(NoSymbols)
  {
  }

  /** `Has`: whether the library has the function. */
  function Has(lib: Lib, table: SymbolTable, name: string): (r: (Lib, bool))
    ensures MemoFaithful(lib, table) ==> (r.1 <==> Resolve(table, name).Some?) && MemoFaithful(r.0, table)
    ensures r.0.lookups == lib.lookups || r.0.lookups == lib.lookups + [name]
  {
    var g := GetRawPF(lib, table, name);
    (g.lib, g.pf.Some?)
  }

  /**
   * `CallOrDefault` for a function returning a value: the call's result, or
   * `zero` (the value-initialised `T_RETVAL()`) when the library lacks it.
   */
  function CallOrDefault<T>(lib: Lib, table: SymbolTable, name: string, invoke: Addr -> T, zero: T): (r: (Lib, T))
    ensures MemoFaithful(lib, table) ==>
              && (Resolve(table, name).None? ==> r.1 == zero)
              && (Resolve(table, name).Some? ==> r.1 == invoke(Resolve(table, name).value))
              && MemoFaithful(r.0, table)
    ensures r.0.lookups == lib.lookups || r.0.lookups == lib.lookups + [name]
  {
    var g := GetRawPF(lib, table, name);
    (g.lib, if g.pf.Some? then invoke(g.pf.value) else zero)
  }

  /** The `void` `CallOrDefault`: the address called, if the library has the function; nothing happens otherwise. */
  function CallOrDefaultVoid(lib: Lib, table: SymbolTable, name: string): (r: (Lib, Option<Addr>))
    ensures MemoFaithful(lib, table) ==> r.1 == Resolve(table, name) && MemoFaithful(r.0, table)
    ensures r.0.lookups == lib.lookups || r.0.lookups == lib.lookups + [name]
  {
    var g := GetRawPF(lib, table, name);
    (g.lib, g.pf)
  }

  /** `CallReturningOptional`: none exactly when the library lacks the function. */
  function CallReturningOptional<T>(lib: Lib, table: SymbolTable, name: string, invoke: Addr -> T): (r: (Lib, Option<T>))
    ensures MemoFaithful(lib, table) ==>
              && (r.1.None? <==> Resolve(table, name).None?)
              && (r.1.Some? ==> r.1.value == invoke(Resolve(table, name).value))
              && MemoFaithful(r.0, table)
    ensures r.0.lookups == lib.lookups || r.0.lookups == lib.lookups + [name]
  {
    var g := GetRawPF(lib, table, name);
    (g.lib, if g.pf.Some? then Some(invoke(g.pf.value)) else None)
  }

  /** `CallVoid`: the address called, if any, and whether a call happened. */
  function CallVoid(lib: Lib, table: SymbolTable, name: string): (r: (Lib, Option<Addr>, bool))
    ensures r.2 <==> r.1.Some?
    ensures MemoFaithful(lib, table) ==> r.1 == Resolve(table, name) && MemoFaithful(r.0, table)
    ensures r.0.lookups == lib.lookups || r.0.lookups == lib.lookups + [name]
  {
    var c := CallOrDefaultVoid(lib, table, name);
    (c.0, c.1, c.1.Some?)
  }

  /** The call helpers agree: `Has`, `CallVoid` and `CallReturningOptional` see the same symbol, and `CallOrDefault` falls back to `zero` exactly when they do not. */
  lemma CallHelpersAgree<T>(lib: Lib, table: SymbolTable, name: string, invoke: Addr -> T, zero: T)
    ensures Has(lib, table, name).1 == CallVoid(lib, table, name).2
    ensures Has(lib, table, name).1 <==> CallReturningOptional(lib, table, name, invoke).1.Some?
    ensures CallOrDefault(lib, table, name, invoke, zero).1 == CallReturningOptional(lib, table, name, invoke).1.GetOr(zero)
  {
  }

  /** A library without `NonExistent` yields `0` from `CallOrDefault<int()>("NonExistent")`. */
  lemma MissingIntSymbolIsZero(table: SymbolTable, invoke: Addr -> int)
    requires !table("NonExistent").Address?
    ensures CallOrDefault(NoSymbols, table, "NonExistent", invoke, 0).1 == 0
  {
  }

  /** An object passed across the library boundary, by the interfaces it implements. */
  datatype Object = Object(interfaces: set<string>)

  /** `IDLib::Use<I>` with a value-returning `f`: `f`'s result when the object implements `I`, else none. */
  function Use<R>(o: Object, iface: string, f: () -> R): (r: Option<R>)
    ensures r.Some? <==> iface in o.interfaces
    ensures r.Some? ==> r.value == f()
  {
    if iface in o.interfaces then Some(f()) else None
  }

  /** `IDLib::Use<I>` with a `void` `f`: whether `f` was invoked. */
  function UseVoid(o: Object, iface: string): (invoked: bool)
    ensures invoked <==> iface in o.interfaces
  {
    iface in o.interfaces
  }

  /** `IDLib::UseOrDefault<I>`: `f` when the object implements `I`, else `g`. */
  function UseOrDefault<R>(o: Object, iface: string, f: () -> R, g: () -> R): (r: R)
    ensures iface in o.interfaces ==> r == f()
    ensures iface !in o.interfaces ==> r == g()
  {
    if iface in o.interfaces then f() else g()
  }

  /** `UseOrDefault` is `Use` with the fallback filled in. */
  lemma UseOrDefaultIsUse<R>(o: Object, iface: string, f: () -> R, g: () -> R)
    ensures UseOrDefault(o, iface, f, g) == Use(o, iface, f).GetOr(g())
  {
  }
}
