/**
 * The lifetime manager's registry of tracked instances: what each entry
 * records (`LifetimeTrackedInstance`), how it is printed, and how ids are
 * handed out and retired (`TrackingAdd` / `TrackingRemove`).
 */
module LifetimeTracking {
  import opened Wrappers
  import opened Words
  import opened CText
  import Decimal
  import Ordered

  /** `current::FileSystem::GetPathSeparator()` on the POSIX targets. */
  const Separator: char := '/'

  /**
   * The scan of `LifetimeTrackedInstanceBaseName`: `p` walks the C string
   * while both `p[0]` and `p[1]` are non-NUL, and `r` is one past the last
   * separator seen so far.
   */
  function BaseNameStart(c: string, p: nat, r: nat): (k: nat)
    requires p <= |c| && r <= p
    requires r == 0 || (r < |c| && c[r - 1] == Separator)
    requires forall q :: r <= q < p && q + 1 < |c| ==> c[q] != Separator
    ensures k <= |c|
    ensures k == 0 || (k < |c| && c[k - 1] == Separator)
    ensures forall q :: k <= q < |c| - 1 ==> c[q] != Separator
    decreases |c| - p
  {
    if p + 1 < |c| then BaseNameStart(c, p + 1, if c[p] == Separator then p + 1 else r) else r
  }

  /**
   * The part of the file name after the last separator, where a separator in
   * the final position never counts: "a/b/" gives "b/" and "/" gives "/".
   */
  function BaseName(file: string): (b: string)
    ensures |b| <= |CStr(file)| && b == CStr(file)[|CStr(file)| - |b|..]
    ensures |b| == |CStr(file)| || CStr(file)[|CStr(file)| - |b| - 1] == Separator
    ensures |b| < |CStr(file)| ==> |b| > 0
    ensures forall q :: 0 <= q < |b| - 1 ==> b[q] != Separator
  {
    var c := CStr(file);
    var k := BaseNameStart(c, 0, 0);
    assert forall q :: 0 <= q < |c[k..]| - 1 ==> c[k..][q] == c[k + q];
    c[k..]
  }

  lemma BaseNameKeepsTrailingSeparator()
    ensures BaseName("a/b/") == "b/"
    ensures BaseName("/") == "/"
  {
    CStrOfNoNul("a/b/");
    CStrOfNoNul("/");
    assert BaseNameStart("a/b/", 3, 2) == 2;
    assert BaseNameStart("a/b/", 2, 2) == 2;
    assert BaseNameStart("a/b/", 1, 0) == 2;
    assert BaseNameStart("a/b/", 0, 0) == 2;
    assert "a/b/"[2..] == "b/";
    assert BaseNameStart("/", 0, 0) == 0;
  }

  lemma BaseNameDropsDirectory()
    ensures BaseName("a/b") == "b"
    ensures BaseName("") == ""
  {
    CStrOfNoNul("a/b");
    assert BaseNameStart("a/b", 2, 2) == 2;
    assert BaseNameStart("a/b", 1, 0) == 2;
    assert BaseNameStart("a/b", 0, 0) == 2;
    assert "a/b"[2..] == "b";
  }

  /** One entry of the registry. `t_added` (a clock reading) is not modelled. */
  datatype TrackedInstance = TrackedInstance(
    description: string,
    fileFullname: string,
    fileBasename: string,
    line: U32)

  /** `LifetimeTrackedInstance(desc, file, line)` reached from `TrackingAdd`. */
  function MakeInstance(desc: string, file: string, line: nat): (t: TrackedInstance)
    ensures t.description == desc
    ensures t.fileFullname == CStr(file) && t.fileBasename == BaseName(file)
    ensures line < TWO_32 ==> t.line == line
  {
    TrackedInstance(desc, CStr(file), BaseName(file), TruncateTo32(line))
  }

  /**
   * `ToShortString`: "description @ basename:line". The line number can be
   * read back with `%d` from the end of the text.
   */
  function ToShortString(t: TrackedInstance): (s: string)
    ensures |s| == |t.description| + 3 + |t.fileBasename| + 1 + |Decimal.IntToString(t.line)|
    ensures s[..|t.description|] == t.description
    ensures s[|t.description|..|t.description| + 3] == " @ "
    ensures s[|t.description| + 3..|t.description| + 3 + |t.fileBasename|] == t.fileBasename
    ensures s[|s| - |Decimal.IntToString(t.line)| - 1] == ':'
    ensures Decimal.ScanInt(s, |s| - |Decimal.IntToString(t.line)|) == Decimal.Converted(t.line, |s|)
  {
    var head := t.description + " @ " + t.fileBasename + ":";
    var digits := Decimal.IntToString(t.line);
    Decimal.ScanIntToString(head, t.line, "");
    assert head + digits + "" == head + digits;
    head + digits
  }

  function Less64(a: U64, b: U64): bool {
    a < b
  }

  lemma Less64IsStrictTotalOrder()
    ensures Ordered.IsStrictTotalOrder(Less64)
  {
  }

  /**
   * `TrackedInstances`: the next id to hand out and the live entries, as a
   * `std::map` iterated by ascending id.
   */
  datatype Tracking = Tracking(nextIdDesc: U64, stillAlive: seq<(U64, TrackedInstance)>)

  const InitialTracking: Tracking := Tracking(0, [])

  predicate Valid(trk: Tracking) {
    Ordered.Sorted(trk.stillAlive, Less64)
  }

  predicate IsAlive(trk: Tracking, id: U64) {
    Ordered.HasKey(trk.stillAlive, id)
  }

  datatype Added = Added(tracking: Tracking, id: U64)

  /**
   * `TrackingAdd` as written: the id is `next_id_desc` before the
   * post-decrement, so the first id is 0 and the next ones are 2^64-1,
   * 2^64-2, ... The entry is stored with `still_alive[id] = ...`.
   */
  function TrackingAdd(trk: Tracking, desc: string, file: string, line: nat): (r: Added)
    requires Valid(trk)
    ensures Valid(r.tracking)
    ensures r.id == trk.nextIdDesc
    ensures trk.nextIdDesc == 0 ==> r.tracking.nextIdDesc == MaxU64
    ensures trk.nextIdDesc > 0 ==> r.tracking.nextIdDesc == trk.nextIdDesc - 1
    ensures Ordered.Find(r.tracking.stillAlive, r.id) == Some(MakeInstance(desc, file, line))
    ensures forall x :: x != r.id ==> Ordered.Find(r.tracking.stillAlive, x) == Ordered.Find(trk.stillAlive, x)
  {
    Less64IsStrictTotalOrder();
    var id := trk.nextIdDesc;
    Added(Tracking(Dec64(id), Ordered.Put(trk.stillAlive, id, MakeInstance(desc, file, line), Less64)), id)
  }

  /**
   * `TrackingAdd` as its comment intends ("descending so that in the
   * naturally sorted order the more recent items come first"): decrement
   * first, so ids are 2^64-1, 2^64-2, ... and every new id sorts before the
   * older ones.
   */
  function TrackingAddNewestFirst(trk: Tracking, desc: string, file: string, line: nat): (r: Added)
    requires Valid(trk)
    ensures Valid(r.tracking)
    ensures trk.nextIdDesc == 0 ==> r.id == MaxU64
    ensures trk.nextIdDesc > 0 ==> r.id == trk.nextIdDesc - 1
    ensures r.tracking.nextIdDesc == r.id
    ensures Ordered.Find(r.tracking.stillAlive, r.id) == Some(MakeInstance(desc, file, line))
    ensures forall x :: x != r.id ==> Ordered.Find(r.tracking.stillAlive, x) == Ordered.Find(trk.stillAlive, x)
  {
    Less64IsStrictTotalOrder();
    var id := Dec64(trk.nextIdDesc);
    Added(Tracking(id, Ordered.Put(trk.stillAlive, id, MakeInstance(desc, file, line), Less64)), id)
  }

  /** `TrackingRemove(id)`: `still_alive.erase(id)`; an unknown id changes nothing. */
  function TrackingRemove(trk: Tracking, id: U64): (r: Tracking)
    requires Valid(trk)
    ensures Valid(r)
    ensures !IsAlive(r, id)
    ensures forall x :: x != id ==> Ordered.Find(r.stillAlive, x) == Ordered.Find(trk.stillAlive, x)
    ensures r.nextIdDesc == trk.nextIdDesc
    ensures !IsAlive(trk, id) ==> r == trk
  {
    Ordered.EraseSorted(trk.stillAlive, id, Less64);
    Tracking(trk.nextIdDesc, Ordered.Erase(trk.stillAlive, id))
  }

  // ---------------------------------------------------------------------
  // Ids handed out by the code as written.

  /**
   * What holds of every registry the as-written code reaches before 2^64
   * ids have been issued: live ids are 0 or above `next_id_desc`, and
   * nothing is live while `next_id_desc` is still 0.
   */
  predicate AsWrittenIdsBehind(trk: Tracking) {
    && (trk.nextIdDesc == 0 ==> |trk.stillAlive| == 0)
    && forall i :: 0 <= i < |trk.stillAlive| ==>
         trk.stillAlive[i].0 == 0 || trk.stillAlive[i].0 > trk.nextIdDesc
  }

  /**
   * The id `TrackingAdd` returns is not live, so the registry grows by one
   * entry, and the invariant survives (until `next_id_desc` would reach 0
   * again, after 2^64 ids).
   */
  lemma TrackingAddFresh(trk: Tracking, desc: string, file: string, line: nat)
    requires Valid(trk) && AsWrittenIdsBehind(trk) && trk.nextIdDesc != 1
    ensures !IsAlive(trk, TrackingAdd(trk, desc, file, line).id)
    ensures |TrackingAdd(trk, desc, file, line).tracking.stillAlive| == |trk.stillAlive| + 1
    ensures AsWrittenIdsBehind(TrackingAdd(trk, desc, file, line).tracking)
  {
    var r := TrackingAdd(trk, desc, file, line);
    assert !IsAlive(trk, r.id) by {
      forall i | 0 <= i < |trk.stillAlive| ensures trk.stillAlive[i].0 != r.id {
      }
    }
    Less64IsStrictTotalOrder();
    var m := r.tracking.stillAlive;
    forall i | 0 <= i < |m| ensures m[i].0 == 0 || m[i].0 > r.tracking.nextIdDesc {
      if m[i].0 != r.id {
        assert (m[i].0, m[i].1) in trk.stillAlive;
      }
    }
  }

  lemma TrackingRemoveKeepsIdsBehind(trk: Tracking, id: U64)
    requires Valid(trk) && AsWrittenIdsBehind(trk)
    ensures AsWrittenIdsBehind(TrackingRemove(trk, id))
  {
    var r := TrackingRemove(trk, id);
    forall i | 0 <= i < |r.stillAlive| ensures r.stillAlive[i].0 == 0 || r.stillAlive[i].0 > r.nextIdDesc {
      assert r.stillAlive[i] in trk.stillAlive;
    }
  }

  /** The ids returned by successive as-written `TrackingAdd` calls. */
  function IssuedIds(next: U64, n: nat): (ids: seq<U64>)
    ensures |ids| == n
    decreases n
  {
    if n == 0 then [] else [next] + IssuedIds(Dec64(next), n - 1)
  }

  /** The j-th id is `next - j` modulo 2^64. */
  lemma {:induction false} IssuedIdsFormula(next: U64, n: nat)
    ensures forall j :: 0 <= j < n ==> IssuedIds(next, n)[j] == (next - j) % TWO_64
    decreases n
  {
    if n > 0 {
      IssuedIdsFormula(Dec64(next), n - 1);
      var ids := IssuedIds(next, n);
      forall j | 1 <= j < n ensures ids[j] == (next - j) % TWO_64 {
        assert ids[j] == IssuedIds(Dec64(next), n - 1)[j - 1];
        assert Dec64(next) == (next - 1) % TWO_64;
      }
    }
  }

  /** Up to 2^64 successive ids are pairwise distinct: 0, 2^64-1, 2^64-2, ... */
  lemma IssuedIdsDistinct(n: nat)
    requires n <= TWO_64
    ensures forall i, j :: 0 <= i < j < n ==> IssuedIds(0, n)[i] != IssuedIds(0, n)[j]
    ensures n > 0 ==> IssuedIds(0, n)[0] == 0
    ensures forall j :: 0 < j < n ==> IssuedIds(0, n)[j] == TWO_64 - j
  {
    IssuedIdsFormula(0, n);
    var ids := IssuedIds(0, n);
    forall j | 0 < j < n ensures ids[j] == TWO_64 - j {
      assert (0 - j) % TWO_64 == TWO_64 - j;
    }
  }

  /**
   * The oldest entry is listed first: after two adds into the empty
   * registry, iteration (ascending ids) yields the first-added entry first,
   * against the stated intent that recent items come first.
   */
  lemma AsWrittenOldestFirst(a: TrackedInstance, b: TrackedInstance)
    ensures var r1 := TrackingAdd(InitialTracking, a.description, a.fileFullname, a.line);
            var r2 := TrackingAdd(r1.tracking, b.description, b.fileFullname, b.line);
            Ordered.Keys(r2.tracking.stillAlive) == [0, MaxU64]
            && r2.tracking.stillAlive[0].1 == MakeInstance(a.description, a.fileFullname, a.line)
  {
    var r1 := TrackingAdd(InitialTracking, a.description, a.fileFullname, a.line);
    var r2 := TrackingAdd(r1.tracking, b.description, b.fileFullname, b.line);
    assert r1.tracking.stillAlive == [(0, MakeInstance(a.description, a.fileFullname, a.line))];
    assert r2.tracking.stillAlive == [(0, MakeInstance(a.description, a.fileFullname, a.line)),
                                      (MaxU64, MakeInstance(b.description, b.fileFullname, b.line))];
  }

  // ---------------------------------------------------------------------
  // Ids handed out by the corrected, decrement-first code.

  /** Live ids are never below `next_id_desc`, which is 0 only while nothing is live. */
  predicate IdsAtOrAboveNext(trk: Tracking) {
    && (trk.nextIdDesc == 0 ==> |trk.stillAlive| == 0)
    && forall i :: 0 <= i < |trk.stillAlive| ==> trk.stillAlive[i].0 >= trk.nextIdDesc
  }

  /**
   * With the decrement-first scheme the newest entry always comes first in
   * iteration order, and the registry grows by exactly that entry.
   */
  lemma NewestFirst(trk: Tracking, desc: string, file: string, line: nat)
    requires Valid(trk) && IdsAtOrAboveNext(trk) && trk.nextIdDesc != 1
    ensures var r := TrackingAddNewestFirst(trk, desc, file, line);
            && r.tracking.stillAlive == [(r.id, MakeInstance(desc, file, line))] + trk.stillAlive
            && IdsAtOrAboveNext(r.tracking)
  {
    var r := TrackingAddNewestFirst(trk, desc, file, line);
    var e := (r.id, MakeInstance(desc, file, line));
    var want := [e] + trk.stillAlive;
    var got := r.tracking.stillAlive;
    Less64IsStrictTotalOrder();
    assert Ordered.Sorted(want, Less64);
    assert forall x :: Ordered.Find(want, x) == Ordered.Find(got, x) by {
      forall x ensures Ordered.Find(want, x) == Ordered.Find(got, x) {
        if x != r.id {
          assert Ordered.Find(want, x) == Ordered.Find(trk.stillAlive, x);
        }
      }
    }
    SortedSameFind(want, got);
  }

  /** A key found in a sorted list is not below its first key. */
  lemma {:induction false} FoundNotBelowHead(m: seq<(U64, TrackedInstance)>, x: U64)
    requires Ordered.Sorted(m, Less64) && Ordered.Find(m, x).Some?
    ensures |m| > 0 && m[0].0 <= x
    decreases |m|
  {
    if m[0].0 != x {
      FoundNotBelowHead(m[1..], x);
      assert Less64(m[0].0, m[1].0);
    }
  }

  /** Two sorted association lists that agree on every lookup are equal. */
  lemma {:induction false} SortedSameFind(a: seq<(U64, TrackedInstance)>, b: seq<(U64, TrackedInstance)>)
    requires Ordered.Sorted(a, Less64) && Ordered.Sorted(b, Less64)
    requires forall x :: Ordered.Find(a, x) == Ordered.Find(b, x)
    ensures a == b
    decreases |a| + |b|
  {
    Less64IsStrictTotalOrder();
    if |a| == 0 || |b| == 0 {
      assert |a| > 0 ==> Ordered.Find(b, a[0].0).Some?;
      assert |b| > 0 ==> Ordered.Find(a, b[0].0).Some?;
    } else {
      Ordered.FindSorted(a, Less64, 0);
      Ordered.FindSorted(b, Less64, 0);
      FoundNotBelowHead(a, b[0].0);
      FoundNotBelowHead(b, a[0].0);
      assert a[0] == b[0];
      forall x ensures Ordered.Find(a[1..], x) == Ordered.Find(b[1..], x) {
        if x == a[0].0 {
          assert Ordered.Find(a[1..], x).None? by {
            forall k | 0 <= k < |a[1..]| ensures a[1..][k].0 != x {
              assert a[0].0 < a[k + 1].0;
            }
          }
          assert Ordered.Find(b[1..], x).None? by {
            forall k | 0 <= k < |b[1..]| ensures b[1..][k].0 != x {
              assert b[0].0 < b[k + 1].0;
            }
          }
        } else {
          assert Ordered.Find(a, x) == Ordered.Find(a[1..], x);
          assert Ordered.Find(b, x) == Ordered.Find(b[1..], x);
        }
      }
      SortedSameFind(a[1..], b[1..]);
      assert a == [a[0]] + a[1..] && b == [b[0]] + b[1..];
    }
  }

  lemma TrackingRemoveKeepsIdsAtOrAboveNext(trk: Tracking, id: U64)
    requires Valid(trk) && IdsAtOrAboveNext(trk)
    ensures IdsAtOrAboveNext(TrackingRemove(trk, id))
  {
    var r := TrackingRemove(trk, id);
    forall i | 0 <= i < |r.stillAlive| ensures r.stillAlive[i].0 >= r.nextIdDesc {
      assert r.stillAlive[i] in trk.stillAlive;
    }
  }
}
