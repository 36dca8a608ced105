/**
 * Ordered associative containers (`std::map`, `std::set`) as association
 * lists kept strictly increasing by key under a strict total order `lt`.
 * Iteration order is observable in the source (offender logs, library and
 * field listings, the order connections are written to), so it is kept.
 */
module Ordered {
  import opened Wrappers

  ghost predicate IsStrictTotalOrder<K(!new)>(lt: (K, K) -> bool) {
    && (forall a :: !lt(a, a))
    && (forall a, b, c :: lt(a, b) && lt(b, c) ==> lt(a, c))
    && (forall a, b :: a != b ==> lt(a, b) || lt(b, a))
  }

  /** Keys strictly increase along the list: no key occurs twice. */
  predicate Sorted<K, V>(m: seq<(K, V)>, lt: (K, K) -> bool) {
    forall i, j :: 0 <= i < j < |m| ==> lt(m[i].0, m[j].0)
  }

  /** `m.find(k)`: the value stored under `k`, if any. */
  function Find<K(==), V>(m: seq<(K, V)>, k: K): (r: Option<V>)
    ensures r.Some? ==> exists i :: 0 <= i < |m| && m[i] == (k, r.value)
    ensures r.None? <==> forall i :: 0 <= i < |m| ==> m[i].0 != k
  {
    if |m| == 0 then None
    else if m[0].0 == k then Some(m[0].1)
    else
      var r := Find(m[1..], k);
      assert forall i :: 1 <= i < |m| ==> m[i] == m[1..][i - 1];
      r
  }

  predicate HasKey<K(==), V>(m: seq<(K, V)>, k: K) {
    Find(m, k).Some?
  }

  /** The keys in iteration order. */
  function Keys<K, V>(m: seq<(K, V)>): (ks: seq<K>)
    ensures |ks| == |m|
    ensures forall i :: 0 <= i < |m| ==> ks[i] == m[i].0
  {
    if |m| == 0 then [] else [m[0].0] + Keys(m[1..])
  }

  /** The values in iteration order. */
  function Values<K, V>(m: seq<(K, V)>): (vs: seq<V>)
    ensures |vs| == |m|
    ensures forall i :: 0 <= i < |m| ==> vs[i] == m[i].1
  {
    if |m| == 0 then [] else [m[0].1] + Values(m[1..])
  }

  /** In a sorted list the first entry with a key is the only one. */
  lemma {:induction false} FindSorted<K(!new), V>(m: seq<(K, V)>, lt: (K, K) -> bool, i: nat)
    requires IsStrictTotalOrder(lt) && Sorted(m, lt)
    requires i < |m|
    ensures Find(m, m[i].0) == Some(m[i].1)
    decreases i
  {
    if i > 0 {
      assert lt(m[0].0, m[i].0);
      assert m[1..][i - 1] == m[i];
      FindSorted(m[1..], lt, i - 1);
    }
  }

  /**
   * `m[k] = v` / `m.insert_or_assign(k, v)`: the list stays sorted, `k` now
   * maps to `v`, and every other key keeps its value.
   */
  function Put<K(==, !new), V>(m: seq<(K, V)>, k: K, v: V, lt: (K, K) -> bool): (r: seq<(K, V)>)
    requires IsStrictTotalOrder(lt) && Sorted(m, lt)
    ensures Sorted(r, lt)
    ensures Find(r, k) == Some(v)
    ensures forall x :: x != k ==> Find(r, x) == Find(m, x)
    ensures forall i :: 0 <= i < |r| ==> r[i].0 == k || (r[i].0, r[i].1) in m
    ensures |r| == if HasKey(m, k) then |m| else |m| + 1
    decreases |m|
  {
    if |m| == 0 then [(k, v)]
    else if m[0].0 == k then
      var r := [(k, v)] + m[1..];
      assert forall x :: x != k ==> Find(r, x) == Find(r[1..], x) == Find(m, x);
      r
    else if lt(k, m[0].0) then
      var r := [(k, v)] + m;
      assert forall x :: x != k ==> Find(r, x) == Find(r[1..], x);
      assert !HasKey(m, k) by {
        forall i | 0 <= i < |m| ensures m[i].0 != k {
          if i > 0 {
            assert lt(m[0].0, m[i].0);
          }
        }
      }
      r
    else
      var tail := Put(m[1..], k, v, lt);
      var r := [m[0]] + tail;
      assert lt(m[0].0, k);
      forall i | 0 <= i < |tail| ensures lt(m[0].0, tail[i].0) {
        if tail[i].0 != k {
          var j :| 0 <= j < |m[1..]| && m[1..][j] == tail[i];
          assert m[1..][j] == m[j + 1];
        }
      }
      assert r[1..] == tail;
      assert Find(m, k) == Find(m[1..], k);
      r
  }

  /**
   * `m.erase(k)`: the entry under `k` (if any) is removed and every other
   * entry stays, in the same order.
   */
  function Erase<K(==, !new), V>(m: seq<(K, V)>, k: K): (r: seq<(K, V)>)
    ensures Find(r, k) == None
    ensures forall x :: x != k ==> Find(r, x) == Find(m, x)
    ensures forall i :: 0 <= i < |r| ==> r[i] in m
    ensures |r| <= |m|
    ensures !HasKey(m, k) ==> r == m
    decreases |m|
  {
    if |m| == 0 then []
    else
      var tail := Erase(m[1..], k);
      if m[0].0 == k then
        assert forall x :: x != k ==> Find(m, x) == Find(m[1..], x);
        tail
      else
        var r := [m[0]] + tail;
        assert r[1..] == tail;
        r
  }

  /** Erasing keeps a sorted list sorted: what remains is a subsequence. */
  lemma {:induction false} EraseSorted<K(!new), V>(m: seq<(K, V)>, k: K, lt: (K, K) -> bool)
    requires Sorted(m, lt)
    ensures Sorted(Erase(m, k), lt)
    decreases |m|
  {
    if |m| > 0 {
      EraseSorted(m[1..], k, lt);
      var tail := Erase(m[1..], k);
      if m[0].0 != k {
        forall i | 0 <= i < |tail| ensures lt(m[0].0, tail[i].0) {
          assert tail[i] in m[1..];
          var j :| 0 <= j < |m[1..]| && m[1..][j] == tail[i];
          assert m[1..][j] == m[j + 1];
        }
      }
    }
  }

  /** In a sorted list, erasing a present key drops exactly one entry. */
  lemma {:induction false} EraseLength<K(!new), V>(m: seq<(K, V)>, k: K, lt: (K, K) -> bool)
    requires IsStrictTotalOrder(lt) && Sorted(m, lt)
    ensures |Erase(m, k)| == if HasKey(m, k) then |m| - 1 else |m|
    decreases |m|
  {
    if |m| > 0 {
      EraseLength(m[1..], k, lt);
      if m[0].0 == k {
        assert !HasKey(m[1..], k) by {
          forall i | 0 <= i < |m[1..]| ensures m[1..][i].0 != k {
            assert lt(m[0].0, m[i + 1].0);
          }
        }
      } else {
        assert Find(m, k) == Find(m[1..], k);
      }
    }
  }

  /** `std::set` membership-ordered insertion: a set is a map to unit values. */
  function SetInsert<K(==, !new)>(s: seq<K>, k: K, lt: (K, K) -> bool): (r: seq<K>)
    requires IsStrictTotalOrder(lt) && SortedSet(s, lt)
    ensures SortedSet(r, lt)
    ensures forall x :: x in r <==> x == k || x in s
    decreases |s|
  {
    if |s| == 0 then [k]
    else if s[0] == k then s
    else if lt(k, s[0]) then
      assert forall x :: x in s[1..] ==> x in s;
      [k] + s
    else
      var tail := SetInsert(s[1..], k, lt);
      assert forall x :: x in s <==> x == s[0] || x in s[1..];
      forall i | 0 <= i < |tail| ensures lt(s[0], tail[i]) {
        if tail[i] != k {
          assert tail[i] in tail;
          var j :| 0 <= j < |s[1..]| && s[1..][j] == tail[i];
          assert s[1..][j] == s[j + 1];
        }
      }
      [s[0]] + tail
  }

  predicate SortedSet<K>(s: seq<K>, lt: (K, K) -> bool) {
    forall i, j :: 0 <= i < j < |s| ==> lt(s[i], s[j])
  }

  /** The head of a sorted set is below every other member. */
  lemma FirstIsLeast<K(!new)>(s: seq<K>, lt: (K, K) -> bool)
    requires SortedSet(s, lt) && |s| > 0
    ensures forall x :: x in s ==> x == s[0] || lt(s[0], x)
  {
    forall x | x in s ensures x == s[0] || lt(s[0], x) {
      var i :| 0 <= i < |s| && s[i] == x;
    }
  }

  /** Two sorted sets with the same members are the same list: iteration order is determined by the members. */
  lemma {:induction false} SortedSetsWithSameMembers<K(!new)>(a: seq<K>, b: seq<K>, lt: (K, K) -> bool)
    requires IsStrictTotalOrder(lt)
    requires SortedSet(a, lt) && SortedSet(b, lt)
    requires forall x :: x in a <==> x in b
    ensures a == b
    decreases |a|
  {
    if |a| > 0 {
      assert a[0] in a;
    }
    if |b| > 0 {
      assert b[0] in b;
    }
    if |a| > 0 && |b| > 0 {
      assert a[0] in b && b[0] in a;
      FirstIsLeast(a, lt);
      FirstIsLeast(b, lt);
      assert a[0] == b[0];
      assert a == [a[0]] + a[1..] && b == [b[0]] + b[1..];
      forall x ensures x in a[1..] <==> x in b[1..] {
        if x in a[1..] {
          var i :| 0 <= i < |a[1..]| && a[1..][i] == x;
          assert lt(a[0], a[i + 1]);
          assert x in b && x != b[0];
          assert x in b[1..];
        }
        if x in b[1..] {
          var i :| 0 <= i < |b[1..]| && b[1..][i] == x;
          assert lt(b[0], b[i + 1]);
          assert x in a && x != a[0];
          assert x in a[1..];
        }
      }
      SortedSetsWithSameMembers(a[1..], b[1..], lt);
    }
  }

  /** `std::set::erase`: `k` is gone, nothing else changes, order is kept. */
  function SetRemove<K(==, !new)>(s: seq<K>, k: K, lt: (K, K) -> bool): (r: seq<K>)
    requires IsStrictTotalOrder(lt) && SortedSet(s, lt)
    ensures SortedSet(r, lt)
    ensures forall x :: x in r <==> x != k && x in s
    decreases |s|
  {
    if |s| == 0 then []
    else
      var tail := SetRemove(s[1..], k, lt);
      assert forall x :: x in s <==> x == s[0] || x in s[1..];
      if s[0] == k then
        assert k !in s[1..] by {
          forall i | 0 <= i < |s[1..]| ensures s[1..][i] != k {
            assert lt(s[0], s[i + 1]);
          }
        }
        tail
      else
        forall i | 0 <= i < |tail| ensures lt(s[0], tail[i]) {
          assert tail[i] in tail;
          var j :| 0 <= j < |s[1..]| && s[1..][j] == tail[i];
          assert s[1..][j] == s[j + 1];
        }
        [s[0]] + tail
  }

  /** The usual order on integers. */
  function IntLess(a: int, b: int): bool {
    a < b
  }

  lemma IntLessIsStrictTotalOrder()
    ensures IsStrictTotalOrder(IntLess)
  {
  }

  /** `std::string::operator<`: lexicographic by character code. */
  function StrLess(a: string, b: string): bool
    decreases |a|
  {
    if |a| == 0 then |b| > 0
    else if |b| == 0 then false
    else if a[0] != b[0] then a[0] < b[0]
    else StrLess(a[1..], b[1..])
  }

  lemma {:induction false} StrLessIrreflexive(a: string)
    ensures !StrLess(a, a)
    decreases |a|
  {
    if |a| > 0 {
      StrLessIrreflexive(a[1..]);
    }
  }

  lemma {:induction false} StrLessTransitive(a: string, b: string, c: string)
    requires StrLess(a, b) && StrLess(b, c)
    ensures StrLess(a, c)
    decreases |a|
  {
    if |a| > 0 && |b| > 0 && |c| > 0 && a[0] == b[0] && b[0] == c[0] {
      StrLessTransitive(a[1..], b[1..], c[1..]);
    }
  }

  lemma {:induction false} StrLessTotal(a: string, b: string)
    requires a != b
    ensures StrLess(a, b) || StrLess(b, a)
    decreases |a|
  {
    if |a| > 0 && |b| > 0 && a[0] == b[0] {
      assert a == [a[0]] + a[1..] && b == [b[0]] + b[1..];
      StrLessTotal(a[1..], b[1..]);
    }
  }

  lemma StrLessIsStrictTotalOrder()
    ensures IsStrictTotalOrder(StrLess)
  {
    forall a ensures !StrLess(a, a) {
      StrLessIrreflexive(a);
    }
    forall a, b, c | StrLess(a, b) && StrLess(b, c) ensures StrLess(a, c) {
      StrLessTransitive(a, b, c);
    }
    forall a, b | a != b ensures StrLess(a, b) || StrLess(b, a) {
      StrLessTotal(a, b);
    }
  }
}
