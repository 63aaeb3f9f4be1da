/**
 * A stable sort by a key, the behaviour of Python's `sorted(xs, key=...)`
 * when the keys are totally ordered. It is written as an insertion sort;
 * what it promises is stated in terms of the order, the multiset of
 * elements and, for stability, the subsequence of elements that share a key.
 */
module Sorting {

  /** `le` is a total order on keys: total, antisymmetric and transitive. */
  ghost predicate TotalOrder<K(!new)>(le: (K, K) -> bool)
  {
    && (forall a, b :: le(a, b) || le(b, a))
    && (forall a, b :: le(a, b) && le(b, a) ==> a == b)
    && (forall a, b, c :: le(a, b) && le(b, c) ==> le(a, c))
  }

  /** The keys of `s` never decrease. */
  ghost predicate SortedBy<T, K>(s: seq<T>, key: T -> K, le: (K, K) -> bool)
  {
    forall i, j :: 0 <= i < j < |s| ==> le(key(s[i]), key(s[j]))
  }

  /** The elements of `s` whose key is `k`, in their order in `s`. */
  function WithKey<T, K(==)>(s: seq<T>, key: T -> K, k: K): seq<T>
  {
    if s == [] then []
    else (if key(s[0]) == k then [s[0]] else []) + WithKey(s[1..], key, k)
  }

  /**
   * A stable sort keeps, for every key, the elements with that key in
   * the order they had before.
   */
  ghost predicate StableFor<T, K(!new)>(r: seq<T>, s: seq<T>, key: T -> K)
  {
    forall k :: WithKey(r, key, k) == WithKey(s, key, k)
  }

  /** Puts `x` in front of the first element whose key is not below `x`'s. */
  function Insert<T, K>(x: T, s: seq<T>, key: T -> K, le: (K, K) -> bool): seq<T>
  {
    if s == [] || le(key(x), key(s[0])) then [x] + s
    else [s[0]] + Insert(x, s[1..], key, le)
  }

  lemma {:induction false} InsertPermutes<T, K>(x: T, s: seq<T>, key: T -> K, le: (K, K) -> bool)
    ensures multiset(Insert(x, s, key, le)) == multiset{x} + multiset(s)
  {
    if s != [] && !le(key(x), key(s[0])) {
      InsertPermutes(x, s[1..], key, le);
      assert s == [s[0]] + s[1..];
    }
  }

  lemma {:induction false} InsertSorted<T, K(!new)>(x: T, s: seq<T>, key: T -> K, le: (K, K) -> bool)
    requires TotalOrder(le)
    requires SortedBy(s, key, le)
    ensures SortedBy(Insert(x, s, key, le), key, le)
  {
    if s != [] && !le(key(x), key(s[0])) {
      var rest := Insert(x, s[1..], key, le);
      InsertSorted(x, s[1..], key, le);
      InsertPermutes(x, s[1..], key, le);
      forall j | 0 <= j < |rest| ensures le(key(s[0]), key(rest[j])) {
        assert rest[j] in multiset(rest);
        if rest[j] != x {
          assert rest[j] in multiset(s[1..]);
          var m :| 0 <= m < |s[1..]| && s[1..][m] == rest[j];
          assert s[m + 1] == rest[j];
        }
      }
      var r := [s[0]] + rest;
      forall i, j | 0 <= i < j < |r| ensures le(key(r[i]), key(r[j])) {
        if i > 0 {
          assert r[i] == rest[i - 1] && r[j] == rest[j - 1];
        } else {
          assert r[j] == rest[j - 1];
        }
      }
    } else if s != [] {
      var r := [x] + s;
      forall i, j | 0 <= i < j < |r| ensures le(key(r[i]), key(r[j])) {
        if i > 0 {
          assert r[i] == s[i - 1] && r[j] == s[j - 1];
        } else {
          assert r[j] == s[j - 1];
        }
      }
    }
  }

  lemma {:induction false} InsertWithKey<T, K(!new)>(x: T, s: seq<T>, key: T -> K, le: (K, K) -> bool, k: K)
    requires TotalOrder(le)
    ensures WithKey(Insert(x, s, key, le), key, k)
         == (if key(x) == k then [x] else []) + WithKey(s, key, k)
  {
    var r := Insert(x, s, key, le);
    var ax: seq<T> := if key(x) == k then [x] else [];
    if s == [] || le(key(x), key(s[0])) {
      assert r[0] == x && r[1..] == s;
      assert WithKey(r, key, k) == ax + WithKey(s, key, k);
    } else {
      var rest := Insert(x, s[1..], key, le);
      var a0: seq<T> := if key(s[0]) == k then [s[0]] else [];
      InsertWithKey(x, s[1..], key, le, k);
      assert r[0] == s[0] && r[1..] == rest;
      assert WithKey(r, key, k) == a0 + (ax + WithKey(s[1..], key, k));
      assert key(s[0]) != key(x);
      assert a0 + ax == ax + a0;
      assert WithKey(s, key, k) == a0 + WithKey(s[1..], key, k);
    }
  }

  /**
   * Sorts `s` by `key`: the result is ordered, holds the same elements,
   * and keeps elements with equal keys in their original order.
   */
  function SortBy<T, K(==,!new)>(s: seq<T>, key: T -> K, le: (K, K) -> bool): (r: seq<T>)
    requires TotalOrder(le)
    ensures SortedBy(r, key, le)
    ensures multiset(r) == multiset(s)
    ensures StableFor(r, s, key)
  {
    if s == [] then []
    else
      var rest := SortBy(s[1..], key, le);
      assert SortedBy(Insert(s[0], rest, key, le), key, le) by {
        InsertSorted(s[0], rest, key, le);
      }
      assert multiset(Insert(s[0], rest, key, le)) == multiset(s) by {
        InsertPermutes(s[0], rest, key, le);
        assert s == [s[0]] + s[1..];
      }
      assert StableFor(Insert(s[0], rest, key, le), s, key) by {
        forall k ensures WithKey(Insert(s[0], rest, key, le), key, k) == WithKey(s, key, k) {
          InsertWithKey(s[0], rest, key, le, k);
        }
      }
      Insert(s[0], rest, key, le)
  }
}
