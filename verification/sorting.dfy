/**
 * The stable ordering `Enumerable.OrderBy(key)` performs: the result is
 * ordered by key, is a permutation of the input, and elements with equal
 * keys keep their input order.
 */
module Sorting {

  ghost predicate SortedBy<T>(s: seq<T>, key: T -> int)
  {
    forall i, j :: 0 <= i < j < |s| ==> key(s[i]) <= key(s[j])
  }

  /** The elements of `s` whose key is `k`, in their order in `s`. */
  function WithKey<T>(s: seq<T>, key: T -> int, k: int): seq<T>
  {
    if s == [] then []
    else (if key(s[0]) == k then [s[0]] else []) + WithKey(s[1..], key, k)
  }

  /** Inserts `x` in front of the first element whose key is not smaller. */
  function Insert<T>(x: T, s: seq<T>, key: T -> int): (r: seq<T>)
    ensures |r| == |s| + 1
    ensures multiset(r) == multiset(s) + multiset{x}
    ensures forall i :: 0 <= i < |r| ==> r[i] == x || r[i] in s
  {
    if s == [] || key(x) <= key(s[0]) then [x] + s
    else
      assert s == [s[0]] + s[1..];
      [s[0]] + Insert(x, s[1..], key)
  }

  /** An element no greater than every element of a sorted sequence can go in front. */
  lemma SortedCons<T>(h: T, t: seq<T>, key: T -> int)
    requires SortedBy(t, key)
    requires forall j :: 0 <= j < |t| ==> key(h) <= key(t[j])
    ensures SortedBy([h] + t, key)
  {
    var r := [h] + t;
    forall i, j | 0 <= i < j < |r| ensures key(r[i]) <= key(r[j]) {
      assert r[j] == t[j - 1];
      if i > 0 {
        assert r[i] == t[i - 1];
      }
    }
  }

  /** Inserting into a sequence keeps a lower bound its elements and `x` share. */
  lemma InsertKeepsLowerBound<T>(x: T, s: seq<T>, key: T -> int, b: int)
    requires b <= key(x)
    requires forall j :: 0 <= j < |s| ==> b <= key(s[j])
    ensures forall j :: 0 <= j < |Insert(x, s, key)| ==> b <= key(Insert(x, s, key)[j])
  {
    var r := Insert(x, s, key);
    forall j | 0 <= j < |r| ensures b <= key(r[j]) {
      if r[j] != x {
        var m :| 0 <= m < |s| && s[m] == r[j];
      }
    }
  }

  lemma {:induction false} InsertSorted<T>(x: T, s: seq<T>, key: T -> int)
    requires SortedBy(s, key)
    ensures SortedBy(Insert(x, s, key), key)
  {
    if s == [] || key(x) <= key(s[0]) {
      SortedCons(x, s, key);
    } else {
      var tail := s[1..];
      assert SortedBy(tail, key);
      InsertSorted(x, tail, key);
      InsertKeepsLowerBound(x, tail, key, key(s[0]));
      SortedCons(s[0], Insert(x, tail, key), key);
    }
  }

  /** `OrderBy(key)` as an insertion sort. */
  function SortByKey<T>(s: seq<T>, key: T -> int): (r: seq<T>)
    ensures SortedBy(r, key)
    ensures multiset(r) == multiset(s)
  {
    if s == [] then []
    else
      assert s == [s[0]] + s[1..];
      var t := SortByKey(s[1..], key);
      InsertSorted(s[0], t, key);
      Insert(s[0], t, key)
  }

  /** Filtering by key distributes over putting an element in front. */
  lemma WithKeyCons<T>(h: T, t: seq<T>, key: T -> int, k: int)
    ensures WithKey([h] + t, key, k) == (if key(h) == k then [h] else []) + WithKey(t, key, k)
  {
    var r := [h] + t;
    assert r[0] == h && r[1..] == t;
  }

  lemma {:induction false} WithKeyInsert<T>(x: T, s: seq<T>, key: T -> int, k: int)
    ensures WithKey(Insert(x, s, key), key, k) == (if key(x) == k then [x] else []) + WithKey(s, key, k)
  {
    if s == [] || key(x) <= key(s[0]) {
      WithKeyCons(x, s, key, k);
    } else {
      var xs: seq<T> := if key(x) == k then [x] else [];
      var ys: seq<T> := if key(s[0]) == k then [s[0]] else [];
      var rest := WithKey(s[1..], key, k);
      WithKeyInsert(x, s[1..], key, k);
      WithKeyCons(s[0], Insert(x, s[1..], key), key, k);
      assert WithKey(s, key, k) == ys + rest;
      assert xs == [] || ys == [];
      assert ys + (xs + rest) == xs + (ys + rest);
    }
  }

  /** Stability: for every key, the elements carrying it appear in the input order. */
  lemma {:induction false} SortByKeyIsStable<T>(s: seq<T>, key: T -> int, k: int)
    ensures WithKey(SortByKey(s, key), key, k) == WithKey(s, key, k)
  {
    if s != [] {
      SortByKeyIsStable(s[1..], key, k);
      WithKeyInsert(s[0], SortByKey(s[1..], key), key, k);
    }
  }
}
