/**
 * Python's `list.sort(key=...)` for string keys: a stable sort under the code-point
 * lexicographic order that Python uses to compare `str` values.
 */
module Sorting {

  /** `a <= b` on Python strings. */
  predicate LexLe(a: string, b: string)
    decreases |a|
  {
    |a| == 0 || (|b| > 0 && (a[0] < b[0] || (a[0] == b[0] && LexLe(a[1..], b[1..]))))
  }

  lemma {:induction false} LexLeReflexive(a: string)
    ensures LexLe(a, a)
    decreases |a|
  {
    if |a| > 0 { LexLeReflexive(a[1..]); }
  }

  lemma {:induction false} LexLeTotal(a: string, b: string)
    ensures LexLe(a, b) || LexLe(b, a)
    decreases |a|
  {
    if |a| > 0 && |b| > 0 && a[0] == b[0] { LexLeTotal(a[1..], b[1..]); }
  }

  lemma {:induction false} LexLeTransitive(a: string, b: string, c: string)
    requires LexLe(a, b) && LexLe(b, c)
    ensures LexLe(a, c)
    decreases |a|
  {
    if |a| > 0 && a[0] == b[0] && b[0] == c[0] { LexLeTransitive(a[1..], b[1..], c[1..]); }
  }

  lemma {:induction false} LexLeAntisymmetric(a: string, b: string)
    requires LexLe(a, b) && LexLe(b, a)
    ensures a == b
    decreases |a|
  {
    if |a| > 0 {
      LexLeAntisymmetric(a[1..], b[1..]);
      assert a == [a[0]] + a[1..] && b == [b[0]] + b[1..];
    }
  }

  predicate SortedBy<T>(xs: seq<T>, key: T -> string) {
    forall i, j :: 0 <= i < j < |xs| ==> LexLe(key(xs[i]), key(xs[j]))
  }

  /** Places `x` before the first element whose key is not smaller than its own. */
  function Insert<T>(x: T, xs: seq<T>, key: T -> string): (r: seq<T>)
    ensures |r| == |xs| + 1
    decreases |xs|
  {
    if xs == [] || LexLe(key(x), key(xs[0])) then [x] + xs
    else [xs[0]] + Insert(x, xs[1..], key)
  }

  /** `sorted(xs, key=key)`: insertion sort, which keeps equal keys in input order. */
  function SortBy<T>(xs: seq<T>, key: T -> string): (r: seq<T>)
    ensures |r| == |xs|
    decreases |xs|
  {
    if xs == [] then [] else Insert(xs[0], SortBy(xs[1..], key), key)
  }

  lemma {:induction false} InsertElements<T>(x: T, xs: seq<T>, key: T -> string)
    ensures forall y :: y in Insert(x, xs, key) <==> y == x || y in xs
    ensures multiset(Insert(x, xs, key)) == multiset{x} + multiset(xs)
    decreases |xs|
  {
    if !(xs == [] || LexLe(key(x), key(xs[0]))) {
      InsertElements(x, xs[1..], key);
      assert xs == [xs[0]] + xs[1..];
    }
  }

  lemma {:induction false} InsertSorted<T>(x: T, xs: seq<T>, key: T -> string)
    requires SortedBy(xs, key)
    ensures SortedBy(Insert(x, xs, key), key)
    decreases |xs|
  {
    var r := Insert(x, xs, key);
    if xs == [] {
    } else if LexLe(key(x), key(xs[0])) {
      forall i, j | 0 <= i < j < |r| ensures LexLe(key(r[i]), key(r[j])) {
        if i == 0 && j > 1 {
          LexLeTransitive(key(x), key(xs[0]), key(xs[j - 1]));
        }
      }
    } else {
      LexLeTotal(key(x), key(xs[0]));
      InsertSorted(x, xs[1..], key);
      InsertElements(x, xs[1..], key);
      var tail := Insert(x, xs[1..], key);
      assert r == [xs[0]] + tail;
      forall j | 0 <= j < |tail| ensures LexLe(key(xs[0]), key(tail[j])) {
        assert tail[j] in multiset(tail);
        if tail[j] != x {
          assert tail[j] in xs[1..];
          var k :| 0 <= k < |xs[1..]| && xs[1..][k] == tail[j];
          assert xs[k + 1] == tail[j];
        }
      }
    }
  }

  /** The sorted list is in ascending key order. */
  lemma {:induction false} SortByIsSorted<T>(xs: seq<T>, key: T -> string)
    ensures SortedBy(SortBy(xs, key), key)
    decreases |xs|
  {
    if xs != [] {
      SortByIsSorted(xs[1..], key);
      InsertSorted(xs[0], SortBy(xs[1..], key), key);
    }
  }

  /** The sorted list is a permutation of the input. */
  lemma {:induction false} SortByIsPermutation<T>(xs: seq<T>, key: T -> string)
    ensures multiset(SortBy(xs, key)) == multiset(xs)
    decreases |xs|
  {
    if xs != [] {
      SortByIsPermutation(xs[1..], key);
      InsertElements(xs[0], SortBy(xs[1..], key), key);
      assert xs == [xs[0]] + xs[1..];
    }
  }

  /** The elements of `xs` whose key is `k`, in order. */
  function WithKey<T>(xs: seq<T>, key: T -> string, k: string): (selected: seq<T>)
    decreases |xs|
  {
    if xs == [] then []
    else (if key(xs[0]) == k then [xs[0]] else []) + WithKey(xs[1..], key, k)
  }

  lemma {:induction false} InsertWithKey<T>(x: T, xs: seq<T>, key: T -> string, k: string)
    ensures WithKey(Insert(x, xs, key), key, k)
         == (if key(x) == k then [x] else []) + WithKey(xs, key, k)
    decreases |xs|
  {
    var r := Insert(x, xs, key);
    if xs == [] || LexLe(key(x), key(xs[0])) {
      assert r[1..] == xs;
    } else {
      InsertWithKey(x, xs[1..], key, k);
      LexLeReflexive(key(x));
      assert key(xs[0]) != key(x);
      assert r[1..] == Insert(x, xs[1..], key);
    }
  }

  /**
   * Stability: for every key, the elements carrying it appear in the sorted list in
   * the same relative order as in the input.
   */
  lemma {:induction false} SortByIsStable<T>(xs: seq<T>, key: T -> string, k: string)
    ensures WithKey(SortBy(xs, key), key, k) == WithKey(xs, key, k)
    decreases |xs|
  {
    if xs != [] {
      SortByIsStable(xs[1..], key, k);
      InsertWithKey(xs[0], SortBy(xs[1..], key), key, k);
    }
  }

  /** No two elements share a value of `f`. */
  predicate DistinctBy<T, K(==)>(xs: seq<T>, f: T -> K) {
    forall i, j :: 0 <= i < j < |xs| ==> f(xs[i]) != f(xs[j])
  }

  lemma {:induction false} InsertDistinct<T, K>(x: T, xs: seq<T>, key: T -> string, f: T -> K)
    requires DistinctBy(xs, f)
    requires forall y :: y in xs ==> f(y) != f(x)
    ensures DistinctBy(Insert(x, xs, key), f)
    decreases |xs|
  {
    if !(xs == [] || LexLe(key(x), key(xs[0]))) {
      InsertDistinct(x, xs[1..], key, f);
      InsertElements(x, xs[1..], key);
      var r := Insert(x, xs, key);
      assert r == [xs[0]] + Insert(x, xs[1..], key);
      forall j | 1 <= j < |r| ensures f(r[0]) != f(r[j]) {
        assert r[j] == Insert(x, xs[1..], key)[j - 1];
        assert r[j] in multiset(Insert(x, xs[1..], key));
        if r[j] != x {
          assert r[j] in xs[1..];
          var k :| 0 <= k < |xs[1..]| && xs[1..][k] == r[j];
          assert xs[k + 1] == r[j];
        }
      }
    }
  }

  /** Sorting keeps a field that was unique across the input unique. */
  lemma {:induction false} SortByKeepsDistinct<T, K>(xs: seq<T>, key: T -> string, f: T -> K)
    requires DistinctBy(xs, f)
    ensures DistinctBy(SortBy(xs, key), f)
    decreases |xs|
  {
    if xs != [] {
      SortByKeepsDistinct(xs[1..], key, f);
      SortByIsPermutation(xs[1..], key);
      forall y | y in SortBy(xs[1..], key) ensures f(y) != f(xs[0]) {
        assert y in multiset(xs[1..]);
        var k :| 0 <= k < |xs[1..]| && xs[1..][k] == y;
        assert xs[k + 1] == y;
      }
      InsertDistinct(xs[0], SortBy(xs[1..], key), key, f);
    }
  }
}
