/**
 * List and dictionary idioms the scripts use: removing duplicates while keeping
 * first-seen order (`if x not in out: out.append(x)`), and a dictionary built from a
 * list where a later entry overwrites an earlier one (`{key(x): val(x) for x in xs}`).
 */
module Seqs {
  import opened Wrappers

  predicate NoDups<T(==)>(xs: seq<T>) {
    forall i, j :: 0 <= i < j < |xs| ==> xs[i] != xs[j]
  }

  /** Index of the first occurrence of `x` (Python's `xs.index(x)`). */
  function FirstIndex<T(==)>(xs: seq<T>, x: T): (k: nat)
    requires x in xs
    ensures k < |xs| && xs[k] == x && x !in xs[..k]
  {
    if xs[0] == x then 0 else 1 + FirstIndex(xs[1..], x)
  }

  /** The elements of `xs` without repetitions, each kept at its first occurrence. */
  function Dedup<T(==,!new)>(xs: seq<T>): (r: seq<T>)
    ensures NoDups(r)
    ensures forall x :: x in r <==> x in xs
    decreases |xs|
  {
    if xs == [] then []
    else
      var d := Dedup(xs[..|xs| - 1]);
      if xs[|xs| - 1] in d then d else d + [xs[|xs| - 1]]
  }

  /** Appending one element extends the deduplicated list only with a new value. */
  lemma DedupSnoc<T(!new)>(xs: seq<T>, y: T)
    ensures Dedup(xs + [y]) == if y in Dedup(xs) then Dedup(xs) else Dedup(xs) + [y]
  {
    assert (xs + [y])[..|xs|] == xs;
  }

  lemma {:induction false} FirstIndexSnoc<T>(xs: seq<T>, y: T, x: T)
    requires x in xs
    ensures FirstIndex(xs + [y], x) == FirstIndex(xs, x)
    decreases |xs|
  {
    if xs[0] != x {
      assert (xs + [y])[1..] == xs[1..] + [y];
      FirstIndexSnoc(xs[1..], y, x);
    }
  }

  /** `Dedup` lists the values in the order of their first occurrence in `xs`. */
  lemma {:induction false} DedupKeepsFirstSeenOrder<T(!new)>(xs: seq<T>)
    ensures forall i, j :: 0 <= i < j < |Dedup(xs)| ==>
              FirstIndex(xs, Dedup(xs)[i]) < FirstIndex(xs, Dedup(xs)[j])
    decreases |xs|
  {
    if xs != [] {
      var p := xs[..|xs| - 1];
      var y := xs[|xs| - 1];
      assert xs == p + [y];
      DedupKeepsFirstSeenOrder(p);
      var d := Dedup(p);
      forall x | x in p ensures FirstIndex(xs, x) == FirstIndex(p, x) {
        FirstIndexSnoc(p, y, x);
      }
      if y !in d {
        assert FirstIndex(xs, y) == |p|;
      }
    }
  }

  /**
   * The dictionary `{key(x): val(x) for x in xs}`: a key is present iff some element
   * has it, and it maps to the value of the LAST element with that key.
   */
  function IndexBy<T, K(==), V>(xs: seq<T>, key: T -> K, val: T -> V): (index: map<K, V>)
    decreases |xs|
  {
    if xs == [] then map[]
    else IndexBy(xs[..|xs| - 1], key, val)[key(xs[|xs| - 1]) := val(xs[|xs| - 1])]
  }

  lemma {:induction false} IndexByLastWins<T, K, V>(xs: seq<T>, key: T -> K, val: T -> V)
    ensures forall k :: k in IndexBy(xs, key, val) <==> exists i :: 0 <= i < |xs| && key(xs[i]) == k
    ensures forall k :: k in IndexBy(xs, key, val) ==>
              exists i :: && 0 <= i < |xs| && key(xs[i]) == k
                          && IndexBy(xs, key, val)[k] == val(xs[i])
                          && forall j :: i < j < |xs| ==> key(xs[j]) != k
    decreases |xs|
  {
    if xs != [] {
      var p := xs[..|xs| - 1];
      var x := xs[|xs| - 1];
      IndexByLastWins(p, key, val);
      var m := IndexBy(xs, key, val);
      forall k | k in m
        ensures exists i :: && 0 <= i < |xs| && key(xs[i]) == k && m[k] == val(xs[i])
                            && forall j :: i < j < |xs| ==> key(xs[j]) != k
      {
        if k == key(x) {
          assert key(xs[|xs| - 1]) == k;
        } else {
          var i :| && 0 <= i < |p| && key(p[i]) == k && IndexBy(p, key, val)[k] == val(p[i])
                   && forall j :: i < j < |p| ==> key(p[j]) != k;
          assert xs[i] == p[i];
          assert forall j :: i < j < |xs| ==> key(xs[j]) != k by {
            forall j | i < j < |xs| ensures key(xs[j]) != k {
              if j < |p| { assert xs[j] == p[j]; }
            }
          }
        }
      }
      forall k | exists i :: 0 <= i < |xs| && key(xs[i]) == k ensures k in m {
        var i :| 0 <= i < |xs| && key(xs[i]) == k;
        if i < |p| {
          assert p[i] == xs[i];
          assert k in IndexBy(p, key, val);
        }
      }
      forall k | k in m ensures exists i :: 0 <= i < |xs| && key(xs[i]) == k {
        if k != key(x) {
          var i :| 0 <= i < |p| && key(p[i]) == k;
          assert xs[i] == p[i];
        } else {
          assert key(xs[|xs| - 1]) == k;
        }
      }
    }
  }

  /** The values of the `Some` entries of `xs`, in order. */
  function Somes<T>(xs: seq<Option<T>>): (values: seq<T>) {
    if xs == [] then []
    else Somes(xs[..|xs| - 1]) + (match xs[|xs| - 1] case None => [] case Some(x) => [x])
  }

  lemma SomesSnoc<T>(xs: seq<Option<T>>, x: Option<T>)
    ensures Somes(xs + [x]) == Somes(xs) + (match x case None => [] case Some(v) => [v])
  {
    assert (xs + [x])[..|xs|] == xs;
  }

  /** A value is listed exactly when some entry holds it. */
  lemma {:induction false} SomesMembers<T>(xs: seq<Option<T>>)
    ensures forall v :: v in Somes(xs) <==> exists j :: 0 <= j < |xs| && xs[j] == Some(v)
  {
    if xs != [] {
      var p := xs[..|xs| - 1];
      SomesMembers(p);
      assert forall j :: 0 <= j < |p| ==> p[j] == xs[j];
    }
  }
}
