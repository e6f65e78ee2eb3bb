/** Dropping repeats while keeping order: the first entry of every key stays. */
module Dedupe {

  /** The key of values that are compared as they are. */
  function Itself<T>(x: T): T { x }

  predicate Occurs<T, K(==)>(xs: seq<T>, key: T -> K, k: K) {
    exists i :: 0 <= i < |xs| && key(xs[i]) == k
  }

  function KeepFirst<T, K(==)>(xs: seq<T>, key: T -> K): seq<T> {
    if xs == [] then []
    else
      var init, last := xs[..|xs| - 1], xs[|xs| - 1];
      if Occurs(init, key, key(last)) then KeepFirst(init, key) else KeepFirst(init, key) + [last]
  }

  /** The loop with a set of seen keys. */
  method Distinct<T, K(==)>(xs: seq<T>, key: T -> K) returns (kept: seq<T>)
    ensures kept == KeepFirst(xs, key)
  {
    var seen: set<K> := {};
    kept := [];
    for i := 0 to |xs|
      invariant kept == KeepFirst(xs[..i], key)
      invariant forall k :: k in seen <==> Occurs(xs[..i], key, k)
    {
      OccursInSnoc(xs[..i], xs[i], key);
      KeepFirstSnoc(xs[..i], xs[i], key);
      assert xs[..i] + [xs[i]] == xs[..i + 1];
      assert Occurs(xs[..i], key, key(xs[i])) <==> key(xs[i]) in seen;
      if key(xs[i]) !in seen {
        seen := seen + {key(xs[i])};
        kept := kept + [xs[i]];
      }
    }
    assert xs[..|xs|] == xs;
  }

  lemma KeepFirstSnoc<T, K>(xs: seq<T>, x: T, key: T -> K)
    ensures KeepFirst(xs + [x], key)
            == if Occurs(xs, key, key(x)) then KeepFirst(xs, key) else KeepFirst(xs, key) + [x]
  {
    assert (xs + [x])[..|xs|] == xs;
  }

  lemma OccursInSnoc<T, K>(xs: seq<T>, x: T, key: T -> K)
    ensures forall k :: Occurs(xs + [x], key, k) <==> Occurs(xs, key, k) || key(x) == k
  {
    forall k ensures Occurs(xs + [x], key, k) <==> Occurs(xs, key, k) || key(x) == k {
      if Occurs(xs, key, k) {
        var i :| 0 <= i < |xs| && key(xs[i]) == k;
        assert (xs + [x])[i] == xs[i];
      }
      if key(x) == k { assert (xs + [x])[|xs|] == x; }
    }
  }

  ghost predicate DistinctKeys<T, K>(xs: seq<T>, key: T -> K) {
    forall i, j :: 0 <= i < j < |xs| ==> key(xs[i]) != key(xs[j])
  }

  /** No key is kept twice, and every key that occurred is kept. */
  lemma {:induction false} KeptOncePerKey<T, K>(xs: seq<T>, key: T -> K)
    ensures DistinctKeys(KeepFirst(xs, key), key)
    ensures forall k :: Occurs(KeepFirst(xs, key), key, k) <==> Occurs(xs, key, k)
  {
    if xs != [] {
      var init, last := xs[..|xs| - 1], xs[|xs| - 1];
      KeptOncePerKey(init, key);
      assert init + [last] == xs;
      OccursInSnoc(init, last, key);
      OccursInSnoc(KeepFirst(init, key), last, key);
      if !Occurs(init, key, key(last)) {
        SnocStaysDistinct(KeepFirst(init, key), last, key);
      }
    }
  }

  lemma SnocStaysDistinct<T, K>(xs: seq<T>, x: T, key: T -> K)
    requires DistinctKeys(xs, key) && !Occurs(xs, key, key(x))
    ensures DistinctKeys(xs + [x], key)
  {
  }

  /** What is kept of a list comes first in what is kept of any longer one. */
  lemma {:induction false} KeptComesFirst<T, K>(xs: seq<T>, ys: seq<T>, key: T -> K)
    ensures KeepFirst(xs, key) <= KeepFirst(xs + ys, key)
  {
    if ys == [] {
      assert xs + ys == xs;
    } else {
      KeptComesFirst(xs, ys[..|ys| - 1], key);
      assert (xs + ys)[..|xs + ys| - 1] == xs + ys[..|ys| - 1];
    }
  }
}
