/**
 * Go's map iteration (`range` over a map, maps.Keys, maps.Values) visits every
 * entry once in an order the language leaves unspecified. These methods pick
 * that order nondeterministically, so whatever is proved about their callers
 * holds for every order.
 */
module Iteration {
  /** No element occurs twice in `s`. */
  ghost predicate NoDuplicates<T>(s: seq<T>) {
    forall i, j :: 0 <= i < j < |s| ==> s[i] != s[j]
  }

  /** Some element of `s` satisfies `f`, folded from the back. */
  predicate AnyOf<T>(s: seq<T>, f: T -> bool)
    decreases |s|
  {
    |s| > 0 && (AnyOf(s[..|s| - 1], f) || f(s[|s| - 1]))
  }

  /** The fold holds exactly when some element satisfies `f`. */
  lemma {:induction false} AnyOfMeaning<T>(s: seq<T>, f: T -> bool)
    ensures AnyOf(s, f) <==> exists i :: 0 <= i < |s| && f(s[i])
    decreases |s|
  {
    if |s| > 0 {
      var init := s[..|s| - 1];
      AnyOfMeaning(init, f);
      if AnyOf(init, f) {
        var i :| 0 <= i < |init| && f(init[i]);
        assert s[i] == init[i];
      }
      if exists i :: 0 <= i < |s| && f(s[i]) {
        var i :| 0 <= i < |s| && f(s[i]);
        if i < |init| {
          assert init[i] == s[i];
        }
      }
    }
  }

  /** maps.Keys over a set-like map: every element once, in some order. */
  method SetToSeq<T>(s: set<T>) returns (r: seq<T>)
    ensures forall x :: x in r <==> x in s
    ensures |r| == |s|
    ensures NoDuplicates(r)
  {
    r := [];
    var rest := s;
    while rest != {}
      invariant rest <= s
      invariant forall x :: x in r <==> x in s && x !in rest
      invariant |r| + |rest| == |s|
      invariant NoDuplicates(r)
      decreases |rest|
    {
      var x :| x in rest;
      r := r + [x];
      rest := rest - {x};
    }
  }

  /** maps.Values: the value of every key once, in some order of the keys. */
  method MapValues<K, V(==)>(m: map<K, V>) returns (r: seq<V>)
    ensures forall v :: v in r <==> v in m.Values
    ensures |r| == |m|
  {
    var keys := SetToSeq(m.Keys);
    r := [];
    var i := 0;
    while i < |keys|
      invariant 0 <= i <= |keys|
      invariant |r| == i
      invariant forall j :: 0 <= j < i ==> r[j] == m[keys[j]]
    {
      r := r + [m[keys[i]]];
      i := i + 1;
    }
    forall v | v in m.Values ensures v in r {
      var k :| k in m && m[k] == v;
      var j :| 0 <= j < |keys| && keys[j] == k;
      assert r[j] == v;
    }
  }
}
