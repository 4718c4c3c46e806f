/**
 * Go's string order (strings.Compare, `<` on strings) and the sorts the core
 * calls (sort.Slice, slices.SortedFunc), as a functional insertion sort.
 * Go compares the UTF-8 bytes of two strings, which orders them exactly as
 * comparing their code points one by one does.
 */
module Sorting {

  /** a <= b in Go's lexicographic string order. */
  predicate StrLe(a: string, b: string)
    decreases |a|
  {
    if |a| == 0 then true
    else if |b| == 0 then false
    else if a[0] != b[0] then a[0] < b[0]
    else StrLe(a[1..], b[1..])
  }

  lemma {:induction false} StrLeTotal(a: string, b: string)
    ensures StrLe(a, b) || StrLe(b, a)
    decreases |a|
  {
    if |a| > 0 && |b| > 0 && a[0] == b[0] {
      StrLeTotal(a[1..], b[1..]);
    }
  }

  lemma {:induction false} StrLeAntisymmetric(a: string, b: string)
    requires StrLe(a, b) && StrLe(b, a)
    ensures a == b
    decreases |a|
  {
    if |a| > 0 && |b| > 0 {
      StrLeAntisymmetric(a[1..], b[1..]);
      assert a == [a[0]] + a[1..] && b == [b[0]] + b[1..];
    }
  }

  lemma {:induction false} StrLeTransitive(a: string, b: string, c: string)
    requires StrLe(a, b) && StrLe(b, c)
    ensures StrLe(a, c)
    decreases |a|
  {
    if |a| > 0 && |b| > 0 && |c| > 0 && a[0] == b[0] && b[0] == c[0] {
      StrLeTransitive(a[1..], b[1..], c[1..]);
    }
  }

  /** `s` is in ascending order of `key`. */
  ghost predicate SortedBy<T>(s: seq<T>, key: T -> string) {
    forall i, j :: 0 <= i < j < |s| ==> StrLe(key(s[i]), key(s[j]))
  }

  /** No two elements of `s` have the same key. */
  ghost predicate DistinctKeys<T>(s: seq<T>, key: T -> string) {
    forall i, j :: 0 <= i < j < |s| ==> key(s[i]) != key(s[j])
  }

  /** `s` is in strictly ascending order of `key`. */
  ghost predicate StrictlySortedBy<T>(s: seq<T>, key: T -> string) {
    SortedBy(s, key) && DistinctKeys(s, key)
  }

  /** Inserts `x` before the first element whose key is greater than its own. */
  function InsertBy<T>(x: T, s: seq<T>, key: T -> string): (r: seq<T>)
    ensures multiset(r) == multiset(s) + multiset{x}
    ensures |r| == |s| + 1
  {
    if |s| == 0 then [x]
    else if StrLe(key(x), key(s[0])) then [x] + s
    else
      assert s == [s[0]] + s[1..];
      [s[0]] + InsertBy(x, s[1..], key)
  }

  /** An insertion sort of `s` by `key`. */
  function SortBy<T>(s: seq<T>, key: T -> string): (r: seq<T>)
    ensures multiset(r) == multiset(s)
    ensures |r| == |s|
  {
    if |s| == 0 then []
    else
      assert s == [s[0]] + s[1..];
      InsertBy(s[0], SortBy(s[1..], key), key)
  }

  lemma {:induction false} InsertBySorted<T>(x: T, s: seq<T>, key: T -> string)
    requires SortedBy(s, key)
    ensures SortedBy(InsertBy(x, s, key), key)
    decreases |s|
  {
    if |s| == 0 {
    } else if StrLe(key(x), key(s[0])) {
      InsertAtHeadSorted(x, s, key);
    } else {
      InsertBySorted(x, s[1..], key);
      InsertAfterHeadSorted(x, s, key);
    }
  }

  /** Putting `x` in front keeps the order when its key is at most the first one. */
  lemma InsertAtHeadSorted<T>(x: T, s: seq<T>, key: T -> string)
    requires SortedBy(s, key) && |s| > 0 && StrLe(key(x), key(s[0]))
    ensures SortedBy([x] + s, key)
  {
    var r := [x] + s;
    forall i, j | 0 <= i < j < |r| ensures StrLe(key(r[i]), key(r[j])) {
      if i == 0 {
        if j > 1 { StrLeTransitive(key(x), key(s[0]), key(s[j - 1])); }
      } else {
        assert r[i] == s[i - 1] && r[j] == s[j - 1];
      }
    }
  }

  /** Keeping the first element in front keeps the order when `x` goes after it. */
  lemma InsertAfterHeadSorted<T>(x: T, s: seq<T>, key: T -> string)
    requires SortedBy(s, key) && |s| > 0 && !StrLe(key(x), key(s[0]))
    requires SortedBy(InsertBy(x, s[1..], key), key)
    ensures SortedBy(InsertBy(x, s, key), key)
  {
    var t := InsertBy(x, s[1..], key);
    var r := [s[0]] + t;
    assert InsertBy(x, s, key) == r;
    StrLeTotal(key(x), key(s[0]));
    forall k | 0 <= k < |t| ensures StrLe(key(s[0]), key(t[k])) {
      assert t[k] in multiset(t);
      assert t[k] == x || t[k] in multiset(s[1..]);
      if t[k] != x {
        var m :| 0 <= m < |s[1..]| && s[1..][m] == t[k];
        assert s[m + 1] == t[k];
      }
    }
    forall i, j | 0 <= i < j < |r| ensures StrLe(key(r[i]), key(r[j])) {
      if i == 0 {
        assert r[j] == t[j - 1];
      } else {
        assert r[i] == t[i - 1] && r[j] == t[j - 1];
      }
    }
  }

  /** SortBy yields an ascending sequence. */
  lemma {:induction false} SortBySorted<T>(s: seq<T>, key: T -> string)
    ensures SortedBy(SortBy(s, key), key)
    decreases |s|
  {
    if |s| > 0 {
      SortBySorted(s[1..], key);
      InsertBySorted(s[0], SortBy(s[1..], key), key);
    }
  }

  /** Every element of InsertBy(x, s) is x or an element of s. */
  lemma InsertByElements<T>(x: T, s: seq<T>, key: T -> string, k: int)
    requires 0 <= k <= |s|
    ensures InsertBy(x, s, key)[k] == x || InsertBy(x, s, key)[k] in s
  {
    var r := InsertBy(x, s, key);
    assert r[k] in multiset(r);
  }

  /** Inserting an element whose key is new keeps the keys pairwise distinct. */
  lemma {:induction false} InsertByDistinct<T>(x: T, s: seq<T>, key: T -> string)
    requires DistinctKeys(s, key)
    requires forall k :: 0 <= k < |s| ==> key(s[k]) != key(x)
    ensures DistinctKeys(InsertBy(x, s, key), key)
    decreases |s|
  {
    if |s| > 0 && !StrLe(key(x), key(s[0])) {
      var t := InsertBy(x, s[1..], key);
      InsertByDistinct(x, s[1..], key);
      forall k | 0 <= k < |t| ensures key(s[0]) != key(t[k]) {
        InsertByElements(x, s[1..], key, k);
        if t[k] != x {
          var m :| 0 <= m < |s[1..]| && s[1..][m] == t[k];
          assert s[m + 1] == t[k];
        }
      }
    }
  }

  /** Sorting keeps the keys pairwise distinct. */
  lemma {:induction false} SortByDistinct<T>(s: seq<T>, key: T -> string)
    requires DistinctKeys(s, key)
    ensures DistinctKeys(SortBy(s, key), key)
    decreases |s|
  {
    if |s| > 0 {
      var t := SortBy(s[1..], key);
      SortByDistinct(s[1..], key);
      forall k | 0 <= k < |t| ensures key(t[k]) != key(s[0]) {
        assert t[k] in multiset(t);
        var m :| 0 <= m < |s[1..]| && s[1..][m] == t[k];
        assert s[m + 1] == t[k];
      }
      InsertByDistinct(s[0], t, key);
    }
  }

  /** Sorting elements whose keys are pairwise distinct yields a strictly ascending sequence. */
  lemma SortByStrict<T>(s: seq<T>, key: T -> string)
    requires DistinctKeys(s, key)
    ensures StrictlySortedBy(SortBy(s, key), key)
  {
    SortBySorted(s, key);
    SortByDistinct(s, key);
  }
}
