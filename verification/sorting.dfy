/** Python's `sorted(xs, key=...)`: a stable sort by an integer-valued key. */
module Sorting {

  predicate SortedBy<T>(s: seq<T>, key: T -> int)
  {
    forall i, j :: 0 <= i < j < |s| ==> key(s[i]) <= key(s[j])
  }

  /** The elements of `s` whose key is `k`, in their order in `s`. */
  function WithKey<T>(s: seq<T>, key: T -> int, k: int): seq<T>
  {
    if |s| == 0 then []
    else (if key(s[0]) == k then [s[0]] else []) + WithKey(s[1..], key, k)
  }

  /** Inserts `x` in front of the first element whose key is not smaller
      than `x`'s, so that `x` precedes the elements of equal key. */
  function Insert<T>(x: T, s: seq<T>, key: T -> int): seq<T>
  {
    if |s| == 0 || key(x) <= key(s[0]) then [x] + s
    else [s[0]] + Insert(x, s[1..], key)
  }

  /** `sorted(xs, key=key)`, as an insertion sort from the back. */
  function SortBy<T>(xs: seq<T>, key: T -> int): seq<T>
  {
    if |xs| == 0 then [] else Insert(xs[0], SortBy(xs[1..], key), key)
  }

  lemma SortedCons<T>(h: T, t: seq<T>, key: T -> int)
    requires SortedBy(t, key)
    requires |t| > 0 ==> key(h) <= key(t[0])
    ensures SortedBy([h] + t, key)
  {
    var r := [h] + t;
    forall i, j | 0 <= i < j < |r| ensures key(r[i]) <= key(r[j]) {
      assert r[j] == t[j - 1];
      if i > 0 {
        assert r[i] == t[i - 1];
      }
    }
  }

  /** Inserting adds exactly the one element. */
  lemma {:induction false} InsertPermutes<T>(x: T, s: seq<T>, key: T -> int)
    ensures multiset(Insert(x, s, key)) == multiset(s) + multiset{x}
    ensures |Insert(x, s, key)| == |s| + 1
  {
    if |s| > 0 && key(x) > key(s[0]) {
      InsertPermutes(x, s[1..], key);
      assert s == [s[0]] + s[1..];
    }
  }

  /** Inserting into a sorted sequence keeps it sorted; the new first
      element is `x` or the old first one. */
  lemma {:induction false} InsertSorted<T>(x: T, s: seq<T>, key: T -> int)
    requires SortedBy(s, key)
    ensures |Insert(x, s, key)| > 0
    ensures SortedBy(Insert(x, s, key), key)
    ensures key(Insert(x, s, key)[0]) == key(x) || (|s| > 0 && key(Insert(x, s, key)[0]) == key(s[0]))
  {
    if |s| == 0 || key(x) <= key(s[0]) {
      SortedCons(x, s, key);
    } else {
      var tail := Insert(x, s[1..], key);
      InsertSorted(x, s[1..], key);
      SortedCons(s[0], tail, key);
    }
  }

  /** The sort's result is a permutation of its input. */
  lemma {:induction false} SortByPermutes<T>(xs: seq<T>, key: T -> int)
    ensures multiset(SortBy(xs, key)) == multiset(xs)
    ensures |SortBy(xs, key)| == |xs|
  {
    if |xs| > 0 {
      var rest := SortBy(xs[1..], key);
      SortByPermutes(xs[1..], key);
      InsertPermutes(xs[0], rest, key);
      assert xs == [xs[0]] + xs[1..];
    }
  }

  /** The sort's result is sorted and a permutation of its input. */
  lemma {:induction false} SortBySorted<T>(xs: seq<T>, key: T -> int)
    ensures SortedBy(SortBy(xs, key), key)
    ensures multiset(SortBy(xs, key)) == multiset(xs)
    ensures |SortBy(xs, key)| == |xs|
  {
    SortByPermutes(xs, key);
    if |xs| > 0 {
      var rest := SortBy(xs[1..], key);
      SortBySorted(xs[1..], key);
      InsertSorted(xs[0], rest, key);
    }
  }

  lemma {:induction false} InsertWithKey<T>(x: T, s: seq<T>, key: T -> int, k: int)
    ensures WithKey(Insert(x, s, key), key, k)
         == (if key(x) == k then [x] else []) + WithKey(s, key, k)
  {
    var r := Insert(x, s, key);
    if |s| == 0 || key(x) <= key(s[0]) {
      assert r[0] == x && r[1..] == s;
    } else {
      var tail := Insert(x, s[1..], key);
      InsertWithKey(x, s[1..], key, k);
      assert r[0] == s[0] && r[1..] == tail;
      assert WithKey(s, key, k) == (if key(s[0]) == k then [s[0]] else []) + WithKey(s[1..], key, k);
      // key(s[0]) < key(x): at most one of the two can carry the key k
      assert key(s[0]) != k || key(x) != k;
    }
  }

  /** Stability: for every key value, the elements carrying it appear in the
      output in the same order as in the input. */
  lemma {:induction false} SortByIsStable<T>(xs: seq<T>, key: T -> int, k: int)
    ensures WithKey(SortBy(xs, key), key, k) == WithKey(xs, key, k)
  {
    if |xs| > 0 {
      SortByIsStable(xs[1..], key, k);
      InsertWithKey(xs[0], SortBy(xs[1..], key), key, k);
    }
  }
}
