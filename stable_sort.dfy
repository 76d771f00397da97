/**
 * Stable sorting of a sequence by an integer key, ascending: the result that
 * Array.prototype.sort (section 23.1.3.30 of ECMA-262, 2023 edition, which
 * requires a stable sort) gives for the comparator `(a, b) => key(a) - key(b)`.
 */
module StableSort {

  predicate SortedBy<T>(s: seq<T>, key: T -> int) {
    forall i, j :: 0 <= i < j < |s| ==> key(s[i]) <= key(s[j])
  }

  /** The elements of `s` whose key is `k`, in the order of `s`. */
  function WithKey<T>(s: seq<T>, key: T -> int, k: int): seq<T> {
    if s == [] then []
    else WithKey(s[..|s| - 1], key, k) + (if key(s[|s| - 1]) == k then [s[|s| - 1]] else [])
  }

  /** Inserts `x` into `t` behind every element that does not compare greater than it. */
  function InsertBy<T>(t: seq<T>, x: T, key: T -> int): (r: seq<T>)
    ensures multiset(r) == multiset(t) + multiset{x}
  {
    if t == [] then [x]
    else if key(t[|t| - 1]) - key(x) <= 0 then t + [x]
    else
      assert t == t[..|t| - 1] + [t[|t| - 1]];
      InsertBy(t[..|t| - 1], x, key) + [t[|t| - 1]]
  }

  predicate AllAtMost<T>(s: seq<T>, key: T -> int, m: int) {
    forall i :: 0 <= i < |s| ==> key(s[i]) <= m
  }

  lemma {:induction false} InsertByAtMost<T>(t: seq<T>, x: T, key: T -> int, m: int)
    requires AllAtMost(t, key, m) && key(x) <= m
    ensures AllAtMost(InsertBy(t, x, key), key, m)
  {
    if t != [] && key(t[|t| - 1]) - key(x) > 0 {
      InsertByAtMost(t[..|t| - 1], x, key, m);
    }
  }

  lemma {:induction false} InsertBySorted<T>(t: seq<T>, x: T, key: T -> int)
    requires SortedBy(t, key)
    ensures SortedBy(InsertBy(t, x, key), key)
  {
    if t != [] && key(t[|t| - 1]) - key(x) > 0 {
      var last := t[|t| - 1];
      var t' := t[..|t| - 1];
      InsertBySorted(t', x, key);
      InsertByAtMost(t', x, key, key(last));
    }
  }

  /** Insertion sort: sorts the prefix, then inserts the last element. */
  function SortBy<T>(s: seq<T>, key: T -> int): (r: seq<T>)
    ensures SortedBy(r, key)
    ensures multiset(r) == multiset(s)
  {
    if s == [] then []
    else
      assert s == s[..|s| - 1] + [s[|s| - 1]];
      var sorted := SortBy(s[..|s| - 1], key);
      InsertBySorted(sorted, s[|s| - 1], key);
      InsertBy(sorted, s[|s| - 1], key)
  }

  lemma WithKeyAppend<T>(t: seq<T>, x: T, key: T -> int, k: int)
    ensures WithKey(t + [x], key, k) == WithKey(t, key, k) + (if key(x) == k then [x] else [])
  {
    assert (t + [x])[..|t|] == t;
  }

  lemma {:induction false} InsertByWithKey<T>(t: seq<T>, x: T, key: T -> int, k: int)
    ensures WithKey(InsertBy(t, x, key), key, k) == WithKey(t, key, k) + (if key(x) == k then [x] else [])
  {
    if t == [] {
      WithKeyAppend([], x, key, k);
      assert [] + [x] == [x];
    } else if key(t[|t| - 1]) - key(x) <= 0 {
      WithKeyAppend(t, x, key, k);
    } else {
      var last, t' := t[|t| - 1], t[..|t| - 1];
      InsertByWithKey(t', x, key, k);
      InsertBeforeLastWithKey(t, x, key, k);
    }
  }

  /** The step of InsertByWithKey where `x` goes in front of the last element. */
  lemma InsertBeforeLastWithKey<T>(t: seq<T>, x: T, key: T -> int, k: int)
    requires t != [] && key(t[|t| - 1]) - key(x) > 0
    requires WithKey(InsertBy(t[..|t| - 1], x, key), key, k)
          == WithKey(t[..|t| - 1], key, k) + (if key(x) == k then [x] else [])
    ensures WithKey(InsertBy(t, x, key), key, k) == WithKey(t, key, k) + (if key(x) == k then [x] else [])
  {
    var last, t' := t[|t| - 1], t[..|t| - 1];
    var i' := InsertBy(t', x, key);
    assert InsertBy(t, x, key) == i' + [last];
    WithKeyAppend(i', last, key, k);
    SwapSingletons(WithKey(t', key, k), if key(x) == k then [x] else [], if key(last) == k then [last] else []);
  }

  lemma SwapSingletons<T>(a: seq<T>, b: seq<T>, c: seq<T>)
    requires b == [] || c == []
    ensures (a + b) + c == (a + c) + b
  {
  }

  /** Stability: for every key, the elements with that key keep their relative input order. */
  lemma {:induction false} SortByStable<T>(s: seq<T>, key: T -> int, k: int)
    ensures WithKey(SortBy(s, key), key, k) == WithKey(s, key, k)
  {
    if s != [] {
      SortByStable(s[..|s| - 1], key, k);
      InsertByWithKey(SortBy(s[..|s| - 1], key), s[|s| - 1], key, k);
    }
  }

  lemma {:induction false} WithKeyHasMember<T>(s: seq<T>, key: T -> int, i: int)
    requires 0 <= i < |s|
    ensures WithKey(s, key, key(s[i])) != []
  {
    if i < |s| - 1 {
      WithKeyHasMember(s[..|s| - 1], key, i);
    }
  }

  lemma {:induction false} WithKeyBelowLast<T>(s: seq<T>, key: T -> int, k: int)
    requires SortedBy(s, key)
    requires WithKey(s, key, k) != []
    ensures s != [] && k <= key(s[|s| - 1])
  {
    if key(s[|s| - 1]) != k {
      var s' := s[..|s| - 1];
      assert WithKey(s', key, k) != [];
      WithKeyBelowLast(s', key, k);
      assert s'[|s'| - 1] == s[|s| - 2];
    }
  }

  lemma SameLastOfSorted<T>(r1: seq<T>, r2: seq<T>, key: T -> int)
    requires SortedBy(r1, key) && SortedBy(r2, key)
    requires r1 != [] && r2 != []
    requires forall k :: WithKey(r1, key, k) == WithKey(r2, key, k)
    ensures r1[|r1| - 1] == r2[|r2| - 1]
  {
    var a, b := r1[|r1| - 1], r2[|r2| - 1];
    WithKeyHasMember(r1, key, |r1| - 1);
    WithKeyHasMember(r2, key, |r2| - 1);
    WithKeyBelowLast(r2, key, key(a));
    WithKeyBelowLast(r1, key, key(b));
    assert WithKey(r1, key, key(a)) == WithKey(r1[..|r1| - 1], key, key(a)) + [a];
    assert WithKey(r2, key, key(a)) == WithKey(r2[..|r2| - 1], key, key(a)) + [b];
  }

  lemma DropLastSameWithKey<T>(r1: seq<T>, r2: seq<T>, key: T -> int, k: int)
    requires r1 != [] && r2 != [] && r1[|r1| - 1] == r2[|r2| - 1]
    requires WithKey(r1, key, k) == WithKey(r2, key, k)
    ensures WithKey(r1[..|r1| - 1], key, k) == WithKey(r2[..|r2| - 1], key, k)
  {
    var a := r1[|r1| - 1];
    var w1, w2 := WithKey(r1[..|r1| - 1], key, k), WithKey(r2[..|r2| - 1], key, k);
    var tail := if key(a) == k then [a] else [];
    assert WithKey(r1, key, k) == w1 + tail;
    assert WithKey(r2, key, k) == w2 + tail;
    CancelSuffix(w1, w2, tail);
  }

  lemma CancelSuffix<T>(w1: seq<T>, w2: seq<T>, tail: seq<T>)
    requires w1 + tail == w2 + tail
    ensures w1 == w2
  {
    assert |w1| == |w2|;
    assert w1 == (w1 + tail)[..|w1|];
    assert w2 == (w2 + tail)[..|w2|];
  }

  /** Two sorted sequences that agree on the elements of every key are equal. */
  lemma {:induction false} SortedDeterminedByKeys<T>(r1: seq<T>, r2: seq<T>, key: T -> int)
    requires SortedBy(r1, key) && SortedBy(r2, key)
    requires forall k :: WithKey(r1, key, k) == WithKey(r2, key, k)
    ensures r1 == r2
    decreases |r1| + |r2|
  {
    if r1 == [] && r2 != [] {
      WithKeyHasMember(r2, key, 0);
    } else if r1 != [] && r2 == [] {
      WithKeyHasMember(r1, key, 0);
    } else if r1 != [] {
      SameLastOfSorted(r1, r2, key);
      var p1, p2 := r1[..|r1| - 1], r2[..|r2| - 1];
      forall k ensures WithKey(p1, key, k) == WithKey(p2, key, k) {
        DropLastSameWithKey(r1, r2, key, k);
      }
      SortedDeterminedByKeys(p1, p2, key);
      assert r1 == p1 + [r1[|r1| - 1]] && r2 == p2 + [r2[|r2| - 1]];
    }
  }

  /** SortBy gives the only order a stable sort may produce: any sorted sequence that keeps
      the input order among equal keys is it. */
  lemma SortByIsTheStableSort<T>(s: seq<T>, r: seq<T>, key: T -> int)
    requires SortedBy(r, key)
    requires forall k :: WithKey(r, key, k) == WithKey(s, key, k)
    ensures r == SortBy(s, key)
  {
    forall k ensures WithKey(r, key, k) == WithKey(SortBy(s, key), key, k) {
      SortByStable(s, key, k);
    }
    SortedDeterminedByKeys(r, SortBy(s, key), key);
  }
}
