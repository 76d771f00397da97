/**
 * The favorites list: catalog indices kept in an integer list that
 * toggleFavorite updates by filter or append (src/App.jsx:258-262).
 */
module Favorites {

  predicate NoDuplicates(s: seq<int>) {
    forall i, j :: 0 <= i < j < |s| ==> s[i] != s[j]
  }

  /** `prev.filter((i) => i !== index)`. */
  function Without(s: seq<int>, x: int): (r: seq<int>)
    ensures x !in r
    ensures forall y :: y != x ==> (y in r <==> y in s)
    ensures x !in s ==> r == s
    ensures NoDuplicates(s) ==> NoDuplicates(r)
    ensures |r| <= |s|
  {
    if s == [] then []
    else
      var r' := Without(s[..|s| - 1], x);
      assert s == s[..|s| - 1] + [s[|s| - 1]];
      assert NoDuplicates(s) ==> s[|s| - 1] !in s[..|s| - 1] && s[|s| - 1] !in r';
      if s[|s| - 1] == x then r' else r' + [s[|s| - 1]]
  }

  /** toggleFavorite's update: remove the index if present, else append it. */
  function Toggle(favorites: seq<int>, index: int): (r: seq<int>)
    ensures index in r <==> index !in favorites
    ensures forall y :: y != index ==> (y in r <==> y in favorites)
    ensures NoDuplicates(favorites) ==> NoDuplicates(r)
  {
    if index in favorites then Without(favorites, index) else favorites + [index]
  }

  /** Toggling the same index twice restores membership of every index. */
  lemma ToggleTwiceMembership(favorites: seq<int>, index: int, y: int)
    ensures y in Toggle(Toggle(favorites, index), index) <==> y in favorites
  {
  }

  /** When the index was not a favorite, toggling it twice restores the exact list. */
  lemma ToggleTwiceRestores(favorites: seq<int>, index: int)
    requires index !in favorites
    ensures Toggle(Toggle(favorites, index), index) == favorites
  {
    var once := favorites + [index];
    assert index in once;
    WithoutLast(favorites, index);
  }

  /** When the index was a favorite (once), toggling it twice moves it to the end. */
  lemma ToggleTwiceMovesToEnd(favorites: seq<int>, index: int)
    requires index in favorites
    ensures Toggle(Toggle(favorites, index), index) == Without(favorites, index) + [index]
  {
  }

  lemma WithoutLast(s: seq<int>, x: int)
    requires x !in s
    ensures Without(s + [x], x) == s
  {
    assert (s + [x])[..|s|] == s;
  }
}
