/**
 * The catalog loader's pure part: the rank carried by each manifest record and
 * the order the loaded catalog is put in, ascending by that rank with equal
 * ranks in manifest order (src/App.jsx:125-129).
 */
module Catalog {
  import opened Wrappers
  import JsString
  import StableSort

  /** One record of the manifest: `{img, name, ranking, votes}`. */
  datatype CatalogItem = CatalogItem(img: string, name: string, ranking: string, votes: string)

  /** parseInt(ranking.replace("Rank:", "").trim()), with `None` for NaN. */
  function RankOf(item: CatalogItem): Option<int> {
    JsString.ParseInt(JsString.Trim(JsString.ReplaceFirst(item.ranking, "Rank:", "")), JsString.Unspecified)
  }

  /** A label of the manifest's form "Rank:<spaces><n><spaces>" carries the rank n. */
  lemma RankOfLabel(item: CatalogItem, w: string, n: int, w': string)
    requires JsString.AllWhiteSpace(w) && JsString.AllWhiteSpace(w')
    requires item.ranking == "Rank:" + w + JsString.Show(n) + w'
    ensures RankOf(item) == Some(n)
  {
    StripRankPrefix(item.ranking, w, JsString.Show(n), w');
    JsString.ParseTrimmedShow(w, n, w');
  }

  lemma StripRankPrefix(ranking: string, w: string, s: string, w': string)
    requires ranking == "Rank:" + w + s + w'
    ensures JsString.ReplaceFirst(ranking, "Rank:", "") == w + s + w'
  {
    assert ranking == "Rank:" + (w + s + w');
    JsString.ReplaceFirstAtStart("Rank:", w + s + w');
  }

  predicate Ranked(item: CatalogItem) {
    RankOf(item).Some?
  }

  predicate AllRanked(s: seq<CatalogItem>) {
    forall i :: 0 <= i < |s| ==> Ranked(s[i])
  }

  /** The sort key: the parsed rank (0 stands in for NaN, which the sort below never meets). */
  function RankKey(item: CatalogItem): int {
    match RankOf(item)
    case Some(v) => v
    case None => 0
  }

  lemma RankedPermutation(a: seq<CatalogItem>, b: seq<CatalogItem>)
    requires AllRanked(a) && multiset(a) == multiset(b)
    ensures AllRanked(b)
  {
    forall i | 0 <= i < |b| ensures Ranked(b[i]) {
      assert b[i] in multiset(a);
      var j :| 0 <= j < |a| && a[j] == b[i];
    }
  }

  /** `[...data].sort((a, b) => rankA - rankB)` on a manifest whose rank labels all parse:
      the same records, every one still ranked, ascending by rank. */
  function SortCatalog(items: seq<CatalogItem>): (r: seq<CatalogItem>)
    requires AllRanked(items)
    ensures multiset(r) == multiset(items)
    ensures AllRanked(r)
    ensures StableSort.SortedBy(r, RankKey)
  {
    var sorted := StableSort.SortBy(items, RankKey);
    RankedPermutation(items, sorted);
    sorted
  }

  /** Equal ranks keep their manifest order: the records of each rank appear in the
      catalog exactly as, and in the order, they appear in the manifest. */
  lemma SortCatalogStable(items: seq<CatalogItem>, k: int)
    requires AllRanked(items)
    ensures StableSort.WithKey(SortCatalog(items), RankKey, k) == StableSort.WithKey(items, RankKey, k)
  {
    StableSort.SortByStable(items, RankKey, k);
  }

  /** The catalog order is the only result a conforming engine may give: any rank-sorted
      sequence that keeps the manifest order among equal ranks is the catalog. */
  lemma SortCatalogUnique(items: seq<CatalogItem>, r: seq<CatalogItem>)
    requires AllRanked(items)
    requires StableSort.SortedBy(r, RankKey)
    requires forall k :: StableSort.WithKey(r, RankKey, k) == StableSort.WithKey(items, RankKey, k)
    ensures r == SortCatalog(items)
  {
    StableSort.SortByIsTheStableSort(items, r, RankKey);
  }

  /** `data.findIndex((item) => item.img === img)`: the first record showing that image, or -1. */
  function FindIndexByImage(data: seq<CatalogItem>, img: string): (r: int)
    ensures -1 <= r < |data|
    ensures r == -1 <==> forall i :: 0 <= i < |data| ==> data[i].img != img
    ensures r >= 0 ==> data[r].img == img && forall i :: 0 <= i < r ==> data[i].img != img
  {
    if data == [] then -1
    else if data[0].img == img then 0
    else
      var r' := FindIndexByImage(data[1..], img);
      assert forall i :: 1 <= i < |data| ==> data[i] == data[1..][i - 1];
      if r' == -1 then -1 else r' + 1
  }
}
