/**
 * The pagination window: the page size chosen by device class, the favorites
 * filter and the prefix slice that make up `pagedData` (src/App.jsx:60-66,
 * 78-99), and the page that makes a catalog index visible (src/App.jsx:158).
 */
module Pagination {

  /** The screen-size state: "mobile", "tablet" or "desktop". */
  datatype DeviceClass = Mobile | Tablet | Desktop

  /** The class of a viewport width: below 640 mobile, below 1024 tablet, otherwise desktop. */
  function ClassOf(width: int): (c: DeviceClass)
    ensures c == Mobile <==> width < 640
    ensures c == Tablet <==> 640 <= width < 1024
    ensures c == Desktop <==> 1024 <= width
  {
    if width < 640 then Mobile else if width < 1024 then Tablet else Desktop
  }

  /** ITEMS_PER_PAGE: 20 on mobile, 24 on tablet, 30 on desktop. */
  function PageSize(c: DeviceClass): (n: int)
    ensures n > 0
  {
    match c
    case Mobile => 20
    case Tablet => 24
    case Desktop => 30
  }

  /** ITEMS_PER_PAGE as a function of the window width. */
  lemma PageSizeOfWidth(width: int)
    ensures PageSize(ClassOf(width)) == if width < 640 then 20 else if width < 1024 then 24 else 30
  {
  }

  /** A wider viewport never gets a smaller page. */
  lemma PageSizeMonotone(w1: int, w2: int)
    requires w1 <= w2
    ensures PageSize(ClassOf(w1)) <= PageSize(ClassOf(w2))
  {
  }

  /** The catalog indices below `n` that are in `favorites`, ascending. */
  function FavoriteIndices(n: nat, favorites: seq<int>): (r: seq<nat>)
    ensures forall i, j :: 0 <= i < j < |r| ==> r[i] < r[j]
    ensures forall i :: 0 <= i < |r| ==> r[i] < n
    ensures forall i: int :: i in r <==> 0 <= i < n && i in favorites
    ensures |r| <= n
  {
    if n == 0 then []
    else
      var r' := FavoriteIndices(n - 1, favorites);
      if n - 1 in favorites then r' + [n - 1] else r'
  }

  /** `data.filter((_, idx) => favorites.includes(idx))`: the favorite records in catalog order. */
  function FilterFavorites<T>(data: seq<T>, favorites: seq<int>): (r: seq<T>)
    ensures var idx := FavoriteIndices(|data|, favorites);
      |r| == |idx| && forall j :: 0 <= j < |r| ==> idx[j] < |data| && r[j] == data[idx[j]]
  {
    if data == [] then []
    else
      var n := |data| - 1;
      var r' := FilterFavorites(data[..n], favorites);
      if n in favorites then r' + [data[n]] else r'
  }

  /** The sequence the window is cut from: the favorites when the filter is on, else the catalog. */
  function Visible<T>(data: seq<T>, favorites: seq<int>, onlyFavorites: bool): seq<T> {
    if onlyFavorites then FilterFavorites(data, favorites) else data
  }

  function Min(a: int, b: int): int {
    if a <= b then a else b
  }

  /** Array.prototype.slice(0, end): a negative end counts back from the length. */
  function SliceTo<T>(s: seq<T>, end: int): seq<T> {
    var stop := if end < 0 then (if |s| + end < 0 then 0 else |s| + end) else Min(end, |s|);
    s[..stop]
  }

  /** pagedData: `filtered.slice(0, ITEMS_PER_PAGE * page)`. */
  function PagedData<T>(data: seq<T>, favorites: seq<int>, onlyFavorites: bool, itemsPerPage: int, page: int): seq<T> {
    SliceTo(Visible(data, favorites, onlyFavorites), itemsPerPage * page)
  }

  /** For a non-negative page the window is the first min(|visible|, itemsPerPage * page)
      records of the visible sequence. */
  lemma PagedDataIsPrefix<T>(data: seq<T>, favorites: seq<int>, onlyFavorites: bool, itemsPerPage: int, page: int)
    requires itemsPerPage > 0 && page >= 0
    ensures var v := Visible(data, favorites, onlyFavorites);
      var w := PagedData(data, favorites, onlyFavorites, itemsPerPage, page);
      |w| == Min(|v|, itemsPerPage * page) && w == v[..|w|]
  {
    assert itemsPerPage * page >= 0;
  }

  /** Load more never shrinks the window: the old window is a prefix of the new one, which
      is longer whenever the old one did not show everything. */
  lemma LoadMoreGrows<T>(data: seq<T>, favorites: seq<int>, onlyFavorites: bool, itemsPerPage: int, page: int)
    requires itemsPerPage > 0 && page >= 0
    ensures var v := Visible(data, favorites, onlyFavorites);
      var before := PagedData(data, favorites, onlyFavorites, itemsPerPage, page);
      var after := PagedData(data, favorites, onlyFavorites, itemsPerPage, page + 1);
      |before| <= |after| && before == after[..|before|]
      && (|before| < |v| ==> |before| < |after|)
  {
    PagedDataIsPrefix(data, favorites, onlyFavorites, itemsPerPage, page);
    PagedDataIsPrefix(data, favorites, onlyFavorites, itemsPerPage, page + 1);
    assert itemsPerPage * (page + 1) == itemsPerPage * page + itemsPerPage;
  }

  /** Math.ceil(a / b) for a positive divisor. */
  function CeilDiv(a: int, b: int): (q: int)
    requires b > 0
    ensures b * (q - 1) < a <= b * q
  {
    var f := (-a) / b;
    assert b * f <= -a < b * f + b;
    -f
  }

  /** pageNeeded: `Math.ceil((index + 1) / ITEMS_PER_PAGE)`. */
  function PageFor(index: int, itemsPerPage: int): int
    requires itemsPerPage > 0
  {
    CeilDiv(index + 1, itemsPerPage)
  }

  /** The page for an index is the first page whose window reaches the index. */
  lemma PageForBounds(index: int, itemsPerPage: int)
    requires index >= 0 && itemsPerPage > 0
    ensures var p := PageFor(index, itemsPerPage);
      p >= 1 && itemsPerPage * (p - 1) <= index < itemsPerPage * p
  {
  }

  /** With the filter off, the window at the page for a catalog index shows that record
      at that position. */
  lemma PageForShowsIndex<T>(data: seq<T>, favorites: seq<int>, index: int, itemsPerPage: int)
    requires 0 <= index < |data| && itemsPerPage > 0
    ensures var w := PagedData(data, favorites, false, itemsPerPage, PageFor(index, itemsPerPage));
      index < |w| && w[index] == data[index]
  {
    PageForBounds(index, itemsPerPage);
    PagedDataIsPrefix(data, favorites, false, itemsPerPage, PageFor(index, itemsPerPage));
  }
}
