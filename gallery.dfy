/**
 * The gallery controller of src/App.jsx lifted out of React: every piece of
 * component state (`useState`) and every ref (`useRef`) the handlers use is a
 * field, and every handler is a method that updates those fields one after the
 * other, each `setX` taking effect at once.
 */
module GalleryController {
  import opened Wrappers
  import JsString
  import Catalog
  import Pagination
  import Favorites
  import opened Gestures
  import Navigation

  /** What the global keydown handler does with a key. */
  datatype KeyAction = KeyPrevious | KeyNext | KeyClose | KeyFavorite | KeyIgnored

  function KeyActionOf(key: string): KeyAction {
    if key == "ArrowLeft" then KeyPrevious
    else if key == "ArrowRight" then KeyNext
    else if key == "Escape" then KeyClose
    else if key == "f" || key == "F" then KeyFavorite
    else KeyIgnored
  }

  /** JavaScript truthiness of the pinch-distance ref: null and 0 are false. */
  predicate Truthy(d: Option<real>) {
    d.Some? && d.value != 0.0
  }

  class Gallery {
    // catalog and loading
    var data: seq<Catalog.CatalogItem>
    var loading: bool
    // viewport
    var expandedIndex: Option<int>
    var zoom: real
    var offset: Point
    // pagination
    var page: int
    var screenSize: Pagination.DeviceClass
    var favorites: seq<int>
    var showOnlyFavorites: bool
    // counter editor
    var isEditingCounter: bool
    var counterInput: string
    // refs: drag-pan session, swipe start and pinch distance
    var isPanning: bool
    var panStart: Point
    var panOffset: Point
    var touchStart: Point
    var lastTouchDistance: Option<real>

    /** The bounds every handler keeps: pages count from 1, the zoom stays in [1, 4], an open
        index is never negative and the favorites hold no index twice. */
    ghost predicate Bounded()
      reads this
    {
      && page >= 1
      && 1.0 <= zoom <= 4.0
      && (expandedIndex.Some? ==> expandedIndex.value >= 0)
      && Favorites.NoDuplicates(favorites)
    }

    /** The invariant every event keeps: the bounds, and outside a drag the shown offset is the
        committed one. Between the handlers of one event only the bounds need hold. */
    ghost predicate Valid()
      reads this
    {
      Bounded() && (!isPanning ==> offset == panOffset)
    }

    /** The first render, on a window `width` pixels wide. */
    constructor (width: int)
      ensures Valid()
      ensures data == [] && loading
      ensures expandedIndex == None && zoom == 1.0 && offset == Origin
      ensures page == 1 && screenSize == Pagination.ClassOf(width)
      ensures favorites == [] && !showOnlyFavorites
      ensures !isEditingCounter && counterInput == ""
      ensures !isPanning && panStart == Origin && panOffset == Origin
      ensures touchStart == Origin && lastTouchDistance == None
    {
      data := [];
      loading := true;
      expandedIndex := None;
      zoom := 1.0;
      offset := Origin;
      page := 1;
      screenSize := Pagination.ClassOf(width);
      favorites := [];
      showOnlyFavorites := false;
      isEditingCounter := false;
      counterInput := "";
      isPanning := false;
      panStart := Origin;
      panOffset := Origin;
      touchStart := Origin;
      lastTouchDistance := None;
    }

    /** ITEMS_PER_PAGE for the current screen size. */
    function ItemsPerPage(): int
      reads this
    {
      Pagination.PageSize(screenSize)
    }

    /** The records shown in the grid. */
    function PagedData(): seq<Catalog.CatalogItem>
      reads this
    {
      Pagination.PagedData(data, favorites, showOnlyFavorites, ItemsPerPage(), page)
    }

    /** The "load more" button is rendered while the window is shorter than the catalog. */
    predicate LoadMoreShown()
      reads this
    {
      |PagedData()| < |data|
    }

    /** The text the counter editor is seeded with: the open index counted from 1. */
    function CounterSeed(): string
      reads this
    {
      JsString.Show(Navigation.AsNumber(expandedIndex) + 1)
    }

    /** The keyboard handler acts only while an image is open and the counter is not being edited. */
    predicate KeyboardActive()
      reads this
    {
      expandedIndex.Some? && !isEditingCounter
    }

    /** The state goToImage(index) leaves: the index open on the page that contains it,
        zoom 1 and both offsets at the origin. */
    ghost predicate OpenedAt(index: int)
      reads this
    {
      && expandedIndex == Some(index)
      && page == Pagination.PageFor(index, ItemsPerPage())
      && zoom == 1.0 && offset == Origin && panOffset == Origin
    }

    /** The state goToImage may change is as it was. */
    twostate predicate ViewUnchanged()
      reads this
    {
      && expandedIndex == old(expandedIndex) && page == old(page)
      && zoom == old(zoom) && offset == old(offset) && panOffset == old(panOffset)
    }

    // -------------------------------------------------------------------------
    // Loading and resizing

    /** The fetch succeeded: the catalog is the manifest sorted by rank. */
    method FinishLoading(items: seq<Catalog.CatalogItem>)
      requires Valid() && Catalog.AllRanked(items)
      modifies this`data, this`loading
      ensures Valid()
      ensures data == Catalog.SortCatalog(items) && !loading
    {
      data := Catalog.SortCatalog(items);
      loading := false;
    }

    /** The fetch or the decoding failed: the catalog stays empty. */
    method FailLoading()
      requires Valid()
      modifies this`loading
      ensures Valid() && !loading
    {
      loading := false;
    }

    /** The resize listener. */
    method Resize(width: int)
      requires Valid()
      modifies this`screenSize
      ensures Valid() && screenSize == Pagination.ClassOf(width)
    {
      screenSize := Pagination.ClassOf(width);
    }

    // -------------------------------------------------------------------------
    // Navigation

    /** resetImageState: zoom back to 1 and both offsets to the origin. */
    method ResetImageState()
      requires Bounded()
      modifies this`zoom, this`offset, this`panOffset
      ensures Valid()
      ensures zoom == 1.0 && offset == Origin && panOffset == Origin
    {
      zoom := 1.0;
      offset := Origin;
      panOffset := Origin;
    }

    /** goToImage: set the page to the one containing `index` (raising or lowering it), open the
        index and reset the view. */
    method GoToImage(index: int)
      requires Bounded() && index >= 0
      modifies this`page, this`expandedIndex, this`zoom, this`offset, this`panOffset
      ensures Valid() && OpenedAt(index)
      ensures ItemsPerPage() * (page - 1) <= index < ItemsPerPage() * page
      ensures index < |data| && !showOnlyFavorites ==> index < |PagedData()| && PagedData()[index] == data[index]
    {
      var pageNeeded := Pagination.PageFor(index, ItemsPerPage());
      page := pageNeeded;
      expandedIndex := Some(index);
      ResetImageState();
      Pagination.PageForBounds(index, ItemsPerPage());
      if index < |data| {
        Pagination.PageForShowsIndex(data, favorites, index, ItemsPerPage());
      }
    }

    /** handlePrevious. */
    method HandlePrevious()
      requires Valid()
      modifies this`page, this`expandedIndex, this`zoom, this`offset, this`panOffset
      ensures Valid()
      ensures OpenedAt(Navigation.PreviousIndex(Navigation.AsNumber(old(expandedIndex))))
    {
      var newIndex := Navigation.AsNumber(expandedIndex) - 1;
      if newIndex < 0 {
        newIndex := Navigation.TotalImages - 1;
      }
      GoToImage(newIndex);
    }

    /** handleNext. */
    method HandleNext()
      requires Valid()
      modifies this`page, this`expandedIndex, this`zoom, this`offset, this`panOffset
      ensures Valid()
      ensures OpenedAt(Navigation.NextIndex(Navigation.AsNumber(old(expandedIndex))))
    {
      var newIndex := Navigation.AsNumber(expandedIndex) + 1;
      if newIndex >= Navigation.TotalImages {
        newIndex := 0;
      }
      GoToImage(newIndex);
    }

    /** Escape or a click on the backdrop: the viewer closes, zoom and offsets stay. */
    method Close()
      requires Valid()
      modifies this`expandedIndex
      ensures Valid() && expandedIndex == None
    {
      expandedIndex := None;
    }

    /** A click on a grid tile: open the first catalog record with the tile's image. */
    method OpenFromGrid(position: int)
      requires Valid() && 0 <= position < |PagedData()|
      modifies this`page, this`expandedIndex, this`zoom, this`offset, this`panOffset
      ensures Valid()
      ensures var img := old(PagedData())[position].img;
        var i := Catalog.FindIndexByImage(data, img);
        0 <= i < |data| && data[i].img == img && OpenedAt(i)
    {
      var item := PagedData()[position];
      GridItemInCatalog(position);
      var originalIdx := Catalog.FindIndexByImage(data, item.img);
      GoToImage(originalIdx);
    }

    lemma GridItemInCatalog(position: int)
      requires Valid() && 0 <= position < |PagedData()|
      ensures Catalog.FindIndexByImage(data, PagedData()[position].img) >= 0
    {
      Pagination.PagedDataIsPrefix(data, favorites, showOnlyFavorites, ItemsPerPage(), page);
      var item := PagedData()[position];
      var v := Pagination.Visible(data, favorites, showOnlyFavorites);
      assert item == v[position];
      if showOnlyFavorites {
        var idx := Pagination.FavoriteIndices(|data|, favorites);
        assert item == data[idx[position]];
      } else {
        assert item == data[position];
      }
    }

    // -------------------------------------------------------------------------
    // Pagination window

    /** The "load more" button: one more page, available while the window is shorter than
        the catalog. */
    method LoadMore() returns (shown: bool)
      requires Valid()
      modifies this`page
      ensures Valid()
      ensures shown == old(LoadMoreShown())
      ensures page == if shown then old(page) + 1 else old(page)
      ensures |old(PagedData())| <= |PagedData()| && old(PagedData()) == PagedData()[..|old(PagedData())|]
    {
      shown := LoadMoreShown();
      if shown {
        Pagination.LoadMoreGrows(data, favorites, showOnlyFavorites, ItemsPerPage(), page);
        page := page + 1;
      }
    }

    /** The favorites filter toggle: flip the filter and go back to page 1. */
    method ToggleFavoritesFilter()
      requires Valid()
      modifies this`showOnlyFavorites, this`page
      ensures Valid()
      ensures showOnlyFavorites == !old(showOnlyFavorites) && page == 1
    {
      showOnlyFavorites := !showOnlyFavorites;
      page := 1;
    }

    /** toggleFavorite. */
    method ToggleFavorite(index: int)
      requires Valid()
      modifies this`favorites
      ensures Valid()
      ensures favorites == Favorites.Toggle(old(favorites), index)
    {
      favorites := Favorites.Toggle(favorites, index);
    }

    // -------------------------------------------------------------------------
    // Counter editor

    /** handleCounterClick: start editing, seeded with the 1-based index. */
    method HandleCounterClick()
      requires Valid()
      modifies this`isEditingCounter, this`counterInput
      ensures Valid()
      ensures isEditingCounter && counterInput == CounterSeed()
    {
      isEditingCounter := true;
      SeedCounter();
    }

    /** Write the current 1-based index, String(expandedIndex + 1), into the input. */
    method SeedCounter()
      requires Valid()
      modifies this`counterInput
      ensures Valid() && counterInput == CounterSeed()
    {
      counterInput := JsString.Show(Navigation.AsNumber(expandedIndex) + 1);
    }

    /** The input's change handler. */
    method SetCounterInput(text: string)
      requires Valid()
      modifies this`counterInput
      ensures Valid() && counterInput == text
    {
      counterInput := text;
    }

    /** Escape inside the input: stop editing without a jump. */
    method CancelCounterEdit()
      requires Valid()
      modifies this`isEditingCounter
      ensures Valid() && !isEditingCounter
    {
      isEditingCounter := false;
    }

    /** handleCounterSubmit (Enter or blur): jump when the text parses to a number in
        [1, TOTAL_IMAGES], otherwise put the current 1-based index back in the input. */
    method HandleCounterSubmit()
      requires Valid()
      modifies this`page, this`expandedIndex, this`zoom, this`offset, this`panOffset
      modifies this`isEditingCounter, this`counterInput
      ensures Valid() && !isEditingCounter
      ensures Navigation.CounterTarget(old(counterInput)).Some? ==>
        OpenedAt(Navigation.CounterTarget(old(counterInput)).value) && counterInput == old(counterInput)
      ensures Navigation.CounterTarget(old(counterInput)).None? ==>
        ViewUnchanged() && counterInput == CounterSeed()
    {
      var target := Navigation.CounterTarget(counterInput);
      SubmitTarget(target);
    }

    /** The two outcomes of a submit, given the index the text selects (if any). */
    method SubmitTarget(target: Option<int>)
      requires Valid() && (target.Some? ==> target.value >= 0)
      modifies this`page, this`expandedIndex, this`zoom, this`offset, this`panOffset
      modifies this`isEditingCounter, this`counterInput
      ensures Valid() && !isEditingCounter
      ensures target.Some? ==> OpenedAt(target.value) && counterInput == old(counterInput)
      ensures target.None? ==> ViewUnchanged() && counterInput == CounterSeed()
    {
      if target.Some? {
        GoToImage(target.value);
      } else {
        SeedCounter();
      }
      isEditingCounter := false;
    }

    // -------------------------------------------------------------------------
    // Keyboard and clicks

    /** The global keydown handler. */
    method HandleKeyDown(key: string)
      requires Valid()
      modifies this`page, this`expandedIndex, this`zoom, this`offset, this`panOffset, this`favorites
      ensures Valid()
      ensures !old(KeyboardActive()) || KeyActionOf(key) == KeyIgnored ==>
        ViewUnchanged() && favorites == old(favorites)
      ensures old(KeyboardActive()) ==> match KeyActionOf(key) {
        case KeyPrevious => OpenedAt(Navigation.PreviousIndex(old(expandedIndex).value)) && favorites == old(favorites)
        case KeyNext => OpenedAt(Navigation.NextIndex(old(expandedIndex).value)) && favorites == old(favorites)
        case KeyClose => expandedIndex == None && zoom == old(zoom) && offset == old(offset)
          && panOffset == old(panOffset) && page == old(page) && favorites == old(favorites)
        case KeyFavorite => ViewUnchanged() && favorites == Favorites.Toggle(old(favorites), old(expandedIndex).value)
        case KeyIgnored => true
      }
    {
      if expandedIndex.Some? && !isEditingCounter {
        if key == "ArrowLeft" {
          HandlePrevious();
        }
        if key == "ArrowRight" {
          HandleNext();
        }
        if key == "Escape" {
          expandedIndex := None;
        }
        if key == "f" || key == "F" {
          ToggleFavorite(expandedIndex.value);
        }
      }
    }

    /** A click on the open image. At zoom 1 the left half goes back and the right half
        forward, and the click stops there; at any other zoom the handler returns early, the
        click reaches the backdrop and the viewer closes. */
    method ImageClick(clickX: int, width: int)
      requires Valid()
      modifies this`page, this`expandedIndex, this`zoom, this`offset, this`panOffset
      ensures Valid()
      ensures old(zoom) != 1.0 ==>
        expandedIndex == None && zoom == old(zoom) && offset == old(offset)
        && panOffset == old(panOffset) && page == old(page)
      ensures old(zoom) == 1.0 ==> match ClickHalf(clickX, width) {
        case GoPrevious => OpenedAt(Navigation.PreviousIndex(Navigation.AsNumber(old(expandedIndex))))
        case GoNext => OpenedAt(Navigation.NextIndex(Navigation.AsNumber(old(expandedIndex))))
        case Stay => false
      }
    {
      if zoom != 1.0 {
        Close();
        return;
      }
      if ClickHalf(clickX, width) == GoPrevious {
        HandlePrevious();
      } else {
        HandleNext();
      }
    }

    // -------------------------------------------------------------------------
    // Touch: swipe and pinch

    /** handleTouchStart: two fingers record their distance (`Math.hypot` of their offsets,
        given as `distance`), one finger records where the swipe starts. */
    method HandleTouchStart(touches: seq<Point>, distance: real)
      requires Valid()
      modifies this`lastTouchDistance, this`touchStart
      ensures Valid()
      ensures |touches| == 2 ==> lastTouchDistance == Some(distance) && touchStart == old(touchStart)
      ensures |touches| == 1 ==> touchStart == touches[0] && lastTouchDistance == old(lastTouchDistance)
      ensures |touches| != 1 && |touches| != 2 ==>
        touchStart == old(touchStart) && lastTouchDistance == old(lastTouchDistance)
    {
      if |touches| == 2 {
        lastTouchDistance := Some(distance);
      } else if |touches| == 1 {
        touchStart := touches[0];
      }
    }

    /** handleTouchMove: with two fingers and a recorded distance, scale the zoom by the ratio
        of the new distance to the last one, clamped to [1, 4]. */
    method HandleTouchMove(touches: seq<Point>, distance: real)
      requires Valid()
      modifies this`zoom, this`lastTouchDistance
      ensures Valid()
      ensures |touches| == 2 && Truthy(old(lastTouchDistance)) ==>
        zoom == PinchZoom(old(zoom), distance / old(lastTouchDistance).value) && lastTouchDistance == Some(distance)
      ensures !(|touches| == 2 && Truthy(old(lastTouchDistance))) ==>
        zoom == old(zoom) && lastTouchDistance == old(lastTouchDistance)
    {
      if |touches| == 2 && Truthy(lastTouchDistance) {
        var scaleChange := distance / lastTouchDistance.value;
        zoom := PinchZoom(zoom, scaleChange);
        lastTouchDistance := Some(distance);
      }
    }

    /** The navigation a lifted finger asks for: a swipe from the recorded start when exactly
        one touch changed, none otherwise. */
    function SwipeOf(changedTouches: seq<Point>): NavCommand
      reads this`touchStart
    {
      if |changedTouches| == 1 then ClassifySwipe(touchStart, changedTouches[0]) else Stay
    }

    /** handleTouchEnd as closed over a render in which expandedIndex was `shown`: while that
        render shows an image, navigate from it on a swipe and forget the pinch distance; while
        it shows none, do nothing at all. */
    method TouchEndFrom(shown: Option<int>, changedTouches: seq<Point>)
      requires Bounded() && (shown.Some? ==> shown.value >= 0)
      modifies this`page, this`expandedIndex, this`zoom, this`offset, this`panOffset, this`lastTouchDistance
      ensures Bounded() && (old(Valid()) ==> Valid())
      ensures shown.None? ==> ViewUnchanged() && lastTouchDistance == old(lastTouchDistance)
      ensures shown.Some? ==> lastTouchDistance == None && match SwipeOf(changedTouches) {
        case GoNext => OpenedAt(Navigation.NextIndex(shown.value))
        case GoPrevious => OpenedAt(Navigation.PreviousIndex(shown.value))
        case Stay => ViewUnchanged()
      }
    {
      if shown.None? {
        return;
      }
      if |changedTouches| == 1 {
        var touchEnd := changedTouches[0];
        var diffX := touchStart.x - touchEnd.x;
        var diffY := Abs(touchStart.y - touchEnd.y);
        if diffY < SwipeThreshold {
          if diffX > SwipeThreshold {
            GoToImage(Navigation.NextIndex(shown.value));
          } else if diffX < -SwipeThreshold {
            GoToImage(Navigation.PreviousIndex(shown.value));
          }
        }
      }
      lastTouchDistance := None;
    }

    /** handleTouchEnd, run first in its event (a touch lifted from the backdrop). */
    method HandleTouchEnd(changedTouches: seq<Point>)
      requires Valid()
      modifies this`page, this`expandedIndex, this`zoom, this`offset, this`panOffset, this`lastTouchDistance
      ensures Valid()
      ensures old(expandedIndex).None? ==> ViewUnchanged() && lastTouchDistance == old(lastTouchDistance)
      ensures old(expandedIndex).Some? ==> lastTouchDistance == None && match SwipeOf(changedTouches) {
        case GoNext => OpenedAt(Navigation.NextIndex(old(expandedIndex).value))
        case GoPrevious => OpenedAt(Navigation.PreviousIndex(old(expandedIndex).value))
        case Stay => ViewUnchanged()
      }
    {
      TouchEndFrom(expandedIndex, changedTouches);
    }

    /** handleWheel: while the viewer is open, move the zoom by `deltaY * -0.0015`, clamped. */
    method HandleWheel(deltaY: real)
      requires Valid()
      modifies this`zoom
      ensures Valid()
      ensures zoom == if old(expandedIndex).Some? then WheelZoom(old(zoom), deltaY) else old(zoom)
    {
      if expandedIndex.None? {
        return;
      }
      zoom := WheelZoom(zoom, deltaY);
    }

    // -------------------------------------------------------------------------
    // Drag pan (mouse and single touch)

    /** handleMouseDown: above zoom 1, start a drag anchored at the mouse position. */
    method MouseDown(p: Point)
      requires Valid()
      modifies this`isPanning, this`panStart
      ensures Valid()
      ensures old(zoom) <= 1.0 ==> isPanning == old(isPanning) && panStart == old(panStart)
      ensures old(zoom) > 1.0 ==> isPanning && panStart == p
    {
      if zoom <= 1.0 {
        return;
      }
      isPanning := true;
      panStart := p;
    }

    /** handleMouseMove: during a drag, show the committed offset moved by the mouse's
        displacement from the anchor. */
    method MouseMove(p: Point)
      requires Valid()
      modifies this`offset
      ensures Valid()
      ensures offset == if isPanning then Plus(panOffset, Minus(p, panStart)) else old(offset)
    {
      if !isPanning {
        return;
      }
      var d := Minus(p, panStart);
      offset := Plus(panOffset, d);
    }

    /** handleMouseUp or handleTouchPanEnd as closed over a render whose offset was `rendered`:
        end the drag and commit that offset. */
    method CommitPan(rendered: Point)
      requires Bounded()
      modifies this`isPanning, this`panOffset
      ensures Bounded() && !isPanning
      ensures panOffset == if old(isPanning) then rendered else old(panOffset)
    {
      if !isPanning {
        return;
      }
      isPanning := false;
      panOffset := rendered;
    }

    /** handleMouseUp (also on mouse leave): end the drag and commit the shown offset. */
    method MouseUp()
      requires Valid()
      modifies this`isPanning, this`panOffset
      ensures Valid() && !isPanning
      ensures panOffset == if old(isPanning) then offset else old(panOffset)
    {
      CommitPan(offset);
    }

    /** handleTouchPanStart: above zoom 1 and with exactly one finger, start a drag. */
    method TouchPanStart(touches: seq<Point>)
      requires Valid()
      modifies this`isPanning, this`panStart
      ensures Valid()
      ensures old(zoom) <= 1.0 || |touches| != 1 ==> isPanning == old(isPanning) && panStart == old(panStart)
      ensures old(zoom) > 1.0 && |touches| == 1 ==> isPanning && panStart == touches[0]
    {
      if zoom <= 1.0 || |touches| != 1 {
        return;
      }
      isPanning := true;
      panStart := touches[0];
    }

    /** handleTouchPanMove: during a drag and with exactly one finger, follow it. */
    method TouchPanMove(touches: seq<Point>)
      requires Valid()
      modifies this`offset
      ensures Valid()
      ensures offset == if isPanning && |touches| == 1 then Plus(panOffset, Minus(touches[0], panStart)) else old(offset)
    {
      if !isPanning || |touches| != 1 {
        return;
      }
      var d := Minus(touches[0], panStart);
      offset := Plus(panOffset, d);
    }

    /** handleTouchPanEnd: the same as handleMouseUp. */
    method TouchPanEnd()
      requires Valid()
      modifies this`isPanning, this`panOffset
      ensures Valid() && !isPanning
      ensures panOffset == if old(isPanning) then offset else old(panOffset)
    {
      MouseUp();
    }

    // -------------------------------------------------------------------------
    // Touch events on the open image. The image's handlers run first; none of them stops
    // the event, so it bubbles to the backdrop, whose touch handlers run next. Every closure
    // belongs to the same render and reads that render's state, whatever the earlier ones set.

    /** A touch starting on the image: handleTouchStart and handleTouchPanStart, then the
        backdrop's handleTouchStart. The repeated start records the same values again. */
    method ImageTouchStart(touches: seq<Point>, distance: real)
      requires Valid()
      modifies this`lastTouchDistance, this`touchStart, this`isPanning, this`panStart
      ensures Valid()
      ensures |touches| == 2 ==> lastTouchDistance == Some(distance) && touchStart == old(touchStart)
      ensures |touches| == 1 ==> touchStart == touches[0] && lastTouchDistance == old(lastTouchDistance)
      ensures |touches| != 1 && |touches| != 2 ==>
        touchStart == old(touchStart) && lastTouchDistance == old(lastTouchDistance)
      ensures old(zoom) <= 1.0 || |touches| != 1 ==> isPanning == old(isPanning) && panStart == old(panStart)
      ensures old(zoom) > 1.0 && |touches| == 1 ==> isPanning && panStart == touches[0]
    {
      HandleTouchStart(touches, distance);
      TouchPanStart(touches);
      HandleTouchStart(touches, distance);
    }

    /** A touch moving on the image: handleTouchMove and handleTouchPanMove, then the
        backdrop's handleTouchMove. The repeated pinch step divides the new distance by
        itself, so it leaves the zoom where the first one put it. */
    method ImageTouchMove(touches: seq<Point>, distance: real)
      requires Valid()
      modifies this`zoom, this`lastTouchDistance, this`offset
      ensures Valid()
      ensures |touches| == 2 && Truthy(old(lastTouchDistance)) ==>
        zoom == PinchZoom(old(zoom), distance / old(lastTouchDistance).value) && lastTouchDistance == Some(distance)
      ensures !(|touches| == 2 && Truthy(old(lastTouchDistance))) ==>
        zoom == old(zoom) && lastTouchDistance == old(lastTouchDistance)
      ensures offset == if isPanning && |touches| == 1 then Plus(panOffset, Minus(touches[0], panStart)) else old(offset)
    {
      HandleTouchMove(touches, distance);
      ghost var pinched := zoom;
      TouchPanMove(touches);
      if |touches| == 2 && Truthy(lastTouchDistance) {
        PinchZoomUnitRatio(pinched, distance);
      }
      HandleTouchMove(touches, distance);
    }

    /** A touch lifted from the image: handleTouchEnd and handleTouchPanEnd, then the
        backdrop's handleTouchEnd. The pan end commits the render's offset; on a swipe, the
        backdrop's run repeats the same navigation, whose reset puts the committed offset back
        at the origin. */
    method ImageTouchEnd(changedTouches: seq<Point>)
      requires Valid()
      modifies this`page, this`expandedIndex, this`zoom, this`offset, this`panOffset
      modifies this`lastTouchDistance, this`isPanning
      ensures Valid() && !isPanning
      ensures old(expandedIndex).None? ==>
        && expandedIndex == None && page == old(page) && zoom == old(zoom) && offset == old(offset)
        && panOffset == old(offset) && lastTouchDistance == old(lastTouchDistance)
      ensures old(expandedIndex).Some? ==> lastTouchDistance == None && match SwipeOf(changedTouches) {
        case GoNext => OpenedAt(Navigation.NextIndex(old(expandedIndex).value))
        case GoPrevious => OpenedAt(Navigation.PreviousIndex(old(expandedIndex).value))
        case Stay =>
          && expandedIndex == old(expandedIndex) && page == old(page) && zoom == old(zoom)
          && offset == old(offset) && panOffset == old(offset)
      }
    {
      var shown := expandedIndex;
      var rendered := offset;
      TouchEndFrom(shown, changedTouches);
      CommitPan(rendered);
      TouchEndFrom(shown, changedTouches);
    }
  }

  // ---------------------------------------------------------------------------
  // Sequences of events

  /** Opening the counter and submitting it untouched re-opens the image that was shown. */
  method SubmitUneditedSeed(g: Gallery)
    requires g.Valid() && g.expandedIndex.Some? && g.expandedIndex.value < Navigation.TotalImages
    modifies g
    ensures g.Valid() && !g.isEditingCounter && g.OpenedAt(old(g.expandedIndex).value)
  {
    g.HandleCounterClick();
    Navigation.CounterSeedRoundTrip(g.expandedIndex.value);
    g.HandleCounterSubmit();
  }

  /** Two one-finger drags on a zoomed open image, each of which moves and neither of which is
      a swipe: the second continues from where the first was released, so the committed offset
      is the sum of both displacements. */
  method TwoTouchDrags(g: Gallery, a1: Point, b1: Point, a2: Point, b2: Point)
    requires g.Valid() && g.expandedIndex.Some? && g.zoom > 1.0
    requires Minus(b1, a1) != Origin && Minus(b2, a2) != Origin
    requires ClassifySwipe(a1, b1) == Stay && ClassifySwipe(a2, b2) == Stay
    modifies g
    ensures g.Valid() && !g.isPanning
    ensures g.expandedIndex == old(g.expandedIndex) && g.zoom == old(g.zoom)
    ensures g.panOffset == Plus(Plus(old(g.panOffset), Minus(b1, a1)), Minus(b2, a2))
    ensures g.offset == g.panOffset
  {
    g.ImageTouchStart([a1], 0.0);
    g.ImageTouchMove([b1], 0.0);
    g.ImageTouchEnd([b1]);
    g.ImageTouchStart([a2], 0.0);
    g.ImageTouchMove([b2], 0.0);
    g.ImageTouchEnd([b2]);
  }

  /** Open the first image on a desktop window and zoom in with the wheel. */
  method ZoomedFirstImage() returns (g: Gallery)
    ensures fresh(g) && g.Valid()
    ensures g.expandedIndex == Some(0) && g.zoom == 2.5 && !g.isPanning
    ensures g.offset == Origin && g.panOffset == Origin
  {
    g := new Gallery(1200);
    g.GoToImage(0);
    g.HandleWheel(-1000.0);
    assert g.zoom == 2.5;
  }

  /** Open the first image on a desktop window, zoom in with the wheel and put one finger
      down on the image at (100, 100). */
  method ZoomedTouch() returns (g: Gallery)
    ensures fresh(g) && g.Valid()
    ensures g.expandedIndex == Some(0) && g.zoom == 2.5 && g.isPanning
    ensures g.offset == Origin && g.panOffset == Origin
    ensures g.touchStart == Point(100, 100) && g.panStart == Point(100, 100)
  {
    g := ZoomedFirstImage();
    var start := Point(100, 100);
    g.ImageTouchStart([start], 0.0);
  }

  /** Open the first image on a desktop window, zoom in with the wheel and drag one finger
      200 px to the right and 10 px down, without lifting it. */
  method ZoomedDrag() returns (g: Gallery)
    ensures fresh(g) && g.Valid()
    ensures g.expandedIndex == Some(0) && g.zoom == 2.5 && g.isPanning
    ensures g.offset == Point(200, 10) && g.panOffset == Origin && g.touchStart == Point(100, 100)
  {
    g := ZoomedTouch();
    var start := Point(100, 100);
    var finger := Point(300, 110);
    var touches := [finger];
    assert |touches| == 1 && touches[0] == finger;
    assert Plus(g.panOffset, Minus(finger, g.panStart)) == Point(200, 10);
    g.ImageTouchMove(touches, 0.0);
  }

  /** The finger of that drag lifted: the drag is also a swipe to the right, so the viewer moves
      to the previous image, which opens unzoomed and unpanned; no offset of the drag stays
      committed. */
  method SwipeWhilePanned() returns (g: Gallery)
    ensures g.Valid() && g.expandedIndex == Some(Navigation.TotalImages - 1)
    ensures g.zoom == 1.0 && g.offset == Origin && g.panOffset == Origin
  {
    g := ZoomedDrag();
    var finger := Point(300, 110);
    assert g.SwipeOf([finger]) == GoPrevious;
    g.ImageTouchEnd([finger]);
  }
}
