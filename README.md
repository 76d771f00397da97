# AFK Arena art gallery: a verified model of the gallery controller

The gallery is a single React component (`src/App.jsx`). It loads a manifest of
portrait records, sorts them by the rank written in each record's label, and
shows them in a paged grid that grows by one page per "load more" click. The
grid can be filtered to favorites. Clicking a tile opens a full-screen viewer.
The viewer steps through the images with wrap-around at the fixed
`TOTAL_IMAGES = 693`, by keyboard, buttons, clicks, swipes or a typed image
number. It zooms with the wheel or a pinch, clamped to [1, 4], and pans by
dragging once zoomed.

This project models that controller with the page layout taken away:

| file | module | what it holds |
|---|---|---|
| `wrappers.dfy` | `Wrappers` | `Option` |
| `js_string.dfy` | `JsString` | the ECMAScript string operations the component relies on: TrimString whitespace, `trim`, first-occurrence `replace`, `parseInt` (section 19.2.5 of ECMA-262) and `String(n)` for integers |
| `stable_sort.dfy` | `StableSort` | a stable sort by an integer key, with sortedness, permutation, stability and uniqueness proved. `Array.prototype.sort` has been stable since ECMA-262 2019 (section 23.1.3.30 in the 2023 edition) |
| `catalog.dfy` | `Catalog` | the manifest record, the rank a label carries, the catalog order, `findIndex` by image |
| `pagination.dfy` | `Pagination` | screen-size classes, `ITEMS_PER_PAGE`, the favorites filter, the page window, the page an index lives on |
| `favorites.dfy` | `Favorites` | the favorites toggle |
| `gestures.dfy` | `Gestures` | points, the swipe classifier, the half-image click rule, the zoom clamp |
| `navigation.dfy` | `Navigation` | next and previous with wrap-around, the counter's jump target |
| `gallery.dfy` | `GalleryController` | `class Gallery`: one field per piece of component state or ref, one method per event handler, and short event sequences |

The pure parts of the component (the `useMemo` window, the sort comparator, the
index arithmetic, the parse) are functions, with lemmas stating their
properties. The handlers change state step by step, so they are methods of
`GalleryController.Gallery` with field-level `modifies` frames. Each method
states the whole new value of every field it may change. Every event keeps
`Gallery.Valid()`: pages count from 1, the zoom is in [1, 4], an open index is
not negative, the favorites hold no index twice (together `Gallery.Bounded()`),
and outside a drag the shown offset equals the committed one. Between the
handlers of one touch event on the image only `Bounded()` need hold.

Modelling decisions:

- Each `setX` takes effect at once, and later statements of a handler see the
  new value. Within one handler, state is read only before it is written.
- Some DOM events run several handlers. A touch on the open image runs the
  image's `onTouchStart`/`onTouchMove`/`onTouchEnd` and then, since none of
  them stops the event, the backdrop's `handleTouchStart`/`handleTouchMove`/
  `handleTouchEnd`. All of these closures belong to one render and read that
  render's `expandedIndex` and `offset`, whatever the earlier ones set. The
  methods `ImageTouchStart`, `ImageTouchMove` and `ImageTouchEnd` run the whole
  dispatch. They capture the render's values and pass them to
  `TouchEndFrom` and `CommitPan`. A click on the image is dispatched in the
  same way in `ImageClick`.
- `expandedIndex` is an `Option<int>`. Where the source does arithmetic on it
  while it may be `null` (`null - 1`, `null + 1`), `Navigation.AsNumber` reads
  `None` as 0, like JavaScript.
- Zoom values are exact reals. Touch and mouse coordinates are integers.
- `Math.hypot` of the two touch points is a parameter (`distance`) of the
  touch handlers. The image's bounding box is the parameter pair
  `clickX`/`width` of `ImageClick`. The window width is a parameter.
- `TOTAL_IMAGES` is the constant 693, as in the source. It does not depend on
  how many records the manifest holds.
- JavaScript integers are unbounded here. `parseInt` is exact, and `String(n)`
  is the plain decimal form.

## Model

| member | source | states |
|---|---|---|
| `JsString.TrimStart` | src/App.jsx:126-127 | the result is a suffix of the input, everything removed is whitespace, and the result does not start with whitespace |
| `JsString.TrimEnd` | src/App.jsx:126-127 | the result is a prefix of the input, everything removed is whitespace, and the result does not end with whitespace |
| `JsString.Trim` | src/App.jsx:126 | `trim` never lengthens the text, the result neither starts nor ends with whitespace, and it is empty exactly when the text is all whitespace; `TrimPadded` gives its value on padded text |
| `JsString.TrimPadded` | src/App.jsx:126-127 | `trim` removes exactly the whitespace padding around text that neither starts nor ends with whitespace |
| `JsString.IndexOf` | src/App.jsx:126-127 | the result is the first position where the pattern occurs, or none when it occurs nowhere |
| `JsString.ReplaceFirst` | src/App.jsx:126-127 | only the first occurrence of the pattern is replaced; the text is unchanged when the pattern does not occur |
| `JsString.ReplaceFirstAtStart` | src/App.jsx:126-127 | removing a pattern that starts the string leaves exactly the rest of the string |
| `JsString.DigitRunLength` | src/App.jsx:248 | the result is the length of the longest prefix made of digits of the radix |
| `JsString.ParseInt` | src/App.jsx:248 | `parseInt` with radix 10 or without a radix; `ParseIntNaN` says when it is NaN, `ParseIntOfShow` and `ParseIntShowRoundTrip` what it returns on a decimal form, `ParseSignedIgnoresRadix` when the radix does not matter |
| `JsString.ShowNat` | src/App.jsx:244 | `String(n)` of a natural number: at least one character, all decimal digits, whose value is `n`, with no leading zero |
| `JsString.Show` | src/App.jsx:244 | `String(n)` is non-empty, ends with a digit and does not start with whitespace |
| `JsString.ParseIntOfShow` | src/App.jsx:248 | `parseInt(w + String(n) + rest, 10)` is `n` for any whitespace `w` and any `rest` that does not start with a digit |
| `JsString.ParseIntShowRoundTrip` | src/App.jsx:244-248 | `parseInt(String(n), 10) == n` for every integer `n` |
| `JsString.ParseIntShowWithoutRadix` | src/App.jsx:126 | `parseInt(String(n))` without a radix is also `n`: the decimal form never has a `0x` prefix |
| `JsString.ParseTrimmedShow` | src/App.jsx:126 | `parseInt(trim(w + String(n) + w'))` is `n` for whitespace `w`, `w'` |
| `JsString.ParseIntNaN` | src/App.jsx:248-249 | `parseInt(s, 10)` is NaN exactly when no decimal digit follows the leading whitespace and the optional sign |
| `JsString.ParseSignedIgnoresRadix` | src/App.jsx:126 | without a `0x`/`0X` prefix, leaving the radix out gives the same result as radix 10 |
| `StableSort.InsertBy` | src/App.jsx:125-129 | inserting an element gives a permutation of the old sequence plus that element |
| `StableSort.InsertBySorted` | src/App.jsx:125-129 | inserting into a key-sorted sequence keeps it key-sorted |
| `StableSort.SortBy` | src/App.jsx:125-129 | the result is sorted by key and a permutation of the input |
| `StableSort.SortByStable` | src/App.jsx:125-129 | for every key, the elements with that key appear in the result in their input order |
| `StableSort.SortedDeterminedByKeys` | src/App.jsx:125-129 | two key-sorted sequences with the same per-key subsequences are equal |
| `StableSort.SortByIsTheStableSort` | src/App.jsx:125-129 | any key-sorted sequence that keeps the input order within each key is the sort's result |
| `Catalog.RankOfLabel` | src/App.jsx:126-127 | a label "Rank:" + whitespace + `String(n)` + whitespace has rank `n` |
| `Catalog.StripRankPrefix` | src/App.jsx:126 | `replace("Rank:", "")` on a label that starts with "Rank:" leaves the rest of the label |
| `Catalog.RankOf` | src/App.jsx:126-127 | the rank a record's label carries, `parseInt(ranking.replace("Rank:", "").trim())`; `RankOfLabel` gives it for every label of the form "Rank:" + padded `String(n)` |
| `Catalog.RankedPermutation` | src/App.jsx:125-129 | a permutation of records whose labels all parse has all labels parsing |
| `Catalog.SortCatalog` | src/App.jsx:125-129 | the loaded catalog is a permutation of the manifest, all its ranks parse, and it is ascending by rank |
| `Catalog.SortCatalogStable` | src/App.jsx:125-129 | records of equal rank keep their manifest order |
| `Catalog.SortCatalogUnique` | src/App.jsx:125-129 | the catalog order is the only ascending order that keeps manifest order among equal ranks |
| `Catalog.FindIndexByImage` | src/App.jsx:501 | the result is -1 exactly when no record has the image; otherwise it is the first record with that image |
| `Pagination.ClassOf` | src/App.jsx:60-66 | mobile exactly below 640 px, tablet exactly from 640 up to 1024 px, desktop exactly from 1024 px |
| `Pagination.PageSize` | src/App.jsx:78-79 | `ITEMS_PER_PAGE` is positive for every class |
| `Pagination.PageSizeOfWidth` | src/App.jsx:60-79 | the page size is 20 below 640 px, 24 from 640 up to 1024 px, and 30 from 1024 px |
| `Pagination.PageSizeMonotone` | src/App.jsx:78-79 | a larger screen never gets a smaller page |
| `Pagination.FavoriteIndices` | src/App.jsx:84-86 | the kept indices are strictly increasing, in range, and are exactly the in-range favorites |
| `Pagination.FilterFavorites` | src/App.jsx:84-86 | the filtered records are exactly those at the kept indices, in catalog order |
| `Pagination.PagedData` | src/App.jsx:82-88 | the grid window, the first `ITEMS_PER_PAGE * page` visible records; `PagedDataIsPrefix` and `LoadMoreGrows` carry its properties |
| `Pagination.PagedDataIsPrefix` | src/App.jsx:82-88 | the window is the first min(visible, `ITEMS_PER_PAGE * page`) visible records |
| `Pagination.LoadMoreGrows` | src/App.jsx:82-88 | one more page keeps the old window as a prefix, and the window grows whenever it did not already show everything |
| `Pagination.CeilDiv` | src/App.jsx:158 | `Math.ceil(a / b)` is the `q` with `b * (q - 1) < a <= b * q` |
| `Pagination.PageFor` | src/App.jsx:158 | the page `goToImage` picks, `Math.ceil((index + 1) / ITEMS_PER_PAGE)`; `PageForBounds` and `PageForShowsIndex` carry its properties |
| `Pagination.PageForBounds` | src/App.jsx:158 | the page `goToImage` picks for index `i` holds `i`: `ipp * (page - 1) <= i < ipp * page`, and the page is at least 1 |
| `Pagination.PageForShowsIndex` | src/App.jsx:156-160 | without the filter, the window on that page contains catalog record `i` at position `i` |
| `Favorites.Without` | src/App.jsx:260 | `filter(i => i !== index)` removes every copy of the index, keeps every other membership, returns the list unchanged when the index is absent, keeps "no duplicates" and never grows |
| `Favorites.Toggle` | src/App.jsx:258-262 | the index is a favorite afterwards exactly when it was not before; every other index keeps its membership; no index appears twice |
| `Favorites.ToggleTwiceMembership` | src/App.jsx:258-262 | toggling twice restores every membership |
| `Favorites.ToggleTwiceRestores` | src/App.jsx:258-262 | toggling an index that was not a favorite twice restores the exact list |
| `Favorites.ToggleTwiceMovesToEnd` | src/App.jsx:258-262 | toggling a favorite twice moves it to the end of the list |
| `Gestures.ClassifySwipe` | src/App.jsx:209-218 | a swipe navigates only when it is flatter than 50 px and longer than 50 px; a leftward swipe goes next and a rightward one goes previous |
| `Gestures.SwipeComplete` | src/App.jsx:212-218 | every flat and long swipe navigates, in the direction of its horizontal motion |
| `Gestures.SwipeReversed` | src/App.jsx:212-218 | the same gesture traced backwards navigates the other way |
| `Gestures.SwipeTranslationInvariant` | src/App.jsx:212-218 | only the displacement of the finger matters |
| `Gestures.ClickHalf` | src/App.jsx:752-755 | at zoom 1 every click on the image navigates somewhere |
| `Gestures.ClickHalfMirror` | src/App.jsx:752-755 | clicks mirrored about the centre go in opposite directions, and the exact centre goes next |
| `Gestures.ClampZoom` | src/App.jsx:201-226 | the clamp lands in [1, 4], keeps values already in range, and saturates at 1 below and at 4 above |
| `Gestures.WheelZoom` | src/App.jsx:226 | the wheel step always lands in [1, 4]; `WheelZoomSaturates` and `WheelZoomMonotone` carry its other properties |
| `Gestures.PinchZoom` | src/App.jsx:201 | the pinch step always lands in [1, 4]; `PinchZoomUnitRatio` shows a unit ratio leaves it unchanged |
| `Gestures.WheelZoomSaturates` | src/App.jsx:226 | a deltaY of -2000 or less reaches zoom 4 exactly, and +2000 or more reaches zoom 1, from any zoom in range |
| `Gestures.PinchZoomUnitRatio` | src/App.jsx:196-203 | a pinch step whose distance equals the recorded one leaves the zoom unchanged |
| `Gestures.WheelZoomMonotone` | src/App.jsx:226 | scrolling further up never gives a smaller zoom |
| `Navigation.NextIndex` | src/App.jsx:176-182 | from any index of -1 and above the result is in [0, 693); inside the range it is `(i + 1) mod 693` |
| `Navigation.PreviousIndex` | src/App.jsx:168-174 | from any index up to 693 the result is in [0, 693); inside the range it is `(i - 1) mod 693` |
| `Navigation.NextPreviousInverse` | src/App.jsx:168-182 | on the index range next and previous undo each other |
| `Navigation.NextTimesCycles` | src/App.jsx:176-182 | `k` presses of next move `k` places round the cycle of 693 |
| `Navigation.CounterTarget` | src/App.jsx:247-250 | a jump target is always a valid index |
| `Navigation.JumpTarget` | src/App.jsx:249 | a parsed number selects only a valid index; `CounterTargetOfTyped`, `CounterTargetOfShow` and `CounterTargetRefuses` say which |
| `Navigation.CounterTargetOfTyped` | src/App.jsx:248-250 | a typed number, after any whitespace and before any non-digit text, selects image `n - 1` exactly when `1 <= n <= 693` |
| `Navigation.CounterSeedRoundTrip` | src/App.jsx:244-250 | the seed `String(index + 1)` jumps back to `index` |
| `Navigation.CounterTargetOfShow` | src/App.jsx:248-250 | the decimal form of any integer `n` selects what `n` itself selects |
| `Navigation.CounterTargetRefuses` | src/App.jsx:249-253 | the decimal form of any number outside [1, 693], 0 and 694 included, selects nothing, so the input reverts |
| `GalleryController.Gallery.constructor` | src/App.jsx:54-75 | the first render: empty catalog, loading, viewer closed, zoom 1, page 1, the screen class of the window, no favorites, no drag |
| `GalleryController.KeyActionOf` | src/App.jsx:232-235 | the key names the keydown handler acts on; `Gallery.HandleKeyDown` states each one's effect |
| `GalleryController.Gallery.FinishLoading` | src/App.jsx:124-131 | after a successful fetch the catalog is the manifest in rank order, and loading ends |
| `GalleryController.Gallery.FailLoading` | src/App.jsx:133-136 | after a failed fetch only loading changes |
| `GalleryController.Gallery.Resize` | src/App.jsx:93-99 | the screen class follows the window width |
| `GalleryController.Gallery.ResetImageState` | src/App.jsx:150-154 | zoom 1 and both offsets at the origin, with the invariant kept |
| `GalleryController.Gallery.GoToImage` | src/App.jsx:156-166 | the index is open on the page that holds it (which may be lower than the current page), the view is reset, and without the filter the window shows that record |
| `GalleryController.Gallery.HandlePrevious` | src/App.jsx:168-174 | the previous index (693 - 1 from 0 or from a closed viewer) is open, as by `goToImage` |
| `GalleryController.Gallery.HandleNext` | src/App.jsx:176-182 | the next index (0 from 692) is open, as by `goToImage` |
| `GalleryController.Gallery.Close` | src/App.jsx:723 | the viewer closes; zoom and offsets stay as they were |
| `GalleryController.Gallery.OpenFromGrid` | src/App.jsx:500-505 | clicking a tile opens the first catalog record with the tile's image, and that record exists |
| `GalleryController.Gallery.GridItemInCatalog` | src/App.jsx:500-501 | every record in the grid window is in the catalog, so `findIndex` never gives -1 for a tile |
| `GalleryController.Gallery.LoadMore` | src/App.jsx:649-651 | the button is there exactly while the window is shorter than the catalog; clicking it adds one page, and the old window stays a prefix of the new one |
| `GalleryController.Gallery.ToggleFavoritesFilter` | src/App.jsx:365-368 | the filter flips and the page returns to 1 |
| `GalleryController.Gallery.ToggleFavorite` | src/App.jsx:258-262 | the favorites become `Favorites.Toggle` of the old list, without duplicates |
| `GalleryController.Gallery.HandleCounterClick` | src/App.jsx:242-245 | editing starts, seeded with the 1-based index |
| `GalleryController.Gallery.SeedCounter` | src/App.jsx:253 | the input holds `String(expandedIndex + 1)`, with nothing else changed |
| `GalleryController.Gallery.SetCounterInput` | src/App.jsx:781 | the input holds the typed text |
| `GalleryController.Gallery.CancelCounterEdit` | src/App.jsx:783-786 | Escape in the input stops editing without a jump |
| `GalleryController.Gallery.HandleCounterSubmit` | src/App.jsx:247-256 | a number in [1, 693] opens its image as `goToImage` would; any other text leaves the view alone and puts the 1-based index back in the input; editing ends either way |
| `GalleryController.Gallery.SubmitTarget` | src/App.jsx:249-255 | given the parsed target: a target opens as `goToImage` would, no target leaves the view alone and reseeds the input; editing ends either way |
| `GalleryController.Gallery.HandleKeyDown` | src/App.jsx:229-240 | nothing changes while the viewer is closed or the counter is being edited. Otherwise ArrowLeft and ArrowRight navigate, Escape closes, `f`/`F` toggles the open index, and any other key does nothing |
| `GalleryController.Gallery.ImageClick` | src/App.jsx:749-756 | at zoom 1 the left half goes back and the right half forward. At any other zoom the click reaches the backdrop and the viewer closes, with the view left as it was |
| `GalleryController.Gallery.HandleTouchStart` | src/App.jsx:184-193 | two fingers record their distance, one finger records the swipe start, and any other count changes nothing |
| `GalleryController.Gallery.HandleTouchMove` | src/App.jsx:195-204 | with two fingers and a non-zero recorded distance, the zoom scales by the distance ratio, clamped, and the new distance is recorded; otherwise nothing changes |
| `GalleryController.Gallery.TouchEndFrom` | src/App.jsx:206-221 | `handleTouchEnd` of a render that showed no image changes nothing. For a render that showed image `i`, a swipe navigates from `i` as `ClassifySwipe` says, anything else leaves the view alone, and the pinch distance is forgotten |
| `GalleryController.Gallery.HandleTouchEnd` | src/App.jsx:206-221 | a touch lifted from the backdrop: with the viewer closed nothing changes. Otherwise a swipe navigates as `ClassifySwipe` says, anything else leaves the view alone, and the pinch distance is forgotten |
| `GalleryController.Gallery.HandleWheel` | src/App.jsx:223-227 | with the viewer open the zoom moves by `deltaY * -0.0015`, clamped; with it closed nothing changes |
| `GalleryController.Gallery.MouseDown` | src/App.jsx:16-20 | a drag starts, anchored at the mouse position, only above zoom 1 |
| `GalleryController.Gallery.MouseMove` | src/App.jsx:22-27 | during a drag the shown offset is the committed offset plus the mouse's displacement |
| `GalleryController.Gallery.CommitPan` | src/App.jsx:29-52 | the pan end of a render whose offset was `o` ends the drag and commits `o`; without a drag nothing changes |
| `GalleryController.Gallery.MouseUp` | src/App.jsx:29-33 | the drag ends and the shown offset becomes the committed one |
| `GalleryController.Gallery.TouchPanStart` | src/App.jsx:35-39 | a single-finger drag starts only above zoom 1 |
| `GalleryController.Gallery.TouchPanMove` | src/App.jsx:41-46 | during a drag with one finger the shown offset follows that finger |
| `GalleryController.Gallery.TouchPanEnd` | src/App.jsx:48-52 | the drag ends and the shown offset becomes the committed one |
| `GalleryController.Gallery.ImageTouchStart` | src/App.jsx:724-764 | a touch starting on the image records the swipe start or the pinch distance as `handleTouchStart` does, and starts a drag as `handleTouchPanStart` does; the backdrop's repeated `handleTouchStart` changes nothing more |
| `GalleryController.Gallery.ImageTouchMove` | src/App.jsx:725-768 | a touch moving on the image pinches as `handleTouchMove` does and drags as `handleTouchPanMove` does; the backdrop's repeated pinch step leaves the zoom where the first put it |
| `GalleryController.Gallery.ImageTouchEnd` | src/App.jsx:726-772 | a touch lifted from the image ends any drag. On a swipe the viewer opens the next or previous image, unzoomed, with both offsets at the origin. Otherwise the view stays and the shown offset becomes the committed one. With the viewer closed only the drag ends. The invariant holds afterwards |
| `GalleryController.SubmitUneditedSeed` | src/App.jsx:242-256 | opening the counter and submitting it untouched re-opens the shown image with the view reset |
| `GalleryController.TwoTouchDrags` | src/App.jsx:724-772 | two one-finger drags on the zoomed image, each of which moves and neither a swipe, commit the sum of their displacements, and the view stays on the same image at the same zoom |
| `GalleryController.ZoomedFirstImage` | src/App.jsx:223-227 | opening image 0 and scrolling the wheel by -1000 gives zoom 2.5 with the view unpanned |
| `GalleryController.ZoomedTouch` | src/App.jsx:724-764 | one finger down on the zoomed image records the swipe start and starts a drag at the same point |
| `GalleryController.ZoomedDrag` | src/App.jsx:725-768 | moving that finger by (200, 10) shows the image offset by (200, 10), with nothing committed yet |
| `GalleryController.SwipeWhilePanned` | src/App.jsx:726-772 | lifting that finger is also a swipe: the viewer ends on the previous image (692) at zoom 1, with both the shown and the committed offset at the origin |

## Left out

- Rendering: the JSX tree, the styles, hover state (`hoveredIndex`, `loadMoreHover`), light mode and the "No favorites yet" placeholder. They change no state that the handlers read.
- The `document.body` style effects (lines 104-119 and 139-148). They are side effects on the page, not gallery state.
- The fetch of `/data.json` and the JSON decoding. They are I/O. The model starts from the decoded records (`FinishLoading`) or from the failure (`FailLoading`).
- The image prefetch in `goToImage` (`new Image().src`, lines 162-163). It is a network side effect with no effect on state.
- `Math.hypot` and `getBoundingClientRect`. These are browser geometry. Their results are parameters.
- React's scheduling: batching of updates, re-renders between events, and `useCallback` dependency lists. The model assumes a render between any two events. Within one event, closures read their render's state as described above.
- The events a browser adds around a mouse drag on the image. The source neither cancels `mousedown` nor marks the image non-draggable, so a browser may start its native image drag. After a `mouseup` on the image a `click` follows, and at zoom other than 1 that click reaches the backdrop and closes the viewer (`ImageClick`). The mouse handlers `MouseDown`, `MouseMove` and `MouseUp` are modelled one by one. No scenario strings a mouse drag together, because what the browser sends in between is not part of this model.
- The events a browser sends after a tap, and its tap range. A touch that does not move, or moves less than the browser's tap range, is followed by mouse events and a `click` on the image. At zoom other than 1 that click closes the viewer through `ImageClick`. `TwoTouchDrags` therefore requires each drag to move, and the model does not decide how far a touch must move before the browser stops treating it as a tap.
- The default "desktop" when `window` is undefined (line 61). This is server-side rendering, where no viewer exists.
- `Catalog.SortCatalog`: requires every label to parse. With a NaN rank the comparator returns NaN, and the resulting order is implementation-defined.
- `GalleryController.Gallery.FinishLoading`: requires every rank label of the manifest to parse, because it sorts with `Catalog.SortCatalog`. A manifest with an unparsable label is not modelled.
- `JsString.Show`: gives the plain decimal form of every integer. `String(n)` switches to exponent notation from 10^21 on, far beyond any index here.
- `JsString.ParseInt`: is exact on any number of digits. ECMA-262 lets an engine approximate past 20 significant digits, and converts the result to a double.
- `Gestures.ClampZoom`, `Gestures.WheelZoom`, `Gestures.PinchZoom`: work on exact reals, not IEEE doubles. Rounding of `deltaY * -0.0015` is not modelled.
- `Pagination.CeilDiv`: is exact integer ceiling division. `Math.ceil` on a double quotient agrees with it for all indices of this size.
- `GalleryController.Gallery.GoToImage`: promises that the record is visible only without the favorites filter. With the filter on, the page comes from the catalog index rather than the filtered position, so the source makes no such promise.
