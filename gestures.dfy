/**
 * The integer parts of gesture interpretation: the single-finger swipe
 * classifier (src/App.jsx:206-221), the click-half rule at zoom 1
 * (src/App.jsx:749-756), and the clamp that keeps the zoom factor in [1, 4]
 * (src/App.jsx:201, 226).
 */
module Gestures {

  /** A client position in whole pixels. */
  datatype Point = Point(x: int, y: int)

  const Origin := Point(0, 0)

  function Plus(a: Point, b: Point): Point {
    Point(a.x + b.x, a.y + b.y)
  }

  function Minus(a: Point, b: Point): Point {
    Point(a.x - b.x, a.y - b.y)
  }

  function Abs(v: int): int {
    if v < 0 then -v else v
  }

  /** A discrete navigation command. */
  datatype NavCommand = GoNext | GoPrevious | Stay

  function Opposite(n: NavCommand): NavCommand {
    match n
    case GoNext => GoPrevious
    case GoPrevious => GoNext
    case Stay => Stay
  }

  /** More than this many pixels sideways, and less than this many vertically, make a swipe. */
  const SwipeThreshold := 50

  /** The swipe test of handleTouchEnd: with diffX = startX - endX and diffY = |startY - endY|,
      diffY < 50 and diffX > 50 mean next, diffY < 50 and diffX < -50 mean previous. */
  function ClassifySwipe(start: Point, end: Point): (nav: NavCommand)
    ensures nav != Stay ==> Abs(start.y - end.y) < SwipeThreshold && Abs(start.x - end.x) > SwipeThreshold
    ensures nav == GoNext ==> end.x < start.x
    ensures nav == GoPrevious ==> start.x < end.x
  {
    var diffX := start.x - end.x;
    var diffY := Abs(start.y - end.y);
    if diffY < SwipeThreshold then
      if diffX > SwipeThreshold then GoNext
      else if diffX < -SwipeThreshold then GoPrevious
      else Stay
    else Stay
  }

  /** Every long-enough, flat-enough swipe navigates: the classifier misses no swipe. */
  lemma SwipeComplete(start: Point, end: Point)
    requires Abs(start.y - end.y) < SwipeThreshold && Abs(start.x - end.x) > SwipeThreshold
    ensures ClassifySwipe(start, end) == (if end.x < start.x then GoNext else GoPrevious)
  {
  }

  /** The same gesture traced backwards navigates the other way. */
  lemma SwipeReversed(start: Point, end: Point)
    ensures ClassifySwipe(end, start) == Opposite(ClassifySwipe(start, end))
  {
  }

  /** Only the displacement matters, not where on the screen the finger went down. */
  lemma SwipeTranslationInvariant(start: Point, end: Point, d: Point)
    ensures ClassifySwipe(Plus(start, d), Plus(end, d)) == ClassifySwipe(start, end)
  {
  }

  /** The click rule at zoom 1: the left half (`clickX < rect.width / 2`) goes back, the rest forward. */
  function ClickHalf(clickX: int, width: int): (nav: NavCommand)
    ensures nav != Stay
  {
    if clickX * 2 < width then GoPrevious else GoNext
  }

  /** Clicks mirrored about the centre navigate in opposite directions; the exact centre
      counts as the right half. */
  lemma ClickHalfMirror(clickX: int, width: int)
    ensures clickX * 2 != width ==> ClickHalf(width - clickX, width) == Opposite(ClickHalf(clickX, width))
    ensures clickX * 2 == width ==> ClickHalf(clickX, width) == GoNext
  {
  }

  /** `Math.min(Math.max(v, 1), 4)`. */
  function ClampZoom(v: real): (r: real)
    ensures 1.0 <= r <= 4.0
    ensures 1.0 <= v <= 4.0 ==> r == v
    ensures v < 1.0 ==> r == 1.0
    ensures v > 4.0 ==> r == 4.0
  {
    var atLeastOne := if v > 1.0 then v else 1.0;
    if atLeastOne < 4.0 then atLeastOne else 4.0
  }

  /** handleWheel's update: `prev + deltaY * -0.0015`, clamped. */
  function WheelZoom(zoom: real, deltaY: real): (r: real)
    ensures 1.0 <= r <= 4.0
  {
    ClampZoom(zoom + deltaY * -0.0015)
  }

  /** handleTouchMove's update: `prev * scaleChange`, clamped. */
  function PinchZoom(zoom: real, scaleChange: real): (r: real)
    ensures 1.0 <= r <= 4.0
  {
    ClampZoom(zoom * scaleChange)
  }

  /** A pinch step whose new distance equals the recorded one leaves the zoom as it is. */
  lemma PinchZoomUnitRatio(zoom: real, distance: real)
    requires 1.0 <= zoom <= 4.0 && distance != 0.0
    ensures PinchZoom(zoom, distance / distance) == zoom
  {
    assert distance / distance == 1.0;
  }

  /** A large enough scroll reaches a bound exactly and never overshoots it. */
  lemma WheelZoomSaturates(zoom: real, deltaY: real)
    requires 1.0 <= zoom <= 4.0
    ensures deltaY <= -2000.0 ==> WheelZoom(zoom, deltaY) == 4.0
    ensures deltaY >= 2000.0 ==> WheelZoom(zoom, deltaY) == 1.0
  {
  }

  /** Scrolling further up never zooms out less. */
  lemma WheelZoomMonotone(zoom: real, d1: real, d2: real)
    requires d1 <= d2
    ensures WheelZoom(zoom, d2) <= WheelZoom(zoom, d1)
  {
  }
}
