/**
 * The index arithmetic of the viewport controller: next and previous with
 * wrap-around at the fixed TOTAL_IMAGES (src/App.jsx:80, 168-182), and the
 * counter's jump target (src/App.jsx:247-256).
 */
module Navigation {
  import opened Wrappers
  import JsString

  /** TOTAL_IMAGES: the wrap-around bound, fixed independently of the catalog's length. */
  const TotalImages: int := 693

  /** The number `expandedIndex` stands for in arithmetic: JavaScript's `null + 1` is 1. */
  function AsNumber(expanded: Option<int>): int {
    match expanded
    case None => 0
    case Some(i) => i
  }

  /** handleNext's index: one more, or 0 from TOTAL_IMAGES - 1 and beyond. */
  function NextIndex(current: int): (r: int)
    ensures current >= -1 ==> 0 <= r < TotalImages
    ensures 0 <= current < TotalImages ==> r == (current + 1) % TotalImages
  {
    var candidate := current + 1;
    if candidate >= TotalImages then 0 else candidate
  }

  /** handlePrevious's index: one less, or TOTAL_IMAGES - 1 from 0 and below. */
  function PreviousIndex(current: int): (r: int)
    ensures current <= TotalImages ==> 0 <= r < TotalImages
    ensures 0 <= current < TotalImages ==> r == (current - 1 + TotalImages) % TotalImages
  {
    var candidate := current - 1;
    if candidate < 0 then TotalImages - 1 else candidate
  }

  /** On the index range, next and previous undo each other. */
  lemma NextPreviousInverse(i: int)
    requires 0 <= i < TotalImages
    ensures PreviousIndex(NextIndex(i)) == i
    ensures NextIndex(PreviousIndex(i)) == i
  {
  }

  /** `k` presses of next from index `i`. */
  function NextTimes(i: int, k: nat): int {
    if k == 0 then i else NextIndex(NextTimes(i, k - 1))
  }

  /** Pressing next k times moves k places round the cycle; TOTAL_IMAGES presses come back. */
  lemma {:induction false} NextTimesCycles(i: int, k: nat)
    requires 0 <= i < TotalImages
    ensures NextTimes(i, k) == (i + k) % TotalImages
  {
    if k > 0 {
      NextTimesCycles(i, k - 1);
      var j := (i + k - 1) % TotalImages;
      assert NextIndex(j) == (j + 1) % TotalImages;
      ModSuccessor(i + k - 1);
    }
  }

  lemma ModSuccessor(a: int)
    requires a >= 0
    ensures (a % TotalImages + 1) % TotalImages == (a + 1) % TotalImages
  {
    var q := a / TotalImages;
    assert a == q * TotalImages + a % TotalImages;
  }

  /** The index a submitted counter text jumps to: parseInt(text, 10) - 1 when that
      number is in [1, TOTAL_IMAGES]; `None` (revert the input) otherwise, NaN included. */
  function CounterTarget(input: string): (r: Option<int>)
    ensures r.Some? ==> 0 <= r.value < TotalImages
  {
    JumpTarget(JsString.ParseInt(input, JsString.Ten))
  }

  /** The range check on the parsed number: a 1-based image number in [1, TOTAL_IMAGES]. */
  function JumpTarget(num: Option<int>): (r: Option<int>)
    ensures r.Some? ==> 0 <= r.value < TotalImages
  {
    match num
    case None => None
    case Some(n) => if 1 <= n <= TotalImages then Some(n - 1) else None
  }

  /** A typed number behind any whitespace and before any non-digit text selects its own image
      exactly when it is in range. */
  lemma CounterTargetOfTyped(w: string, n: int, rest: string)
    requires JsString.AllWhiteSpace(w)
    requires rest == [] || !JsString.IsDecimalDigit(rest[0])
    ensures CounterTarget(w + JsString.Show(n) + rest) == if 1 <= n <= TotalImages then Some(n - 1) else None
  {
    JsString.ParseIntOfShow(w, n, rest);
    CounterTargetOfParse(w + JsString.Show(n) + rest, n);
    JumpTargetOfNumber(n);
  }

  lemma CounterTargetOfParse(input: string, n: int)
    requires JsString.ParseInt(input, JsString.Ten) == Some(n)
    ensures CounterTarget(input) == JumpTarget(Some(n))
  {
  }

  /** A parsed number selects image n - 1 exactly when it is in [1, TOTAL_IMAGES]. */
  lemma JumpTargetOfNumber(n: int)
    ensures JumpTarget(Some(n)) == if 1 <= n <= TotalImages then Some(n - 1) else None
  {
  }

  /** The decimal form of any integer jumps to where that number says. */
  lemma CounterTargetOfShow(n: int)
    ensures CounterTarget(JsString.Show(n)) == JumpTarget(Some(n))
  {
    JsString.ParseIntShowRoundTrip(n);
    CounterTargetOfParse(JsString.Show(n), n);
  }

  /** The seed the counter click writes, String(index + 1), jumps back to that index. */
  lemma CounterSeedRoundTrip(index: int)
    requires 0 <= index < TotalImages
    ensures CounterTarget(JsString.Show(index + 1)) == Some(index)
  {
    CounterTargetOfShow(index + 1);
    JumpTargetOfNumber(index + 1);
  }

  /** The decimal form of a number outside [1, TOTAL_IMAGES] (0 and TOTAL_IMAGES + 1
      included) is refused, and the input reverts. */
  lemma CounterTargetRefuses(n: int)
    requires n < 1 || TotalImages < n
    ensures CounterTarget(JsString.Show(n)) == None
  {
    CounterTargetOfShow(n);
    JumpTargetOfNumber(n);
  }
}
