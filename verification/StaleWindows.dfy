/** Which windows the user has touched since the model last looked at them
    (crates/codex-platform/src/computer_use_helper.rs, `mark_user_input`, `clear_user_input`,
    `user_input_requires_refresh`, `remember_capture`, `map_screenshot_point`).

    Up to a bound the stale windows are stored. After the first overflow the set is turned
    round: every window is stale except the stored ones. */
module StaleWindows {

  import opened Wrappers

  const MAX_STALE_INPUT_WINDOWS: nat := 64
  const I32_MAX: nat := 0x7FFF_FFFF

  type WindowId = string

  datatype Capture = Capture(
    window: WindowId, screenshot: string,
    width: nat, height: nat, windowWidth: nat, windowHeight: nat)

  datatype Tracker = Tracker(stored: set<WindowId>, allStale: bool, capture: Option<Capture>)

  function Fresh(): Tracker { Tracker({}, false, None) }

  function Mark(t: Tracker, w: WindowId): Tracker {
    var capture := if t.capture.Some? && t.capture.value.window == w then None else t.capture;
    if t.allStale then Tracker(t.stored - {w}, true, capture)
    else if w in t.stored then t.(capture := capture)
    else if |t.stored| >= MAX_STALE_INPUT_WINDOWS then Tracker({}, true, capture)
    else Tracker(t.stored + {w}, false, capture)
  }

  function Clear(t: Tracker, w: WindowId): Tracker {
    if t.allStale
    then t.(stored := (if |t.stored| >= MAX_STALE_INPUT_WINDOWS then {} else t.stored) + {w})
    else t.(stored := t.stored - {w})
  }

  function Remember(t: Tracker, capture: Capture): Tracker {
    Clear(t, capture.window).(capture := Some(capture))
  }

  predicate RequiresRefresh(t: Tracker, w: WindowId) {
    if t.allStale then w !in t.stored else w in t.stored
  }

  datatype Op = Input(window: WindowId) | Refresh(window: WindowId) | Captured(capture: Capture)

  function Apply(t: Tracker, op: Op): Tracker {
    match op
    case Input(w) => Mark(t, w)
    case Refresh(w) => Clear(t, w)
    case Captured(capture) => Remember(t, capture)
  }

  function Run(ops: seq<Op>): Tracker {
    if ops == [] then Fresh() else Apply(Run(ops[..|ops| - 1]), ops[|ops| - 1])
  }

  // ----- what the answers mean, told from the history alone -----

  /** There was input to the window since its last refresh or capture. */
  predicate Dirty(ops: seq<Op>, w: WindowId) {
    if ops == [] then false
    else
      match ops[|ops| - 1]
      case Input(x) => x == w || Dirty(ops[..|ops| - 1], w)
      case Refresh(x) => x != w && Dirty(ops[..|ops| - 1], w)
      case Captured(capture) => capture.window != w && Dirty(ops[..|ops| - 1], w)
  }

  /** The last capture, unless there was input to its window since. */
  function UntouchedCapture(ops: seq<Op>): Option<Capture> {
    if ops == [] then None
    else
      match ops[|ops| - 1]
      case Captured(capture) => Some(capture)
      case Refresh(_) => UntouchedCapture(ops[..|ops| - 1])
      case Input(w) =>
        var before := UntouchedCapture(ops[..|ops| - 1]);
        if before.Some? && before.value.window == w then None else before
  }

  /** A tracker's answer for one window, against whether that window is dirty. */
  ghost predicate Reports(t: Tracker, w: WindowId, dirty: bool) {
    && |t.stored| <= MAX_STALE_INPUT_WINDOWS
    && (dirty ==> RequiresRefresh(t, w))
    && (!t.allStale ==> (RequiresRefresh(t, w) <==> dirty))
  }

  lemma MarkReports(t: Tracker, x: WindowId, w: WindowId, dirty: bool)
    requires Reports(t, w, dirty)
    ensures Reports(Mark(t, x), w, x == w || dirty)
  {
    assert x in t.stored ==> |t.stored - {x}| == |t.stored| - 1;
    assert x !in t.stored ==> t.stored - {x} == t.stored && |t.stored + {x}| == |t.stored| + 1;
  }

  lemma ClearReports(t: Tracker, x: WindowId, w: WindowId, dirty: bool)
    requires Reports(t, w, dirty)
    ensures Reports(Clear(t, x), w, x != w && dirty)
  {
    assert x in t.stored ==> |t.stored - {x}| == |t.stored| - 1 && t.stored + {x} == t.stored;
    assert x !in t.stored ==> t.stored - {x} == t.stored && |t.stored + {x}| == |t.stored| + 1;
    assert |{} + {x}| == 1;
  }

  /** Every window with input since its last refresh is reported, whatever the history, with at
      most 64 ids stored; before the first overflow nothing else is; and the retained capture is
      the last one, kept exactly while its window has had no input. */
  lemma {:induction false} TouchedWindowsAreReported(ops: seq<Op>, w: WindowId)
    ensures Reports(Run(ops), w, Dirty(ops, w))
    ensures Run(ops).capture == UntouchedCapture(ops)
  {
    if ops != [] {
      var before := ops[..|ops| - 1];
      TouchedWindowsAreReported(before, w);
      match ops[|ops| - 1] {
        case Input(x) => MarkReports(Run(before), x, w, Dirty(before, w));
        case Refresh(x) => ClearReports(Run(before), x, w, Dirty(before, w));
        case Captured(capture) => ClearReports(Run(before), capture.window, w, Dirty(before, w));
      }
    }
  }

  /** The set overflows exactly when a 65th window is touched while 64 are stale. */
  lemma OverflowNeedsSixtyFive(ops: seq<Op>, w: WindowId)
    requires !Run(ops).allStale
    ensures Run(ops + [Input(w)]).allStale <==> !Dirty(ops, w) && |Run(ops).stored| == MAX_STALE_INPUT_WINDOWS
    ensures forall x :: x in Run(ops).stored <==> Dirty(ops, x)
  {
    assert (ops + [Input(w)])[..|ops|] == ops;
    TouchedWindowsAreReported(ops, w);
    forall x ensures x in Run(ops).stored <==> Dirty(ops, x) {
      TouchedWindowsAreReported(ops, x);
    }
  }

  /** The event empties the set of stored ids: the first overflow, or a refresh that finds 64
      ids stored after it. */
  predicate Flushes(t: Tracker, op: Op) {
    |t.stored| >= MAX_STALE_INPUT_WINDOWS &&
    match op
    case Input(w) => !t.allStale && w !in t.stored
    case Refresh(_) => t.allStale
    case Captured(_) => t.allStale
  }

  function Later(t: Tracker, ops: seq<Op>): Tracker
    decreases |ops|
  {
    if ops == [] then t else Later(Apply(t, ops[0]), ops[1..])
  }

  ghost predicate LeavesAlone(t: Tracker, w: WindowId, ops: seq<Op>)
    decreases |ops|
  {
    ops == [] || (ops[0] != Input(w) && !Flushes(t, ops[0]) && LeavesAlone(Apply(t, ops[0]), w, ops[1..]))
  }

  /** A refresh takes effect in either mode, and lasts until the window is touched again or the
      stored set is flushed. */
  lemma RefreshLasts(t: Tracker, w: WindowId, later: seq<Op>)
    requires LeavesAlone(Clear(t, w), w, later)
    ensures !RequiresRefresh(Later(Clear(t, w), later), w)
  {
    NotReportedLasts(Clear(t, w), w, later);
  }

  lemma {:induction false} NotReportedLasts(t: Tracker, w: WindowId, later: seq<Op>)
    requires !RequiresRefresh(t, w) && LeavesAlone(t, w, later)
    ensures !RequiresRefresh(Later(t, later), w)
    decreases |later|
  {
    if later != [] {
      NotReportedLasts(Apply(t, later[0]), w, later[1..]);
    }
  }

  // ----- mapping a point of the captured screenshot -----

  datatype PointError = StaleScreenshot | InvalidInput

  function Scale(x: nat, from: nat, to: nat): nat
    requires from > 0
  {
    x * to / from
  }

  function MapPoint(t: Tracker, w: WindowId, screenshot: string, x: int, y: int): Result<(nat, nat), PointError> {
    if t.capture.None? || t.capture.value.window != w || t.capture.value.screenshot != screenshot
    then Err(StaleScreenshot)
    else
      var c := t.capture.value;
      if x < 0 || y < 0 || x >= c.width || y >= c.height || c.windowWidth == 0 || c.windowHeight == 0
      then Err(InvalidInput)
      else
        var mappedX, mappedY := Scale(x, c.width, c.windowWidth), Scale(y, c.height, c.windowHeight);
        var pointX := if mappedX < c.windowWidth - 1 then mappedX else c.windowWidth - 1;
        var pointY := if mappedY < c.windowHeight - 1 then mappedY else c.windowHeight - 1;
        if pointX > I32_MAX || pointY > I32_MAX then Err(InvalidInput) else Ok((pointX, pointY))
  }

  lemma MulMonotone(a: nat, b: nat, c: nat)
    requires a <= b
    ensures a * c <= b * c
  {
    assert (b - a) * c >= 0;
  }

  lemma DivMulBounds(a: nat, c: nat)
    requires c > 0
    ensures a / c * c <= a < (a / c + 1) * c
  {
    assert a == a / c * c + a % c;
    assert (a / c + 1) * c == a / c * c + c;
  }

  // Scaling rounds down.
  lemma ScaleRoundsDown(x: nat, from: nat, to: nat)
    requires from > 0
    ensures Scale(x, from, to) * from <= x * to < (Scale(x, from, to) + 1) * from
  {
    DivMulBounds(x * to, from);
  }

  lemma ScaleStaysBelow(x: nat, from: nat, to: nat)
    requires x < from && to > 0
    ensures Scale(x, from, to) < to
  {
    var q := Scale(x, from, to);
    DivMulBounds(x * to, from);
    MulMonotone(x + 1, from, to);
    assert (x + 1) * to == x * to + to;
    if q >= to {
      MulMonotone(to, q, from);
    }
  }

  lemma ScaleIsMonotone(x: nat, y: nat, from: nat, to: nat)
    requires from > 0 && x <= y
    ensures Scale(x, from, to) <= Scale(y, from, to)
  {
    var p, q := Scale(x, from, to), Scale(y, from, to);
    DivMulBounds(x * to, from);
    DivMulBounds(y * to, from);
    MulMonotone(x, y, to);
    if p > q {
      MulMonotone(q + 1, p, from);
    }
  }

  /** A point is mapped only through the last capture, while its window is untouched; it lands
      in the window, by plain scaling. */
  lemma MappedPointIsCurrent(ops: seq<Op>, w: WindowId, screenshot: string, x: int, y: int)
    requires MapPoint(Run(ops), w, screenshot, x, y).Ok?
    ensures !Dirty(ops, w)
    ensures UntouchedCapture(ops).Some?
    ensures var c := UntouchedCapture(ops).value; var (px, py) := MapPoint(Run(ops), w, screenshot, x, y).value;
            && c.window == w && c.screenshot == screenshot
            && 0 <= x < c.width && 0 <= y < c.height
            && px == Scale(x, c.width, c.windowWidth) < c.windowWidth
            && py == Scale(y, c.height, c.windowHeight) < c.windowHeight
  {
    TouchedWindowsAreReported(ops, w);
    var c := UntouchedCapture(ops).value;
    UntouchedMeansClean(ops);
    ScaleStaysBelow(x, c.width, c.windowWidth);
    ScaleStaysBelow(y, c.height, c.windowHeight);
  }

  /** Exactly when a point is mapped, and why it is not. */
  lemma PointsAreJudged(t: Tracker, w: WindowId, screenshot: string, x: int, y: int)
    ensures var point := MapPoint(t, w, screenshot, x, y);
            var known := t.capture.Some? && t.capture.value.window == w && t.capture.value.screenshot == screenshot;
            && (point == Err(StaleScreenshot) <==> !known)
            && (point.Ok? <==>
                && known
                && 0 <= x < t.capture.value.width && 0 <= y < t.capture.value.height
                && t.capture.value.windowWidth > 0 && t.capture.value.windowHeight > 0
                && x * t.capture.value.windowWidth < 0x8000_0000 * t.capture.value.width
                && y * t.capture.value.windowHeight < 0x8000_0000 * t.capture.value.height)
  {
    if t.capture.Some? {
      var c := t.capture.value;
      if 0 <= x < c.width && 0 <= y < c.height && c.windowWidth > 0 && c.windowHeight > 0 {
        ScaleStaysBelow(x, c.width, c.windowWidth);
        ScaleStaysBelow(y, c.height, c.windowHeight);
        ScaleFits(x, c.width, c.windowWidth);
        ScaleFits(y, c.height, c.windowHeight);
      }
    }
  }

  // A scaled coordinate fits 32 bits with a sign.
  lemma ScaleFits(x: nat, from: nat, to: nat)
    requires from > 0
    ensures Scale(x, from, to) <= I32_MAX <==> x * to < 0x8000_0000 * from
  {
    var q := Scale(x, from, to);
    ScaleRoundsDown(x, from, to);
    if q <= I32_MAX {
      MulMonotone(q + 1, 0x8000_0000, from);
    } else {
      MulMonotone(0x8000_0000, q, from);
    }
  }

  lemma {:induction false} UntouchedMeansClean(ops: seq<Op>)
    ensures UntouchedCapture(ops).Some? ==> !Dirty(ops, UntouchedCapture(ops).value.window)
  {
    if ops != [] {
      UntouchedMeansClean(ops[..|ops| - 1]);
    }
  }

  // ----- the client, updating its set and flag in place -----

  class AccessibilityClient {
    var staleInputWindows: set<WindowId>
    var allInputWindowsStale: bool
    var latestCapture: Option<Capture>

    ghost function State(): Tracker
      reads this
    {
      Tracker(staleInputWindows, allInputWindowsStale, latestCapture)
    }

    constructor ()
      ensures State() == Fresh()
    {
      staleInputWindows, allInputWindowsStale, latestCapture := {}, false, None;
    }

    method MarkUserInput(w: WindowId)
      modifies this
      ensures State() == Mark(old(State()), w)
    {
      if latestCapture.Some? && latestCapture.value.window == w {
        latestCapture := None;
      }
      if allInputWindowsStale {
        staleInputWindows := staleInputWindows - {w};
        return;
      }
      if w in staleInputWindows {
        return;
      }
      if |staleInputWindows| >= MAX_STALE_INPUT_WINDOWS {
        staleInputWindows := {};
        allInputWindowsStale := true;
        return;
      }
      staleInputWindows := staleInputWindows + {w};
    }

    method ClearUserInput(w: WindowId)
      modifies this`staleInputWindows
      ensures State() == Clear(old(State()), w)
    {
      if allInputWindowsStale {
        if |staleInputWindows| >= MAX_STALE_INPUT_WINDOWS {
          staleInputWindows := {};
        }
        staleInputWindows := staleInputWindows + {w};
      } else {
        staleInputWindows := staleInputWindows - {w};
      }
    }

    method RememberCapture(capture: Capture)
      modifies this
      ensures State() == Remember(old(State()), capture)
    {
      ClearUserInput(capture.window);
      latestCapture := Some(capture);
    }
  }
}
