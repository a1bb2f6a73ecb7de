/**
 * Touch gesture recognition (src/components/GestureHandler.tsx): a double tap
 * is two touch starts less than 300 ms apart, and a swipe is a touch whose end
 * lies more than 50 pixels from its start along some axis.
 *
 * Coordinates and `Date.now()` readings are integers here.
 */
module Gestures {
  import opened Wrappers

  const DoubleTapDelay: int := 300
  const SwipeThreshold: int := 50

  datatype Swipe = SwipeLeft | SwipeRight | SwipeUp | SwipeDown

  /** The callbacks the handler invokes, in the order it invokes them. */
  datatype Gesture = DoubleTap | Swiped(direction: Swipe)

  function Abs(x: int): (r: nat)
    ensures r == x || r == -x
  {
    if x < 0 then -x else x
  }

  /** A touch start at `now` is the second tap of a double tap. */
  predicate IsDoubleTap(lastTapTime: int, now: int)
  {
    now - lastTapTime < DoubleTapDelay
  }

  /**
   * The swipe recognised for a touch that moved by (`dx`, `dy`), if any. The
   * dominant axis is horizontal only when it moved strictly further
   * horizontally than vertically; the sign of the movement along that axis
   * picks the direction.
   */
  function ClassifySwipe(dx: int, dy: int): (r: Option<Swipe>)
    ensures r.Some? <==> Abs(dx) > SwipeThreshold || Abs(dy) > SwipeThreshold
    ensures r == Some(SwipeRight) ==> dx > SwipeThreshold && Abs(dy) < dx
    ensures r == Some(SwipeLeft) ==> dx < -SwipeThreshold && Abs(dy) < -dx
    ensures r == Some(SwipeDown) ==> dy > SwipeThreshold && Abs(dx) <= dy
    ensures r == Some(SwipeUp) ==> dy < -SwipeThreshold && Abs(dx) <= -dy
  {
    if Abs(dx) > SwipeThreshold || Abs(dy) > SwipeThreshold then
      if Abs(dx) > Abs(dy) then
        if dx > 0 then Some(SwipeRight) else Some(SwipeLeft)
      else
        if dy > 0 then Some(SwipeDown) else Some(SwipeUp)
    else None
  }

  /**
   * Conversely, a movement past the threshold on its dominant axis is
   * recognised as the swipe in that direction; ties between the axes go to
   * the vertical one.
   */
  lemma ClassifySwipeComplete(dx: int, dy: int)
    ensures dx > SwipeThreshold && Abs(dy) < dx ==> ClassifySwipe(dx, dy) == Some(SwipeRight)
    ensures dx < -SwipeThreshold && Abs(dy) < -dx ==> ClassifySwipe(dx, dy) == Some(SwipeLeft)
    ensures dy > SwipeThreshold && Abs(dx) <= dy ==> ClassifySwipe(dx, dy) == Some(SwipeDown)
    ensures dy < -SwipeThreshold && Abs(dx) <= -dy ==> ClassifySwipe(dx, dy) == Some(SwipeUp)
  {
  }

  function MirrorHorizontally(s: Swipe): Swipe
  {
    match s
    case SwipeLeft => SwipeRight
    case SwipeRight => SwipeLeft
    case _ => s
  }

  function MirrorVertically(s: Swipe): Swipe
  {
    match s
    case SwipeUp => SwipeDown
    case SwipeDown => SwipeUp
    case _ => s
  }

  /** Reflecting the movement in an axis reflects the recognised swipe. */
  lemma ClassifySwipeMirrors(dx: int, dy: int)
    ensures ClassifySwipe(-dx, dy) ==
              (if ClassifySwipe(dx, dy).Some? then Some(MirrorHorizontally(ClassifySwipe(dx, dy).value)) else None)
    ensures ClassifySwipe(dx, -dy) ==
              (if ClassifySwipe(dx, dy).Some? then Some(MirrorVertically(ClassifySwipe(dx, dy).value)) else None)
  {
  }

  /** The callbacks a touch end invokes for a recognised swipe: at most one. */
  function SwipeCallbacks(r: Option<Swipe>): (g: seq<Gesture>)
    ensures |g| <= 1
    ensures r.None? ==> g == []
    ensures r.Some? ==> g == [Swiped(r.value)]
  {
    if r.Some? then [Swiped(r.value)] else []
  }

  /** Number of double taps fired by touch starts at `taps`, after a last tap at `lastTapTime`. */
  function DoubleTapsFired(lastTapTime: int, taps: seq<int>): (n: nat)
    ensures n <= |taps|
    decreases taps
  {
    if taps == [] then 0
    else (if IsDoubleTap(lastTapTime, taps[0]) then 1 else 0) + DoubleTapsFired(taps[0], taps[1..])
  }

  /** Every pair of consecutive touch starts in `taps` is less than 300 ms apart. */
  predicate QuickSuccession(taps: seq<int>)
  {
    forall i :: 0 < i < |taps| ==> taps[i] - taps[i - 1] < DoubleTapDelay
  }

  /**
   * Since every touch start records its own time, a run of taps each within
   * 300 ms of the previous one fires a double tap on every tap but the first,
   * however long the run lasts in all; the first fires only when it follows
   * the earlier last tap closely.
   */
  lemma {:induction false} QuickTapsFireEach(lastTapTime: int, taps: seq<int>)
    requires taps != [] && QuickSuccession(taps)
    ensures DoubleTapsFired(lastTapTime, taps) ==
              |taps| - 1 + (if IsDoubleTap(lastTapTime, taps[0]) then 1 else 0)
    decreases taps
  {
    if |taps| > 1 {
      assert QuickSuccession(taps[1..]) by {
        forall i | 0 < i < |taps[1..]| ensures taps[1..][i] - taps[1..][i - 1] < DoubleTapDelay {
          assert taps[1..][i] == taps[i + 1] && taps[1..][i - 1] == taps[i];
        }
      }
      QuickTapsFireEach(taps[0], taps[1..]);
    }
  }

  /** `n` double-tap callbacks in a row. */
  function DoubleTaps(n: nat): (g: seq<Gesture>)
    ensures |g| == n && forall i :: 0 <= i < n ==> g[i] == DoubleTap
  {
    seq(n, _ => DoubleTap)
  }

  /**
   * Touch starts at (`x`, `y`) at each of the times in `taps`, one after
   * another, on the same handler. An enabled handler fires exactly the
   * double taps `DoubleTapsFired` counts and nothing else, and is left with
   * the last start recorded; a disabled handler, or an empty run, changes
   * nothing.
   */
  method TouchStarts(h: GestureHandler, x: int, y: int, taps: seq<int>)
    modifies h
    ensures h.disabled || taps == [] ==> unchanged(h)
    ensures !h.disabled ==> h.fired == old(h.fired) + DoubleTaps(DoubleTapsFired(old(h.lastTapTime), taps))
    ensures !h.disabled && taps != [] ==>
              && h.lastTapTime == taps[|taps| - 1]
              && h.touchStartX == Some(x) && h.touchStartY == Some(y)
  {
    var i := 0;
    ghost var k: nat := 0;
    while i < |taps|
      invariant 0 <= i <= |taps|
      invariant h.disabled || i == 0 ==> unchanged(h)
      invariant !h.disabled ==> h.fired == old(h.fired) + DoubleTaps(k)
      invariant !h.disabled ==>
                  k + DoubleTapsFired(h.lastTapTime, taps[i..]) == DoubleTapsFired(old(h.lastTapTime), taps)
      invariant !h.disabled && i > 0 ==>
                  && h.lastTapTime == taps[i - 1]
                  && h.touchStartX == Some(x) && h.touchStartY == Some(y)
    {
      ghost var before := h.lastTapTime;
      assert taps[i..][1..] == taps[i + 1..];
      h.HandleTouchStart(x, y, taps[i]);
      if !h.disabled && IsDoubleTap(before, taps[i]) {
        assert DoubleTaps(k + 1) == DoubleTaps(k) + [DoubleTap];
        k := k + 1;
      }
      i := i + 1;
    }
  }

  /**
   * The gesture handler component: the recorded touch start point, the time
   * of the last touch start, and the callbacks invoked so far.
   */
  class GestureHandler {
    const disabled: bool
    var touchStartX: Option<int>
    var touchStartY: Option<int>
    var lastTapTime: int
    var fired: seq<Gesture>

    constructor (disabled: bool)
      ensures this.disabled == disabled
      ensures touchStartX == None && touchStartY == None
      ensures lastTapTime == 0 && fired == []
    {
      this.disabled := disabled;
      touchStartX, touchStartY := None, None;
      lastTapTime := 0;
      fired := [];
    }

    /**
     * A touch starts at (`x`, `y`) at time `now`: record the start point, fire
     * a double tap when the previous touch start was less than 300 ms ago, and
     * record `now` as the last tap time in either case. A disabled handler has
     * no listener attached and changes nothing.
     */
    method HandleTouchStart(x: int, y: int, now: int)
      modifies this
      ensures disabled ==> unchanged(this)
      ensures !disabled ==>
                && touchStartX == Some(x) && touchStartY == Some(y)
                && lastTapTime == now
                && fired == old(fired) + (if IsDoubleTap(old(lastTapTime), now) then [DoubleTap] else [])
    {
      if disabled {
        return;
      }
      touchStartX := Some(x);
      touchStartY := Some(y);
      var timeSinceLastTap := now - lastTapTime;
      if timeSinceLastTap < DoubleTapDelay {
        fired := fired + [DoubleTap];
      }
      lastTapTime := now;
    }

    /**
     * A touch ends at (`x`, `y`): with no recorded start point nothing happens;
     * otherwise the swipe for the movement, if any, fires and the start point
     * is forgotten. A disabled handler changes nothing.
     */
    method HandleTouchEnd(x: int, y: int)
      modifies this
      ensures disabled || old(touchStartX).None? || old(touchStartY).None? ==> unchanged(this)
      ensures !disabled && old(touchStartX).Some? && old(touchStartY).Some? ==>
                && fired == old(fired) + SwipeCallbacks(ClassifySwipe(x - old(touchStartX).value,
                                                                      y - old(touchStartY).value))
                && touchStartX == None && touchStartY == None
                && lastTapTime == old(lastTapTime)
    {
      if disabled || touchStartX.None? || touchStartY.None? {
        return;
      }
      var deltaX := x - touchStartX.value;
      var deltaY := y - touchStartY.value;
      if Abs(deltaX) > SwipeThreshold || Abs(deltaY) > SwipeThreshold {
        if Abs(deltaX) > Abs(deltaY) {
          if deltaX > 0 {
            fired := fired + [Swiped(SwipeRight)];
          } else {
            fired := fired + [Swiped(SwipeLeft)];
          }
        } else {
          if deltaY > 0 {
            fired := fired + [Swiped(SwipeDown)];
          } else {
            fired := fired + [Swiped(SwipeUp)];
          }
        }
      }
      touchStartX := None;
      touchStartY := None;
    }
  }
}
