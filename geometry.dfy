/**
 * Scroll-zone and content-offset arithmetic shared by both versions of the
 * reorder controller. `CGFloat`/`Double` values are modelled as exact reals;
 * a not-a-number coordinate is modelled by a flag, and every comparison with
 * such a coordinate is false, as in IEEE arithmetic.
 */
module Geometry {

  datatype Point = Point(x: real, y: real)

  /** The table's scroll-view geometry that the controller reads. */
  datatype Viewport = Viewport(
    boundsHeight: real,
    frameHeight: real,
    contentHeight: real,
    insetTop: real,
    insetBottom: real)

  /** The pointer location as read on an auto-scroll tick. */
  datatype TickLocation = TickLocation(at: Point, xIsNaN: bool, yIsNaN: bool)
  {
    predicate Degenerate() { xIsNaN || yIsNaN }
  }

  /** Points scrolled per tick at scroll rate 1. */
  const ScrollStep: real := 10.0

  /** How far below the content the ghost view may still follow the pointer. */
  const GhostOverscroll: real := 50.0

  /** The scroll zones are the top and bottom sixth of the bounds minus the top inset. */
  function ScrollZoneHeight(vp: Viewport): real
  {
    (vp.boundsHeight - vp.insetTop) / 6.0
  }

  function TopScrollBeginning(offsetY: real, vp: Viewport): real
  {
    offsetY + vp.insetTop + ScrollZoneHeight(vp)
  }

  function BottomScrollBeginning(offsetY: real, vp: Viewport): real
  {
    offsetY + vp.insetTop + (vp.boundsHeight - vp.insetTop) - ScrollZoneHeight(vp)
  }

  /**
   * The signed auto-scroll rate for pointer height `y`, in zone heights past
   * the nearer threshold; the bottom zone is tested first, and between the
   * thresholds the table does not scroll.
   */
  function ScrollRate(y: real, offsetY: real, vp: Viewport): (rate: real)
    requires vp.boundsHeight != vp.insetTop
    ensures y >= BottomScrollBeginning(offsetY, vp) ==>
              rate * ScrollZoneHeight(vp) == y - BottomScrollBeginning(offsetY, vp)
    ensures TopScrollBeginning(offsetY, vp) >= y && y < BottomScrollBeginning(offsetY, vp) ==>
              rate * ScrollZoneHeight(vp) == y - TopScrollBeginning(offsetY, vp)
    ensures TopScrollBeginning(offsetY, vp) < y < BottomScrollBeginning(offsetY, vp) ==> rate == 0.0
  {
    var bottom := BottomScrollBeginning(offsetY, vp);
    var top := TopScrollBeginning(offsetY, vp);
    if y >= bottom then (y - bottom) / ScrollZoneHeight(vp)
    else if y <= top then (y - top) / ScrollZoneHeight(vp)
    else 0.0
  }

  /**
   * With a positive zone height the rate is positive exactly below the bottom
   * threshold, negative exactly above the top threshold, zero in between, and
   * of magnitude at most 1 while the pointer is inside the visible bounds.
   */
  lemma ScrollRateZones(y: real, offsetY: real, vp: Viewport)
    requires vp.boundsHeight > vp.insetTop
    ensures TopScrollBeginning(offsetY, vp) < BottomScrollBeginning(offsetY, vp)
    ensures y >= BottomScrollBeginning(offsetY, vp) ==> ScrollRate(y, offsetY, vp) >= 0.0
    ensures y <= TopScrollBeginning(offsetY, vp) ==> ScrollRate(y, offsetY, vp) <= 0.0
    ensures ScrollRate(y, offsetY, vp) > 0.0 <==> y > BottomScrollBeginning(offsetY, vp)
    ensures ScrollRate(y, offsetY, vp) < 0.0 <==> y < TopScrollBeginning(offsetY, vp)
    ensures offsetY + vp.insetTop <= y <= offsetY + vp.boundsHeight ==>
              -1.0 <= ScrollRate(y, offsetY, vp) <= 1.0
  {
    var zone := ScrollZoneHeight(vp);
    var bottom := BottomScrollBeginning(offsetY, vp);
    var top := TopScrollBeginning(offsetY, vp);
    assert zone > 0.0;
    if y >= bottom {
      assert ScrollRate(y, offsetY, vp) * zone == y - bottom;
    } else if y <= top {
      assert ScrollRate(y, offsetY, vp) * zone == y - top;
    }
  }

  /** The largest offset at which the content's bottom edge is still inside the frame. */
  function MaxOffsetY(vp: Viewport): real
  {
    vp.contentHeight + vp.insetBottom - vp.frameHeight
  }

  /** Content shorter than the frame (bottom inset included) cannot scroll down. */
  predicate ContentFits(vp: Viewport)
  {
    vp.contentHeight + vp.insetBottom < vp.frameHeight
  }

  /**
   * One auto-scroll step: advance by `rate * ScrollStep`, then, in this order,
   * clamp to the top inset, keep the offset when the content fits the frame,
   * or clamp to the bottom. The horizontal offset never changes.
   */
  function ScrolledOffset(offset: Point, rate: real, vp: Viewport): (r: Point)
    ensures r.x == offset.x
  {
    var y := offset.y + rate * ScrollStep;
    if y < -vp.insetTop then Point(offset.x, -vp.insetTop)
    else if ContentFits(vp) then offset
    else if y > MaxOffsetY(vp) then Point(offset.x, MaxOffsetY(vp))
    else Point(offset.x, y)
  }

  /**
   * For content taller than the frame the step lands in [-insetTop, MaxOffsetY],
   * moves in the direction of the rate from any offset inside that range, and
   * really advances towards the bottom while the bottom is not yet reached; a
   * step past the top lands exactly on -insetTop, one past the bottom exactly
   * on MaxOffsetY.
   */
  lemma ScrolledOffsetClamped(offset: Point, rate: real, vp: Viewport)
    requires !ContentFits(vp) && -vp.insetTop <= MaxOffsetY(vp)
    ensures -vp.insetTop <= ScrolledOffset(offset, rate, vp).y <= MaxOffsetY(vp)
    ensures -vp.insetTop <= offset.y <= MaxOffsetY(vp) ==>
              (rate >= 0.0 ==> offset.y <= ScrolledOffset(offset, rate, vp).y) &&
              (rate <= 0.0 ==> ScrolledOffset(offset, rate, vp).y <= offset.y)
    ensures rate > 0.0 && -vp.insetTop <= offset.y < MaxOffsetY(vp) ==>
              offset.y < ScrolledOffset(offset, rate, vp).y
    ensures -vp.insetTop <= offset.y + rate * ScrollStep <= MaxOffsetY(vp) ==>
              ScrolledOffset(offset, rate, vp).y == offset.y + rate * ScrollStep
    ensures offset.y + rate * ScrollStep < -vp.insetTop ==>
              ScrolledOffset(offset, rate, vp).y == -vp.insetTop
    ensures -vp.insetTop <= offset.y + rate * ScrollStep && offset.y + rate * ScrollStep > MaxOffsetY(vp) ==>
              ScrolledOffset(offset, rate, vp).y == MaxOffsetY(vp)
  {
  }

  /** Content that fits the frame never scrolls, except back up to the top inset. */
  lemma ScrolledOffsetWhenContentFits(offset: Point, rate: real, vp: Viewport)
    requires ContentFits(vp)
    ensures offset.y + rate * ScrollStep >= -vp.insetTop ==> ScrolledOffset(offset, rate, vp) == offset
    ensures offset.y + rate * ScrollStep < -vp.insetTop ==>
              ScrolledOffset(offset, rate, vp) == Point(offset.x, -vp.insetTop)
  {
  }

  /** The ghost view is re-centred on the pointer only while it is within the content (plus overscroll). */
  predicate GhostFollows(y: real, vp: Viewport)
  {
    0.0 <= y <= vp.contentHeight + GhostOverscroll
  }
}
