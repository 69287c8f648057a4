/**
 * The long-press reorder controller of the single-file version of LPRTableView
 * (the `LPRTableView` extension at the repository root).
 *
 * The table has one section; an index path is a row number. The table's own
 * row order is kept as the sequence of row heights that `rectForRow(at:)`
 * reports; UIKit hit-testing and cell lookup arrive as inputs (see Host).
 * `Snapshot` is the value of every field the controller touches, and the
 * functions named `...Step` say what each callback does to it; the class
 * `LPRTableView` performs the same updates in place, field by field.
 */
module LegacyTableView {
  import opened Rows
  import opened Geometry
  import opened Host
  import opened DropTarget

  /** `dataSource?.responds(to: canMoveRowAt)`: nil when there is no data source. */
  function RespondsToCanMove(dataSource: DataSource): Option<bool>
  {
    match dataSource
    case NoDataSource => None
    case Attached(hook) => Some(hook.Implemented?)
  }

  /** `dataSource?.tableView?(self, canMoveRowAt:)`: nil when there is no data source or no method. */
  function CanMoveAnswer(dataSource: DataSource, row: nat): Option<bool>
  {
    match dataSource
    case Attached(Implemented(canMove)) => Some(canMove(row))
    case _ => None
  }

  /**
   * `canMoveRowAt`: `responds == false || answer == true`, two comparisons of
   * optionals. A data source without the method allows every move, one with it
   * decides, and a missing data source allows none.
   */
  function CanMoveRowAt(dataSource: DataSource, row: nat): (r: bool)
    ensures dataSource.NoDataSource? ==> !r
    ensures dataSource.Attached? && dataSource.canMoveRow.NotImplemented? ==> r
    ensures dataSource.Attached? && dataSource.canMoveRow.Implemented? ==>
              r == dataSource.canMoveRow.canMove(row)
  {
    RespondsToCanMove(dataSource) == Some(false) || CanMoveAnswer(dataSource, row) == Some(true)
  }

  /** The `for i in 0..<sections { rows += numberOfRows(inSection: i) }` loop. */
  method CountRows(sectionRows: seq<nat>) returns (rows: nat)
    ensures rows == Sum(sectionRows)
    ensures rows == 0 <==> forall i :: 0 <= i < |sectionRows| ==> sectionRows[i] == 0
  {
    rows := 0;
    for i := 0 to |sectionRows|
      invariant rows == Sum(sectionRows[..i])
    {
      assert sectionRows[..i + 1][..i] == sectionRows[..i];
      rows := rows + sectionRows[i];
    }
    assert sectionRows[..|sectionRows|] == sectionRows;
    SumIsZeroIffAllZero(sectionRows);
  }

  /** Every field of the table that the reorder controller reads or writes. */
  datatype Snapshot = Snapshot(
    heights: seq<real>,            // the table's rows, top to bottom, by height
    contentOffset: Point,
    initialIndexPath: Option<nat>,
    currentLocationIndexPath: Option<nat>,
    draggingView: Option<real>,    // the ghost view, by the height of its centre
    ghostViews: nat,               // ghost views added to the table and not yet removed
    scrollRate: real,
    displayLinkArmed: bool,        // scrollDisplayLink is scheduled
    previousGestureVerticalPosition: Option<real>,
    moves: seq<Move>,              // moveRow(at:to:) calls, to the table and its data source, in order
    gestureChangedCalls: nat,      // draggingGestureChanged notifications to the delegate
    cancellations: nat,            // cancelGesture() calls
    pendingDrops: nat)             // drop animations whose completion has not yet run
  {
    /**
     * Held rows exist, the only ghost view on screen is `draggingView`, the
     * delegate proposes existing rows, the zone height is not zero, and a
     * table without a data source has no rows.
     */
    ghost predicate Valid(c: Config)
    {
      && (currentLocationIndexPath.Some? ==> currentLocationIndexPath.value < |heights|)
      && (initialIndexPath.Some? ==> initialIndexPath.value < |heights|)
      && ghostViews == (if draggingView.Some? then 1 else 0)
      && TargetHookFits(c.targetHook, |heights|)
      && c.viewport.boundsHeight != c.viewport.insetTop
      && (c.dataSource.NoDataSource? ==> heights == [])
    }

    /** The table's rows are the rows it was loaded with, rearranged by exactly the notified moves. */
    ghost predicate TracksMoves(loaded: seq<real>)
    {
      |loaded| == |heights| && MovesFit(moves, |loaded|) && heights == Replay(loaded, moves)
    }

    /** No drag is in progress and nothing of one is left on screen. */
    predicate Idle()
    {
      currentLocationIndexPath.None? && draggingView.None? && ghostViews == 0 && !displayLinkArmed
    }
  }

  /** `numberOfRows(inSection:)` of each section; the modelled table has one section. */
  function SectionRowCounts(s: Snapshot): seq<nat>
  {
    [|s.heights|]
  }

  ghost predicate HitFits(hit: Option<nat>, s: Snapshot)
  {
    hit.Some? ==> hit.value < |s.heights|
  }

  /** The guard of `_longPress`: when it holds, the gesture is cancelled and nothing else happens. */
  function Cancels(s: Snapshot, c: Config, t: Touch): (r: bool)
    ensures s.heights == [] ==> r
    ensures t.state != Began && t.state != Ended ==> (r <==> s.heights == [])
    ensures t.state == Began && t.hit.Some? ==> (r <==> s.heights == [] || !CanMoveRowAt(c.dataSource, t.hit.value))
  {
    || Sum(SectionRowCounts(s)) == 0
    || (t.state == Began && t.hit.None?)
    || (t.state == Ended && s.currentLocationIndexPath.None?)
    || (t.state == Began && !CanMoveRowAt(c.dataSource, t.hit.value))
  }

  /** `updateCurrentLocation`: promote the drop target and apply that one move, or change nothing. */
  function UpdateStep(s: Snapshot, c: Config, hit: Option<nat>, yInTarget: real): (r: Snapshot)
    requires s.Valid(c) && HitFits(hit, s)
    ensures r.Valid(c)
    ensures r == s || (
      && s.currentLocationIndexPath.Some? && r.currentLocationIndexPath.Some?
      && var hold, target := s.currentLocationIndexPath.value, r.currentLocationIndexPath.value;
         && target < |s.heights| && target != hold
         && r.heights == Moved(s.heights, hold, target)
         && r.moves == s.moves + [Move(hold, target)])
  {
    if hit.None? || s.currentLocationIndexPath.None? then s
    else
      var hold := s.currentLocationIndexPath.value;
      var target := Target(hit.value, s.initialIndexPath, c.targetHook);
      TargetFits(hit.value, s.initialIndexPath, c.targetHook, |s.heights|);
      if Promotes(s.heights, hold, target, yInTarget, CanMoveRowAt(c.dataSource, target)) then
        s.(heights := Moved(s.heights, hold, target),
           moves := s.moves + [Move(hold, target)],
           currentLocationIndexPath := Some(target))
      else s
  }

  /** A `.began` callback that passed the guard. */
  function BeganStep(s: Snapshot, t: Touch): (r: Snapshot)
    requires t.hit.Some?
    ensures r.heights == s.heights && r.moves == s.moves && r.contentOffset == s.contentOffset
    ensures r.previousGestureVerticalPosition == Some(t.location.y)
    ensures t.cellVisible ==>
              && r.currentLocationIndexPath == r.initialIndexPath == t.hit
              && r.draggingView.Some? && r.displayLinkArmed
    ensures s.ghostViews == (if s.draggingView.Some? then 1 else 0) ==>
              r.ghostViews == (if r.draggingView.Some? then 1 else 0)
  {
    var s1 := s.(previousGestureVerticalPosition := Some(t.location.y));
    if !t.cellVisible then s1
    else
      var s2 :=
        if s1.draggingView.None?
        then s1.(draggingView := Some(t.location.y), ghostViews := s1.ghostViews + 1)
        else s1;
      s2.(currentLocationIndexPath := t.hit, initialIndexPath := t.hit, displayLinkArmed := true)
  }

  /**
   * The first part of a `.changed` callback, while a ghost view exists: it
   * follows the pointer, and the delegate hears of any vertical movement.
   */
  function FollowPointer(s: Snapshot, c: Config, y: real): (r: Snapshot)
    ensures s.draggingView.None? ==> r == s
    ensures r.heights == s.heights && r.moves == s.moves && r.contentOffset == s.contentOffset
    ensures r.currentLocationIndexPath == s.currentLocationIndexPath && r.initialIndexPath == s.initialIndexPath
    ensures r.draggingView.Some? == s.draggingView.Some? && r.ghostViews == s.ghostViews
    ensures s.draggingView.Some? ==> r.previousGestureVerticalPosition == Some(y)
    ensures s.gestureChangedCalls <= r.gestureChangedCalls <= s.gestureChangedCalls + 1
  {
    if s.draggingView.None? then s
    else
      var s0 := if GhostFollows(y, c.viewport) then s.(draggingView := Some(y)) else s;
      if s0.previousGestureVerticalPosition.None? || s0.previousGestureVerticalPosition.value != y
      then s0.(gestureChangedCalls := s0.gestureChangedCalls + 1, previousGestureVerticalPosition := Some(y))
      else s0
  }

  /** A `.changed` callback: follow the pointer, resolve the drop target, set the scroll rate. */
  function ChangedStep(s: Snapshot, c: Config, t: Touch): (r: Snapshot)
    requires s.Valid(c) && HitFits(t.hit, s)
    ensures r.Valid(c)
    ensures r.scrollRate == ScrollRate(t.location.y, s.contentOffset.y, c.viewport)
    ensures r.contentOffset == s.contentOffset && r.displayLinkArmed == s.displayLinkArmed
    ensures r.initialIndexPath == s.initialIndexPath && r.ghostViews == s.ghostViews
    ensures r.cancellations == s.cancellations && r.pendingDrops == s.pendingDrops
    ensures var u := UpdateStep(s, c, t.hit, t.yInTarget);
      r.heights == u.heights && r.moves == u.moves && r.currentLocationIndexPath == u.currentLocationIndexPath
  {
    var s2 := UpdateStep(FollowPointer(s, c, t.location.y), c, t.hit, t.yInTarget);
    s2.(scrollRate := ScrollRate(t.location.y, s2.contentOffset.y, c.viewport))
  }

  /** A `.ended` callback: stop auto-scrolling and start the drop animation. */
  function EndedStep(s: Snapshot): (r: Snapshot)
    ensures !r.displayLinkArmed && r.scrollRate == 0.0 && r.previousGestureVerticalPosition.None?
    ensures r.pendingDrops == s.pendingDrops + 1
    ensures r.heights == s.heights && r.moves == s.moves
    ensures r.currentLocationIndexPath == s.currentLocationIndexPath && r.draggingView == s.draggingView
    ensures r.ghostViews == s.ghostViews
  {
    s.(previousGestureVerticalPosition := None, displayLinkArmed := false, scrollRate := 0.0,
       pendingDrops := s.pendingDrops + 1)
  }

  /** `_longPress`: the guard, then exactly one branch for the gesture's state. */
  function LongPressStep(s: Snapshot, c: Config, t: Touch): (r: Snapshot)
    requires s.Valid(c) && HitFits(t.hit, s)
    ensures r.Valid(c)
    ensures r.cancellations != s.cancellations <==> Cancels(s, c, t)
    ensures r.contentOffset == s.contentOffset
    ensures t.state != Changed ==> r.heights == s.heights && r.moves == s.moves
  {
    if Cancels(s, c, t) then s.(cancellations := s.cancellations + 1)
    else if t.state == Began then BeganStep(s, t)
    else if t.state == Changed then ChangedStep(s, c, t)
    else if t.state == Ended then EndedStep(s)
    else if t.state == Cancelled || t.state == Failed then s.(previousGestureVerticalPosition := None)
    else s
  }

  /**
   * The drop animation's completion: remove the ghost view and forget the held row.
   * The refactored version's completion block is the same code; `TableView.FinishDropStep` mirrors it.
   */
  function FinishDropStep(s: Snapshot, c: Config): (r: Snapshot)
    requires s.Valid(c) && s.pendingDrops > 0
    ensures r.Valid(c)
    ensures r.currentLocationIndexPath.None? && r.draggingView.None? && r.ghostViews == 0
    ensures !s.displayLinkArmed ==> r.Idle()
    ensures r.heights == s.heights && r.moves == s.moves && r.pendingDrops == s.pendingDrops - 1
  {
    s.(ghostViews := if s.draggingView.Some? then s.ghostViews - 1 else s.ghostViews,
       currentLocationIndexPath := None,
       draggingView := None,
       pendingDrops := s.pendingDrops - 1)
  }

  /** `_scrollTableWithCell`: skipped on a not-a-number location, else scroll, follow the pointer and resolve. */
  function TickStep(s: Snapshot, c: Config, tick: Tick): (r: Snapshot)
    requires s.Valid(c) && HitFits(tick.hit, s)
    ensures r.Valid(c)
    ensures tick.location.Degenerate() ==> r == s
    ensures r.contentOffset.x == s.contentOffset.x && r.scrollRate == s.scrollRate
    ensures r.displayLinkArmed == s.displayLinkArmed && r.ghostViews == s.ghostViews
    ensures !tick.location.Degenerate() ==>
              var u := UpdateStep(s, c, tick.hit, tick.yInTarget);
              r.heights == u.heights && r.moves == u.moves && r.currentLocationIndexPath == u.currentLocationIndexPath
  {
    if tick.location.Degenerate() then s
    else
      var y := tick.location.at.y;
      var s1 := s.(contentOffset := ScrolledOffset(s.contentOffset, s.scrollRate, c.viewport));
      var s2 := if s1.draggingView.Some? && GhostFollows(y, c.viewport) then s1.(draggingView := Some(y)) else s1;
      UpdateStep(s2, c, tick.hit, tick.yInTarget)
  }

  // ---------------------------------------------------------------------------
  // Properties of the callbacks

  /**
   * An empty table, a press beside every row, a release with no held row, or
   * a row the data source will not move: the gesture is cancelled and no other
   * field changes.
   */
  lemma GuardCancelsWithoutChange(s: Snapshot, c: Config, t: Touch)
    requires s.Valid(c) && HitFits(t.hit, s)
    requires || s.heights == []
             || (t.state == Began && t.hit.None?)
             || (t.state == Ended && s.currentLocationIndexPath.None?)
             || (t.state == Began && t.hit.Some? && !CanMoveRowAt(c.dataSource, t.hit.value))
    ensures Cancels(s, c, t)
    ensures LongPressStep(s, c, t) == s.(cancellations := s.cancellations + 1)
  {
  }

  /**
   * A press that passes the guard on a visible cell holds the pressed row both
   * as the start and as the current position, shows exactly one ghost view
   * (a ghost still on screen is reused, not duplicated) and arms auto-scrolling.
   */
  lemma BeganStartsDrag(s: Snapshot, c: Config, t: Touch)
    requires s.Valid(c) && HitFits(t.hit, s)
    requires t.state == Began && !Cancels(s, c, t) && t.cellVisible
    ensures var s' := LongPressStep(s, c, t);
      && t.hit.Some?
      && s'.currentLocationIndexPath == s'.initialIndexPath == t.hit
      && s'.draggingView.Some? && s'.ghostViews == 1
      && s'.displayLinkArmed
      && s'.previousGestureVerticalPosition == Some(t.location.y)
      && s'.heights == s.heights && s'.moves == s.moves
  {
  }

  /**
   * `updateCurrentLocation` moves the held row exactly when a row is hit, a
   * row is held, the (remapped) target is another row, the pointer is past the
   * height threshold and the target may move; it then sends exactly one
   * `moveRow(hold, target)` and holds the target. Otherwise nothing changes.
   */
  lemma UpdatePromotesExactly(s: Snapshot, c: Config, hit: Option<nat>, yInTarget: real)
    requires s.Valid(c) && HitFits(hit, s)
    ensures var s' := UpdateStep(s, c, hit, yInTarget);
      if hit.Some? && s.currentLocationIndexPath.Some?
         && var hold, target := s.currentLocationIndexPath.value, Target(hit.value, s.initialIndexPath, c.targetHook);
            target < |s.heights| && Promotes(s.heights, hold, target, yInTarget, CanMoveRowAt(c.dataSource, target))
      then
        var hold, target := s.currentLocationIndexPath.value, Target(hit.value, s.initialIndexPath, c.targetHook);
        && s'.moves == s.moves + [Move(hold, target)]
        && s'.heights == Moved(s.heights, hold, target)
        && s'.currentLocationIndexPath == Some(target)
        && s'.heights[target] == s.heights[hold]
        && s' == s.(heights := s'.heights, moves := s'.moves, currentLocationIndexPath := s'.currentLocationIndexPath)
      else s' == s
  {
    if hit.Some? && s.currentLocationIndexPath.Some? {
      TargetFits(hit.value, s.initialIndexPath, c.targetHook, |s.heights|);
    }
  }

  /**
   * The held row settles: resolve a pointer at height `y` against the row the
   * hit test finds there, then hit-test the same `y` again in the rearranged
   * table and resolve once more. The second resolution moves nothing, so a
   * pointer at rest causes at most one move. Stated for rows of non-negative
   * height and a delegate that does not remap targets.
   */
  lemma UpdateSettles(s: Snapshot, c: Config, hit: nat, y: real, s': Snapshot, next: nat)
    requires s.Valid(c) && c.targetHook.None? && NonNegative(s.heights)
    requires hit < |s.heights| && InRow(s.heights, hit, y)
    requires s' == UpdateStep(s, c, Some(hit), y - RowTop(s.heights, hit))
    requires next < |s'.heights| && InRow(s'.heights, next, y)
    ensures UpdateStep(s', c, Some(next), y - RowTop(s'.heights, next)) == s'
  {
    if HeldPromotes(s, c, hit, y - RowTop(s.heights, hit)) {
      var hold := s.currentLocationIndexPath.value;
      PromotionIsPromoted(s, c, hold, hit, y - RowTop(s.heights, hit));
      PromotedSettles(s, c, hold, hit, y, s', next);
    } else {
      SettlesWithoutPromotion(s, c, hit, y, s', next);
    }
  }

  /** Whether resolving `hit` promotes the held row there (no remapping hook). */
  predicate HeldPromotes(s: Snapshot, c: Config, hit: nat, yIn: real)
    requires s.Valid(c) && hit < |s.heights|
  {
    s.currentLocationIndexPath.Some? && Promotes(s.heights, s.currentLocationIndexPath.value, hit, yIn, CanMoveRowAt(c.dataSource, hit))
  }

  /** Without a promotion nothing moves, and the pointer is still in the row it hit. */
  lemma SettlesWithoutPromotion(s: Snapshot, c: Config, hit: nat, y: real, s': Snapshot, next: nat)
    requires s.Valid(c) && c.targetHook.None? && NonNegative(s.heights)
    requires hit < |s.heights| && InRow(s.heights, hit, y)
    requires !HeldPromotes(s, c, hit, y - RowTop(s.heights, hit))
    requires s' == UpdateStep(s, c, Some(hit), y - RowTop(s.heights, hit))
    requires next < |s'.heights| && InRow(s'.heights, next, y)
    ensures UpdateStep(s', c, Some(next), y - RowTop(s'.heights, next)) == s'
  {
    assert Target(hit, s.initialIndexPath, c.targetHook) == hit;
    assert s' == s;
    RowsAreDisjoint(s.heights, next, hit, y);
  }

  lemma PromotionIsPromoted(s: Snapshot, c: Config, hold: nat, hit: nat, yIn: real)
    requires s.Valid(c) && c.targetHook.None? && hit < |s.heights|
    requires s.currentLocationIndexPath == Some(hold)
    requires Promotes(s.heights, hold, hit, yIn, CanMoveRowAt(c.dataSource, hit))
    ensures UpdateStep(s, c, Some(hit), yIn) == Promoted(s, hold, hit)
  {
    assert Target(hit, s.initialIndexPath, c.targetHook) == hit;
  }

  /** The snapshot after the held row `hold` is promoted to `target`. */
  function Promoted(s: Snapshot, hold: nat, target: nat): Snapshot
    requires hold < |s.heights| && target < |s.heights|
  {
    s.(heights := Moved(s.heights, hold, target),
       moves := s.moves + [Move(hold, target)],
       currentLocationIndexPath := Some(target))
  }

  /** After a promotion the pointer lies in the promoted row, which the held row now occupies. */
  lemma PromotedSettles(s: Snapshot, c: Config, hold: nat, hit: nat, y: real, s': Snapshot, next: nat)
    requires s.Valid(c) && c.targetHook.None? && NonNegative(s.heights)
    requires s.currentLocationIndexPath == Some(hold) && hit < |s.heights| && InRow(s.heights, hit, y)
    requires Promotes(s.heights, hold, hit, y - RowTop(s.heights, hit), CanMoveRowAt(c.dataSource, hit))
    requires s' == Promoted(s, hold, hit)
    requires next < |s'.heights| && InRow(s'.heights, next, y)
    ensures s'.Valid(c)
    ensures UpdateStep(s', c, Some(next), y - RowTop(s'.heights, next)) == s'
  {
    assert Target(next, s'.initialIndexPath, c.targetHook) == next;
    PromotionDoesNotSwapBack(s.heights, hold, hit, y, next, CanMoveRowAt(c.dataSource, next));
  }

  /**
   * During a drag with a ghost view, the delegate hears of a `.changed` event
   * exactly when there is no previous vertical position or it differs from the
   * pointer's, and afterwards the previous position is the pointer's.
   */
  lemma ChangedNotifiesOnVerticalMovement(s: Snapshot, c: Config, t: Touch)
    requires s.Valid(c) && HitFits(t.hit, s)
    requires t.state == Changed && !Cancels(s, c, t) && s.draggingView.Some?
    ensures var s' := LongPressStep(s, c, t);
      && (s'.gestureChangedCalls == s.gestureChangedCalls + 1 <==>
            s.previousGestureVerticalPosition.None? || s.previousGestureVerticalPosition.value != t.location.y)
      && s'.gestureChangedCalls <= s.gestureChangedCalls + 1
      && s'.previousGestureVerticalPosition == Some(t.location.y)
      && s'.scrollRate == ScrollRate(t.location.y, s.contentOffset.y, c.viewport)
  {
    var f := FollowPointer(s, c, t.location.y);
    var u := UpdateStep(f, c, t.hit, t.yInTarget);
    assert LongPressStep(s, c, t) == ChangedStep(s, c, t);
    assert u.gestureChangedCalls == f.gestureChangedCalls && u.previousGestureVerticalPosition == f.previousGestureVerticalPosition;
  }

  /**
   * A release stops auto-scrolling at once; when its animation completes the
   * table is idle again, whatever the drag did, and a second completion
   * changes nothing more.
   */
  lemma DropEndsDrag(s: Snapshot, c: Config, t: Touch)
    requires s.Valid(c) && HitFits(t.hit, s)
    requires t.state == Ended && !Cancels(s, c, t)
    ensures var ended := LongPressStep(s, c, t);
      && ended.Valid(c)
      && !ended.displayLinkArmed && ended.scrollRate == 0.0 && ended.previousGestureVerticalPosition.None?
      && var done := FinishDropStep(ended, c);
         && done.Idle() && done.heights == s.heights && done.moves == s.moves
         && (done.pendingDrops > 0 ==> FinishDropStep(done, c) == done.(pendingDrops := done.pendingDrops - 1))
  {
  }

  /**
   * A `.cancelled` or `.failed` callback forgets only the previous vertical
   * position: the ghost view, the held row, the scroll rate and the display
   * link all stay as they were.
   */
  lemma CancelledKeepsDragState(s: Snapshot, c: Config, t: Touch)
    requires s.Valid(c) && HitFits(t.hit, s)
    requires (t.state == Cancelled || t.state == Failed) && s.heights != []
    ensures LongPressStep(s, c, t) == s.(previousGestureVerticalPosition := None)
  {
  }

  /** An auto-scroll tick with a not-a-number coordinate changes nothing; otherwise x never scrolls. */
  lemma TickScrollsVertically(s: Snapshot, c: Config, tick: Tick)
    requires s.Valid(c) && HitFits(tick.hit, s)
    ensures tick.location.Degenerate() ==> TickStep(s, c, tick) == s
    ensures !tick.location.Degenerate() ==>
              TickStep(s, c, tick).contentOffset == ScrolledOffset(s.contentOffset, s.scrollRate, c.viewport)
    ensures TickStep(s, c, tick).contentOffset.x == s.contentOffset.x
  {
    if !tick.location.Degenerate() {
      var y := tick.location.at.y;
      var s1 := s.(contentOffset := ScrolledOffset(s.contentOffset, s.scrollRate, c.viewport));
      var s2 := if s1.draggingView.Some? && GhostFollows(y, c.viewport) then s1.(draggingView := Some(y)) else s1;
      UpdatePromotesExactly(s2, c, tick.hit, tick.yInTarget);
    }
  }

  /**
   * Every callback keeps the snapshot valid and keeps the table's rows equal
   * to the loaded rows with every notified move replayed in order: moves are
   * applied one at a time and each is reported exactly once.
   */
  lemma {:induction false} UpdateKeepsInvariants(s: Snapshot, c: Config, hit: Option<nat>, yInTarget: real, loaded: seq<real>)
    requires s.Valid(c) && HitFits(hit, s) && s.TracksMoves(loaded)
    ensures UpdateStep(s, c, hit, yInTarget).Valid(c)
    ensures UpdateStep(s, c, hit, yInTarget).TracksMoves(loaded)
  {
    var s' := UpdateStep(s, c, hit, yInTarget);
    if s' != s {
      assert hit.Some? && s.currentLocationIndexPath.Some?;
      TargetFits(hit.value, s.initialIndexPath, c.targetHook, |s.heights|);
      assert s'.moves[..|s'.moves| - 1] == s.moves;
      assert MovesFit(s'.moves, |loaded|) by {
        assert forall i :: 0 <= i < |s.moves| ==> s'.moves[i] == s.moves[i];
      }
    }
  }

  lemma ChangedKeepsInvariants(s: Snapshot, c: Config, t: Touch, loaded: seq<real>)
    requires s.Valid(c) && HitFits(t.hit, s) && s.TracksMoves(loaded)
    ensures ChangedStep(s, c, t).Valid(c)
    ensures ChangedStep(s, c, t).TracksMoves(loaded)
  {
    UpdateKeepsInvariants(FollowPointer(s, c, t.location.y), c, t.hit, t.yInTarget, loaded);
  }

  lemma LongPressKeepsInvariants(s: Snapshot, c: Config, t: Touch, loaded: seq<real>)
    requires s.Valid(c) && HitFits(t.hit, s) && s.TracksMoves(loaded)
    ensures LongPressStep(s, c, t).Valid(c)
    ensures LongPressStep(s, c, t).TracksMoves(loaded)
  {
    if Cancels(s, c, t) {
    } else if t.state == Began {
      assert LongPressStep(s, c, t) == BeganStep(s, t);
    } else if t.state == Changed {
      ChangedKeepsInvariants(s, c, t, loaded);
    }
  }

  lemma TickKeepsInvariants(s: Snapshot, c: Config, tick: Tick, loaded: seq<real>)
    requires s.Valid(c) && HitFits(tick.hit, s) && s.TracksMoves(loaded)
    ensures TickStep(s, c, tick).Valid(c)
    ensures TickStep(s, c, tick).TracksMoves(loaded)
  {
    if !tick.location.Degenerate() {
      var y := tick.location.at.y;
      var s1 := s.(contentOffset := ScrolledOffset(s.contentOffset, s.scrollRate, c.viewport));
      var s2 := if s1.draggingView.Some? && GhostFollows(y, c.viewport) then s1.(draggingView := Some(y)) else s1;
      UpdateKeepsInvariants(s2, c, tick.hit, tick.yInTarget, loaded);
    }
  }

  // ---------------------------------------------------------------------------
  // The table view itself

  class LPRTableView {
    const viewport: Viewport
    const dataSource: DataSource
    const targetHook: TargetHook

    var heights: seq<real>
    var contentOffset: Point
    var initialIndexPath: Option<nat>
    var currentLocationIndexPath: Option<nat>
    var draggingView: Option<real>
    var ghostViews: nat
    var scrollRate: real
    var displayLinkArmed: bool
    var previousGestureVerticalPosition: Option<real>
    var moves: seq<Move>
    var gestureChangedCalls: nat
    var cancellations: nat
    var pendingDrops: nat

    function Configuration(): Config
    {
      Config(viewport, dataSource, targetHook)
    }

    function State(): Snapshot
      reads this
    {
      Snapshot(heights, contentOffset, initialIndexPath, currentLocationIndexPath,
        draggingView, ghostViews, scrollRate, displayLinkArmed, previousGestureVerticalPosition,
        moves, gestureChangedCalls, cancellations, pendingDrops)
    }

    ghost predicate Valid()
      reads this
    {
      State().Valid(Configuration())
    }

    constructor (viewport: Viewport, dataSource: DataSource, targetHook: TargetHook, heights: seq<real>)
      requires TargetHookFits(targetHook, |heights|) && viewport.boundsHeight != viewport.insetTop
      requires dataSource.NoDataSource? ==> heights == []
      ensures Valid() && State().Idle()
      ensures this.viewport == viewport && this.dataSource == dataSource && this.targetHook == targetHook
      ensures this.heights == heights && moves == [] && cancellations == 0 && pendingDrops == 0
    {
      this.viewport, this.dataSource, this.targetHook := viewport, dataSource, targetHook;
      this.heights := heights;
      contentOffset := Point(0.0, 0.0);
      initialIndexPath, currentLocationIndexPath := None, None;
      draggingView, ghostViews := None, 0;
      scrollRate, displayLinkArmed := 0.0, false;
      previousGestureVerticalPosition := None;
      moves, gestureChangedCalls, cancellations, pendingDrops := [], 0, 0, 0;
    }

    /** `cancelGesture`: toggling `isEnabled` makes the recognizer drop the gesture. */
    method CancelGesture()
      modifies this
      ensures State() == old(State()).(cancellations := old(cancellations) + 1)
    {
      cancellations := cancellations + 1;
    }

    method UpdateCurrentLocation(hit: Option<nat>, yInTarget: real)
      requires Valid() && HitFits(hit, State())
      modifies this
      ensures Valid()
      ensures State() == UpdateStep(old(State()), Configuration(), hit, yInTarget)
    {
      ghost var s, c := State(), Configuration();
      ghost var s' := UpdateStep(s, c, hit, yInTarget);
      if hit.Some? {
        var indexPath := hit.value;
        if initialIndexPath.Some? && targetHook.Some? {
          indexPath := targetHook.value(initialIndexPath.value, indexPath);
        }
        TargetFits(hit.value, initialIndexPath, targetHook, |heights|);
        assert indexPath == Target(hit.value, s.initialIndexPath, c.targetHook);
        if currentLocationIndexPath.Some? {
          var clIndexPath := currentLocationIndexPath.value;
          var oldHeight := heights[clIndexPath];
          var newHeight := heights[indexPath];
          if indexPath != clIndexPath && yInTarget > newHeight - oldHeight && CanMoveRowAt(dataSource, indexPath) {
            heights := Moved(heights, clIndexPath, indexPath);
            moves := moves + [Move(clIndexPath, indexPath)];
            currentLocationIndexPath := Some(indexPath);
            assert State() == s';
          } else {
            assert s' == s;
          }
        }
      }
    }

    /** `_longPress`: one gesture callback. Returns whether the gesture was cancelled. */
    method LongPress(t: Touch) returns (cancelled: bool)
      requires Valid() && HitFits(t.hit, State())
      modifies this
      ensures Valid()
      ensures cancelled == Cancels(old(State()), Configuration(), t)
      ensures State() == LongPressStep(old(State()), Configuration(), t)
    {
      var rows := CountRows([|heights|]);
      if || rows == 0
         || (t.state == Began && t.hit.None?)
         || (t.state == Ended && currentLocationIndexPath.None?)
         || (t.state == Began && !CanMoveRowAt(dataSource, t.hit.value))
      {
        CancelGesture();
        return true;
      }
      cancelled := false;
      if t.state == Began {
        BeginDrag(t);
      } else if t.state == Changed {
        FollowDrag(t);
      } else if t.state == Ended {
        EndDrag();
      } else if t.state == Cancelled || t.state == Failed {
        previousGestureVerticalPosition := None;
      }
    }

    /** The `.ended` branch of `_longPress`: stop auto-scrolling and start the drop animation. */
    method EndDrag()
      requires Valid()
      modifies this
      ensures Valid()
      ensures State() == EndedStep(old(State()))
    {
      previousGestureVerticalPosition := None;
      displayLinkArmed := false;
      scrollRate := 0.0;
      pendingDrops := pendingDrops + 1;
    }

    /** The `.began` branch of `_longPress`. */
    method BeginDrag(t: Touch)
      requires Valid() && t.hit.Some? && t.hit.value < |heights|
      modifies this
      ensures Valid()
      ensures State() == BeganStep(old(State()), t)
    {
      previousGestureVerticalPosition := Some(t.location.y);
      if t.cellVisible {
        if draggingView.None? {
          draggingView := Some(t.location.y);
          ghostViews := ghostViews + 1;
        }
        currentLocationIndexPath := t.hit;
        initialIndexPath := t.hit;
        displayLinkArmed := true;
      }
    }

    /** The `.changed` branch of `_longPress`. */
    method FollowDrag(t: Touch)
      requires Valid() && HitFits(t.hit, State())
      modifies this
      ensures Valid()
      ensures State() == ChangedStep(old(State()), Configuration(), t)
    {
      var location := t.location;
      TrackPointer(location.y);
      UpdateCurrentLocation(t.hit, t.yInTarget);
      scrollRate := ScrollRate(location.y, contentOffset.y, viewport);
    }

    /** The ghost view follows the pointer and the delegate hears of vertical movement. */
    method TrackPointer(y: real)
      requires Valid()
      modifies this
      ensures Valid()
      ensures State() == FollowPointer(old(State()), Configuration(), y)
    {
      if draggingView.Some? {
        if GhostFollows(y, viewport) {
          draggingView := Some(y);
        }
        if previousGestureVerticalPosition.None? || y != previousGestureVerticalPosition.value {
          gestureChangedCalls := gestureChangedCalls + 1;
          previousGestureVerticalPosition := Some(y);
        }
      }
    }

    /** The completion block of the drop animation started by `.ended`. */
    method FinishDrop()
      requires Valid() && pendingDrops > 0
      modifies this
      ensures Valid()
      ensures State() == FinishDropStep(old(State()), Configuration())
      ensures currentLocationIndexPath.None? && draggingView.None? && ghostViews == 0
    {
      if draggingView.Some? {
        ghostViews := ghostViews - 1;
      }
      currentLocationIndexPath := None;
      draggingView := None;
      pendingDrops := pendingDrops - 1;
    }

    /** `_scrollTableWithCell`: one display-link callback. */
    method ScrollTableWithCell(tick: Tick)
      requires Valid() && HitFits(tick.hit, State())
      modifies this
      ensures Valid()
      ensures State() == TickStep(old(State()), Configuration(), tick)
    {
      ghost var s := State();
      var location := tick.location;
      if !(location.yIsNaN || location.xIsNaN) {
        contentOffset := ScrolledOffset(contentOffset, scrollRate, viewport);
        if draggingView.Some? {
          if GhostFollows(location.at.y, viewport) {
            draggingView := Some(location.at.y);
          }
        }
        UpdateCurrentLocation(tick.hit, tick.yInTarget);
      }
    }
  }
}
