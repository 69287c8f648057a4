/**
 * The long-press reorder controller of the refactored LPRTableView (the
 * `LPRTableView` folder): the same drag session as the single-file version,
 * split into `isValidMovement`, one handler per gesture state and a separate
 * auto-scroll callback. It has no vertical-position notification, ignores
 * `.cancelled`, lets every row move when the data source is silent, and its
 * auto-scroll guard is inverted (see `ScrollTableView` and `IntendedTickStep`).
 *
 * As in the other version the table has one section, its rows are kept as the
 * sequence of their heights, and UIKit's hit-testing arrives as inputs.
 */
module TableView {
  import opened Rows
  import opened Geometry
  import opened Host
  import opened DropTarget

  /** `dataSource?.tableView?(self, canMoveRowAtIndexPath:) ?? true`. */
  function CanMoveRowAtIndexPath(dataSource: DataSource, row: nat): (r: bool)
    ensures dataSource.NoDataSource? ==> r
    ensures dataSource.Attached? && dataSource.canMoveRow.NotImplemented? ==> r
    ensures dataSource.Attached? && dataSource.canMoveRow.Implemented? ==>
              r == dataSource.canMoveRow.canMove(row)
  {
    match dataSource
    case Attached(Implemented(canMove)) => canMove(row)
    case _ => true
  }

  /** `shouldMoveRowAtIndexPath(_:forGestureRecognizer:)`: every row, for every gesture. */
  function ShouldMoveRowAtIndexPath(row: nat, state: GestureState): (r: bool)
    ensures r
  {
    true
  }

  /** Every field of the table that the refactored controller reads or writes. */
  datatype Session = Session(
    heights: seq<real>,            // the table's rows, top to bottom, by height
    contentOffset: Point,
    initialIndexPath: Option<nat>,
    currentLocationIndexPath: Option<nat>,
    draggingView: Option<real>,    // the ghost view, by the height of its centre
    ghostViews: nat,               // ghost views added to the table and not yet removed
    scrollRate: real,
    displayLinkArmed: bool,        // scrollDisplayLink is scheduled
    moves: seq<Move>,              // moveRowAtIndexPath calls, to the table and its data source, in order
    cancellations: nat,            // cancelGesture() calls
    pendingDrops: nat)             // drop animations whose completion has not yet run
  {
    /**
     * Held rows exist, the only ghost view on screen is `draggingView`, the
     * delegate proposes existing rows, the zone height is not zero, and a
     * table without a data source has no rows.
     */
    ghost predicate Valid(c: Config)
    {
      && (currentLocationIndexPath.Some? ==> currentLocationIndexPath.value < |heights|)
      && (initialIndexPath.Some? ==> initialIndexPath.value < |heights|)
      && ghostViews == (if draggingView.Some? then 1 else 0)
      && TargetHookFits(c.targetHook, |heights|)
      && c.viewport.boundsHeight != c.viewport.insetTop
      && (c.dataSource.NoDataSource? ==> heights == [])
    }

    /** The table's rows are the rows it was loaded with, rearranged by exactly the notified moves. */
    ghost predicate TracksMoves(loaded: seq<real>)
    {
      |loaded| == |heights| && MovesFit(moves, |loaded|) && heights == Replay(loaded, moves)
    }

    /** No drag is in progress and nothing of one is left on screen. */
    predicate Idle()
    {
      currentLocationIndexPath.None? && draggingView.None? && ghostViews == 0 && !displayLinkArmed
    }
  }

  ghost predicate HitFits(hit: Option<nat>, s: Session)
  {
    hit.Some? ==> hit.value < |s.heights|
  }

  /**
   * `isValidMovement`: the rows of all sections, added up by `reduce`, must
   * not be zero; a `.Began` must hit a row that the data source and
   * `shouldMoveRowAtIndexPath` let move; an `.Ended` needs a held row.
   */
  function IsValidMovement(s: Session, c: Config, state: GestureState, hit: Option<nat>): (r: bool)
    ensures r ==> s.heights != []
    ensures r && state == Began ==> hit.Some? && CanMoveRowAtIndexPath(c.dataSource, hit.value)
    ensures r && state == Ended ==> s.currentLocationIndexPath.Some?
  {
    var numberOfRows := Sum([|s.heights|]);
    if numberOfRows == 0 then false
    else if state == Began then
      !(hit.None? || !CanMoveRowAtIndexPath(c.dataSource, hit.value) || !ShouldMoveRowAtIndexPath(hit.value, state))
    else if state == Ended then s.currentLocationIndexPath.Some?
    else true
  }

  /**
   * `isValidMovement` as the delegate protocol describes it: a `.Began` is
   * also refused when the delegate's `shouldMoveRowAtIndexPath` answer,
   * `delegateAllows`, is no.
   */
  function IntendedIsValidMovement(s: Session, c: Config, state: GestureState, hit: Option<nat>, delegateAllows: bool): (r: bool)
    ensures r && state == Began ==> delegateAllows
  {
    if s.heights == [] then false
    else if state == Began then hit.Some? && CanMoveRowAtIndexPath(c.dataSource, hit.value) && delegateAllows
    else if state == Ended then s.currentLocationIndexPath.Some?
    else true
  }

  /**
   * The intended guard refuses what `isValidMovement` refuses and, for a
   * press, also what the delegate vetoes; with a delegate that allows the
   * press (the protocol's default) the two agree.
   */
  lemma IntendedGuardHonoursDelegate(s: Session, c: Config, state: GestureState, hit: Option<nat>, delegateAllows: bool)
    ensures IntendedIsValidMovement(s, c, state, hit, true) == IsValidMovement(s, c, state, hit)
    ensures IntendedIsValidMovement(s, c, state, hit, delegateAllows) ==> IsValidMovement(s, c, state, hit)
    ensures state == Began && !delegateAllows ==> !IntendedIsValidMovement(s, c, state, hit, delegateAllows)
    ensures state != Began ==>
              IntendedIsValidMovement(s, c, state, hit, delegateAllows) == IsValidMovement(s, c, state, hit)
  {
  }

  /** `updateCurrentLocation`: promote the drop target and apply that one move, or change nothing. */
  function UpdateStep(s: Session, c: Config, hit: Option<nat>, yInTarget: real): (r: Session)
    requires s.Valid(c) && HitFits(hit, s)
    ensures r.Valid(c)
    ensures r == s || (
      && s.currentLocationIndexPath.Some? && r.currentLocationIndexPath.Some?
      && var hold, target := s.currentLocationIndexPath.value, r.currentLocationIndexPath.value;
         && target < |s.heights| && target != hold
         && r.heights == Moved(s.heights, hold, target)
         && r.moves == s.moves + [Move(hold, target)])
  {
    if hit.None? || s.currentLocationIndexPath.None? then s
    else
      var hold := s.currentLocationIndexPath.value;
      var target := Target(hit.value, s.initialIndexPath, c.targetHook);
      TargetFits(hit.value, s.initialIndexPath, c.targetHook, |s.heights|);
      if Promotes(s.heights, hold, target, yInTarget, CanMoveRowAtIndexPath(c.dataSource, target)) then
        s.(heights := Moved(s.heights, hold, target),
           moves := s.moves + [Move(hold, target)],
           currentLocationIndexPath := Some(target))
      else s
  }

  /** `longPressBegan`: hold the pressed row, show one ghost view and arm auto-scrolling. */
  function BeganStep(s: Session, t: Touch): (r: Session)
    ensures r.heights == s.heights && r.moves == s.moves && r.contentOffset == s.contentOffset
    ensures t.hit.None? || !t.cellVisible ==> r == s
    ensures t.hit.Some? && t.cellVisible ==>
              && r.currentLocationIndexPath == r.initialIndexPath == t.hit
              && r.draggingView.Some? && r.displayLinkArmed
    ensures s.ghostViews == (if s.draggingView.Some? then 1 else 0) ==>
              r.ghostViews == (if r.draggingView.Some? then 1 else 0)
  {
    if t.hit.None? || !t.cellVisible then s
    else
      var s1 :=
        if s.draggingView.None?
        then s.(draggingView := Some(t.location.y), ghostViews := s.ghostViews + 1)
        else s;
      s1.(currentLocationIndexPath := t.hit, initialIndexPath := t.hit, displayLinkArmed := true)
  }

  /** `longPressChanged`: the ghost follows the pointer, the drop target is resolved, the scroll rate set. */
  function ChangedStep(s: Session, c: Config, t: Touch): (r: Session)
    requires s.Valid(c) && HitFits(t.hit, s)
    ensures r.Valid(c)
    ensures r.(draggingView := s.draggingView, scrollRate := s.scrollRate) == UpdateStep(s, c, t.hit, t.yInTarget)
    ensures s.draggingView.Some? && GhostFollows(t.location.y, c.viewport) ==> r.draggingView == Some(t.location.y)
    ensures s.draggingView.None? || !GhostFollows(t.location.y, c.viewport) ==> r.draggingView == s.draggingView
    ensures r.scrollRate == ScrollRate(t.location.y, s.contentOffset.y, c.viewport)
  {
    var y := t.location.y;
    var s1 := if s.draggingView.Some? && GhostFollows(y, c.viewport) then s.(draggingView := Some(y)) else s;
    var s2 := UpdateStep(s1, c, t.hit, t.yInTarget);
    s2.(scrollRate := ScrollRate(y, s2.contentOffset.y, c.viewport))
  }

  /** `longPressEnded`: stop auto-scrolling; animate the drop only when a ghost and a held row exist. */
  function EndedStep(s: Session): (r: Session)
    ensures !r.displayLinkArmed && r.scrollRate == 0.0
    ensures r.pendingDrops > s.pendingDrops <==> s.draggingView.Some? && s.currentLocationIndexPath.Some?
    ensures r.pendingDrops <= s.pendingDrops + 1
    ensures r.heights == s.heights && r.moves == s.moves
    ensures r.currentLocationIndexPath == s.currentLocationIndexPath && r.draggingView == s.draggingView
    ensures r.ghostViews == s.ghostViews
  {
    var s1 := s.(displayLinkArmed := false, scrollRate := 0.0);
    if s1.draggingView.Some? && s1.currentLocationIndexPath.Some?
    then s1.(pendingDrops := s1.pendingDrops + 1)
    else s1
  }

  /** `longPressGestureRecognized`: cancel an invalid movement, else dispatch on the state. */
  function LongPressStep(s: Session, c: Config, t: Touch): (r: Session)
    requires s.Valid(c) && HitFits(t.hit, s)
    ensures r.Valid(c)
    ensures r.cancellations != s.cancellations <==> !IsValidMovement(s, c, t.state, t.hit)
    ensures r.contentOffset == s.contentOffset
    ensures t.state != Changed ==> r.heights == s.heights && r.moves == s.moves
  {
    if !IsValidMovement(s, c, t.state, t.hit) then s.(cancellations := s.cancellations + 1)
    else if t.state == Began then BeganStep(s, t)
    else if t.state == Changed then ChangedStep(s, c, t)
    else if t.state == Ended then EndedStep(s)
    else s
  }

  /**
   * The completion block of the drop animation: remove the ghost view and forget the held row.
   * It is the same code as the legacy completion; `LegacyTableView.FinishDropStep` mirrors it.
   */
  function FinishDropStep(s: Session, c: Config): (r: Session)
    requires s.Valid(c) && s.pendingDrops > 0
    ensures r.Valid(c)
    ensures r.currentLocationIndexPath.None? && r.draggingView.None? && r.ghostViews == 0
    ensures !s.displayLinkArmed ==> r.Idle()
    ensures r.heights == s.heights && r.moves == s.moves && r.pendingDrops == s.pendingDrops - 1
  {
    s.(ghostViews := if s.draggingView.Some? then s.ghostViews - 1 else s.ghostViews,
       currentLocationIndexPath := None,
       draggingView := None,
       pendingDrops := s.pendingDrops - 1)
  }

  /**
   * One auto-scroll step that is allowed to run: scroll, let the ghost follow,
   * resolve the target. With a not-a-number height the pointer's height inside
   * the cell is not a number too, the threshold comparison is false and no row
   * moves, so the target is resolved only for a real height.
   */
  function ScrollAndFollow(s: Session, c: Config, tick: Tick): (r: Session)
    requires s.Valid(c) && HitFits(tick.hit, s)
    ensures r.Valid(c)
    ensures r.contentOffset == ScrolledOffset(s.contentOffset, s.scrollRate, c.viewport)
    ensures r.contentOffset.x == s.contentOffset.x && r.scrollRate == s.scrollRate
    ensures r.displayLinkArmed == s.displayLinkArmed && r.ghostViews == s.ghostViews
    ensures tick.location.yIsNaN ==> r.draggingView == s.draggingView
    ensures !tick.location.yIsNaN ==> var u := UpdateStep(s, c, tick.hit, tick.yInTarget);
      r.heights == u.heights && r.moves == u.moves && r.currentLocationIndexPath == u.currentLocationIndexPath
    ensures tick.location.yIsNaN ==>
      r.heights == s.heights && r.moves == s.moves && r.currentLocationIndexPath == s.currentLocationIndexPath
  {
    var y := tick.location.at.y;
    var s1 := s.(contentOffset := ScrolledOffset(s.contentOffset, s.scrollRate, c.viewport));
    var s2 :=
      if s1.draggingView.Some? && !tick.location.yIsNaN && GhostFollows(y, c.viewport)
      then s1.(draggingView := Some(y)) else s1;
    if tick.location.yIsNaN then s2 else UpdateStep(s2, c, tick.hit, tick.yInTarget)
  }

  /**
   * `scrollTableView` as written: its guard lets the callback through only
   * when a coordinate of the pointer is not a number, and returns at once for
   * every ordinary location.
   */
  function TickStep(s: Session, c: Config, tick: Tick): (r: Session)
    requires s.Valid(c) && HitFits(tick.hit, s)
    ensures r.Valid(c)
    ensures r.contentOffset != s.contentOffset ==> tick.location.Degenerate()
    ensures r.contentOffset.x == s.contentOffset.x && r.scrollRate == s.scrollRate
    ensures tick.location.yIsNaN ==>
      r.heights == s.heights && r.moves == s.moves && r.currentLocationIndexPath == s.currentLocationIndexPath
  {
    if !tick.location.Degenerate() then s else ScrollAndFollow(s, c, tick)
  }

  /** `scrollTableView` as evidently intended: skip a not-a-number location, run for every other. */
  function IntendedTickStep(s: Session, c: Config, tick: Tick): (r: Session)
    requires s.Valid(c) && HitFits(tick.hit, s)
    ensures r.Valid(c)
    ensures tick.location.Degenerate() ==> r == s
    ensures r.contentOffset.x == s.contentOffset.x && r.scrollRate == s.scrollRate
  {
    if tick.location.Degenerate() then s else ScrollAndFollow(s, c, tick)
  }

  // ---------------------------------------------------------------------------
  // Properties of the callbacks

  /**
   * An invalid movement is cancelled and changes nothing else; a valid one
   * runs exactly the handler of its state, and `.Cancelled`, `.Failed` and
   * `.Possible` change nothing at all: the ghost view and the display link
   * stay as they were.
   */
  lemma DispatchRunsOneHandler(s: Session, c: Config, t: Touch)
    requires s.Valid(c) && HitFits(t.hit, s)
    ensures !IsValidMovement(s, c, t.state, t.hit) ==>
              LongPressStep(s, c, t) == s.(cancellations := s.cancellations + 1)
    ensures IsValidMovement(s, c, t.state, t.hit) ==>
              LongPressStep(s, c, t).cancellations == s.cancellations
    ensures IsValidMovement(s, c, t.state, t.hit) && t.state == Began ==> LongPressStep(s, c, t) == BeganStep(s, t)
    ensures IsValidMovement(s, c, t.state, t.hit) && t.state == Changed ==> LongPressStep(s, c, t) == ChangedStep(s, c, t)
    ensures IsValidMovement(s, c, t.state, t.hit) && t.state == Ended ==> LongPressStep(s, c, t) == EndedStep(s)
    ensures t.state !in {Began, Changed, Ended} ==>
              LongPressStep(s, c, t) == s || LongPressStep(s, c, t) == s.(cancellations := s.cancellations + 1)
  {
    if IsValidMovement(s, c, t.state, t.hit) && t.state == Changed {
      var y := t.location.y;
      var s1 := if s.draggingView.Some? && GhostFollows(y, c.viewport) then s.(draggingView := Some(y)) else s;
      UpdatePromotesExactly(s1, c, t.hit, t.yInTarget);
    }
  }

  /**
   * `isValidMovement` rejects exactly an empty table, a `.Began` that hits no
   * row or a row the data source will not move, and an `.Ended` without a held
   * row; `shouldMoveRowAtIndexPath` never rejects anything.
   */
  lemma ValidMovementExactly(s: Session, c: Config, state: GestureState, hit: Option<nat>)
    ensures !IsValidMovement(s, c, state, hit) <==>
              || s.heights == []
              || (state == Began && (hit.None? || !CanMoveRowAtIndexPath(c.dataSource, hit.value)))
              || (state == Ended && s.currentLocationIndexPath.None?)
  {
  }

  /**
   * A valid press on a visible cell holds the pressed row both as the start
   * and as the current position, shows exactly one ghost view (a ghost still
   * on screen is reused) and arms auto-scrolling; rows do not move.
   */
  lemma BeganStartsDrag(s: Session, c: Config, t: Touch)
    requires s.Valid(c) && HitFits(t.hit, s)
    requires t.state == Began && IsValidMovement(s, c, t.state, t.hit) && t.cellVisible
    ensures var s' := LongPressStep(s, c, t);
      && t.hit.Some?
      && s'.currentLocationIndexPath == s'.initialIndexPath == t.hit
      && s'.draggingView.Some? && s'.ghostViews == 1
      && s'.displayLinkArmed
      && s'.heights == s.heights && s'.moves == s.moves
  {
  }

  /**
   * `updateCurrentLocation` moves the held row exactly when a row is hit, a
   * row is held, the (remapped) target is another row, the pointer is past the
   * height threshold and the target may move; it then sends exactly one
   * `moveRowAtIndexPath(hold, target)` and holds the target. Otherwise nothing changes.
   */
  lemma UpdatePromotesExactly(s: Session, c: Config, hit: Option<nat>, yInTarget: real)
    requires s.Valid(c) && HitFits(hit, s)
    ensures var s' := UpdateStep(s, c, hit, yInTarget);
      if hit.Some? && s.currentLocationIndexPath.Some?
         && var hold, target := s.currentLocationIndexPath.value, Target(hit.value, s.initialIndexPath, c.targetHook);
            target < |s.heights| && Promotes(s.heights, hold, target, yInTarget, CanMoveRowAtIndexPath(c.dataSource, target))
      then
        var hold, target := s.currentLocationIndexPath.value, Target(hit.value, s.initialIndexPath, c.targetHook);
        && s'.moves == s.moves + [Move(hold, target)]
        && s'.heights == Moved(s.heights, hold, target)
        && s'.currentLocationIndexPath == Some(target)
        && s'.heights[target] == s.heights[hold]
        && s' == s.(heights := s'.heights, moves := s'.moves, currentLocationIndexPath := s'.currentLocationIndexPath)
      else s' == s
  {
    if hit.Some? && s.currentLocationIndexPath.Some? {
      TargetFits(hit.value, s.initialIndexPath, c.targetHook, |s.heights|);
    }
  }

  /**
   * A release always stops auto-scrolling. Without a ghost view it animates
   * nothing; with one, the drop animation's completion leaves the table idle,
   * with the rows as the drag left them.
   */
  lemma DropEndsDrag(s: Session, c: Config, t: Touch)
    requires s.Valid(c) && HitFits(t.hit, s)
    requires t.state == Ended && IsValidMovement(s, c, t.state, t.hit)
    ensures var ended := LongPressStep(s, c, t);
      && ended.Valid(c)
      && !ended.displayLinkArmed && ended.scrollRate == 0.0
      && (s.draggingView.None? <==> ended.pendingDrops == s.pendingDrops)
      && (s.draggingView.Some? ==>
            var done := FinishDropStep(ended, c);
            done.Idle() && done.heights == s.heights && done.moves == s.moves)
  {
  }

  /**
   * The inverted guard as written: a tick at an ordinary pointer location
   * changes nothing, so the table never auto-scrolls and the held row is not
   * resolved while the pointer rests in a scroll zone.
   */
  lemma InvertedGuardSkipsOrdinaryTicks(s: Session, c: Config, tick: Tick)
    requires s.Valid(c) && HitFits(tick.hit, s) && !tick.location.Degenerate()
    ensures TickStep(s, c, tick) == s
  {
  }

  /**
   * A concrete tick that shows the defect: twenty rows of 100 points in a
   * 600-point frame, at the top, row 5 held with its ghost at the pointer,
   * which rests 10 points above the frame's bottom edge, 90 points into the
   * 100-point bottom scroll zone, so the scroll rate is 0.9. The intended step
   * scrolls 9 points down; the step as written stays at the top.
   */
  lemma InvertedGuardCounterexample()
    ensures var c := Config(Viewport(600.0, 600.0, 2000.0, 0.0, 0.0), Attached(NotImplemented), None);
      var s := Session(seq(20, _ => 100.0), Point(0.0, 0.0), Some(5), Some(5), Some(590.0), 1, 0.9, true, [], 0, 0);
      var tick := Tick(TickLocation(Point(100.0, 590.0), false, false), Some(5), 90.0);
      && s.Valid(c) && HitFits(tick.hit, s)
      && s.scrollRate == ScrollRate(590.0, s.contentOffset.y, c.viewport)
      && IntendedTickStep(s, c, tick).contentOffset == Point(0.0, 9.0)
      && IntendedTickStep(s, c, tick).heights == s.heights
      && TickStep(s, c, tick).contentOffset == Point(0.0, 0.0)
  {
  }

  /**
   * The intended tick: a not-a-number location changes nothing; any other
   * scrolls by the clamped step and never horizontally, and resolves the drop
   * target exactly as `updateCurrentLocation` does.
   */
  lemma IntendedTickScrolls(s: Session, c: Config, tick: Tick)
    requires s.Valid(c) && HitFits(tick.hit, s)
    ensures tick.location.Degenerate() ==> IntendedTickStep(s, c, tick) == s
    ensures !tick.location.Degenerate() ==>
              IntendedTickStep(s, c, tick).contentOffset == ScrolledOffset(s.contentOffset, s.scrollRate, c.viewport)
    ensures IntendedTickStep(s, c, tick).contentOffset.x == s.contentOffset.x
    ensures IntendedTickStep(s, c, tick).scrollRate == s.scrollRate
    ensures !tick.location.Degenerate() ==>
              var r, u := IntendedTickStep(s, c, tick), UpdateStep(s, c, tick.hit, tick.yInTarget);
              r.heights == u.heights && r.moves == u.moves && r.currentLocationIndexPath == u.currentLocationIndexPath
  {
    if !tick.location.Degenerate() {
      var y := tick.location.at.y;
      var s1 := s.(contentOffset := ScrolledOffset(s.contentOffset, s.scrollRate, c.viewport));
      var s2 :=
        if s1.draggingView.Some? && !tick.location.yIsNaN && GhostFollows(y, c.viewport)
        then s1.(draggingView := Some(y)) else s1;
      UpdatePromotesExactly(s2, c, tick.hit, tick.yInTarget);
    }
  }

  /**
   * Every callback keeps the session valid and keeps the table's rows equal
   * to the loaded rows with every notified move replayed in order.
   */
  lemma {:induction false} UpdateKeepsInvariants(s: Session, c: Config, hit: Option<nat>, yInTarget: real, loaded: seq<real>)
    requires s.Valid(c) && HitFits(hit, s) && s.TracksMoves(loaded)
    ensures UpdateStep(s, c, hit, yInTarget).Valid(c)
    ensures UpdateStep(s, c, hit, yInTarget).TracksMoves(loaded)
  {
    var s' := UpdateStep(s, c, hit, yInTarget);
    if s' != s {
      assert hit.Some? && s.currentLocationIndexPath.Some?;
      TargetFits(hit.value, s.initialIndexPath, c.targetHook, |s.heights|);
      assert s'.moves[..|s'.moves| - 1] == s.moves;
      assert MovesFit(s'.moves, |loaded|) by {
        assert forall i :: 0 <= i < |s.moves| ==> s'.moves[i] == s.moves[i];
      }
    }
  }

  lemma LongPressKeepsInvariants(s: Session, c: Config, t: Touch, loaded: seq<real>)
    requires s.Valid(c) && HitFits(t.hit, s) && s.TracksMoves(loaded)
    ensures LongPressStep(s, c, t).Valid(c)
    ensures LongPressStep(s, c, t).TracksMoves(loaded)
  {
    if IsValidMovement(s, c, t.state, t.hit) && t.state == Changed {
      var y := t.location.y;
      var s1 := if s.draggingView.Some? && GhostFollows(y, c.viewport) then s.(draggingView := Some(y)) else s;
      UpdateKeepsInvariants(s1, c, t.hit, t.yInTarget, loaded);
    }
  }

  lemma TickKeepsInvariants(s: Session, c: Config, tick: Tick, loaded: seq<real>)
    requires s.Valid(c) && HitFits(tick.hit, s) && s.TracksMoves(loaded)
    ensures TickStep(s, c, tick).Valid(c) && TickStep(s, c, tick).TracksMoves(loaded)
    ensures IntendedTickStep(s, c, tick).Valid(c) && IntendedTickStep(s, c, tick).TracksMoves(loaded)
  {
    var y := tick.location.at.y;
    var s1 := s.(contentOffset := ScrolledOffset(s.contentOffset, s.scrollRate, c.viewport));
    var s2 :=
      if s1.draggingView.Some? && !tick.location.yIsNaN && GhostFollows(y, c.viewport)
      then s1.(draggingView := Some(y)) else s1;
    UpdateKeepsInvariants(s2, c, tick.hit, tick.yInTarget, loaded);
  }

  // ---------------------------------------------------------------------------
  // The table view itself

  class LPRTableView {
    const viewport: Viewport
    const dataSource: DataSource
    const targetHook: TargetHook

    var heights: seq<real>
    var contentOffset: Point
    var initialIndexPath: Option<nat>
    var currentLocationIndexPath: Option<nat>
    var draggingView: Option<real>
    var ghostViews: nat
    var scrollRate: real
    var displayLinkArmed: bool
    var moves: seq<Move>
    var cancellations: nat
    var pendingDrops: nat

    function Configuration(): Config
    {
      Config(viewport, dataSource, targetHook)
    }

    function State(): Session
      reads this
    {
      Session(heights, contentOffset, initialIndexPath, currentLocationIndexPath,
        draggingView, ghostViews, scrollRate, displayLinkArmed, moves, cancellations, pendingDrops)
    }

    ghost predicate Valid()
      reads this
    {
      State().Valid(Configuration())
    }

    constructor (viewport: Viewport, dataSource: DataSource, targetHook: TargetHook, heights: seq<real>)
      requires TargetHookFits(targetHook, |heights|) && viewport.boundsHeight != viewport.insetTop
      requires dataSource.NoDataSource? ==> heights == []
      ensures Valid() && State().Idle()
      ensures this.viewport == viewport && this.dataSource == dataSource && this.targetHook == targetHook
      ensures this.heights == heights && moves == [] && cancellations == 0 && pendingDrops == 0
    {
      this.viewport, this.dataSource, this.targetHook := viewport, dataSource, targetHook;
      this.heights := heights;
      contentOffset := Point(0.0, 0.0);
      initialIndexPath, currentLocationIndexPath := None, None;
      draggingView, ghostViews := None, 0;
      scrollRate, displayLinkArmed := 0.0, false;
      moves, cancellations, pendingDrops := [], 0, 0;
    }

    /** `cancelGesture`: toggling `enabled` makes the recognizer drop the gesture. */
    method CancelGesture()
      modifies this
      ensures State() == old(State()).(cancellations := old(cancellations) + 1)
    {
      cancellations := cancellations + 1;
    }

    /** `longPressGestureRecognized`. Returns whether the movement was invalid and the gesture cancelled. */
    method LongPressGestureRecognized(t: Touch) returns (cancelled: bool)
      requires Valid() && HitFits(t.hit, State())
      modifies this
      ensures Valid()
      ensures cancelled == !IsValidMovement(old(State()), Configuration(), t.state, t.hit)
      ensures State() == LongPressStep(old(State()), Configuration(), t)
    {
      if !IsValidMovement(State(), Configuration(), t.state, t.hit) {
        CancelGesture();
        return true;
      }
      cancelled := false;
      match t.state {
        case Began => LongPressBegan(t);
        case Changed => LongPressChanged(t);
        case Ended => LongPressEnded();
        case _ =>
      }
    }

    method LongPressBegan(t: Touch)
      requires Valid() && HitFits(t.hit, State())
      modifies this
      ensures Valid()
      ensures State() == BeganStep(old(State()), t)
    {
      if t.hit.None? || !t.cellVisible {
        return;
      }
      if draggingView.None? {
        draggingView := Some(t.location.y);
        ghostViews := ghostViews + 1;
      }
      currentLocationIndexPath := t.hit;
      initialIndexPath := t.hit;
      displayLinkArmed := true;
    }

    method LongPressChanged(t: Touch)
      requires Valid() && HitFits(t.hit, State())
      modifies this
      ensures Valid()
      ensures State() == ChangedStep(old(State()), Configuration(), t)
    {
      var location := t.location;
      if draggingView.Some? {
        if GhostFollows(location.y, viewport) {
          draggingView := Some(location.y);
        }
      }
      UpdateCurrentLocation(t.hit, t.yInTarget);
      scrollRate := ScrollRate(location.y, contentOffset.y, viewport);
    }

    method LongPressEnded()
      requires Valid()
      modifies this
      ensures Valid()
      ensures State() == EndedStep(old(State()))
    {
      displayLinkArmed := false;
      scrollRate := 0.0;
      if draggingView.None? || currentLocationIndexPath.None? {
        return;
      }
      pendingDrops := pendingDrops + 1;
    }

    /** The completion block of the drop animation started by `longPressEnded`. */
    method FinishDrop()
      requires Valid() && pendingDrops > 0
      modifies this
      ensures Valid()
      ensures State() == FinishDropStep(old(State()), Configuration())
    {
      if draggingView.Some? {
        ghostViews := ghostViews - 1;
      }
      currentLocationIndexPath := None;
      draggingView := None;
      pendingDrops := pendingDrops - 1;
    }

    method UpdateCurrentLocation(hit: Option<nat>, yInTarget: real)
      requires Valid() && HitFits(hit, State())
      modifies this
      ensures Valid()
      ensures State() == UpdateStep(old(State()), Configuration(), hit, yInTarget)
    {
      ghost var s, c := State(), Configuration();
      ghost var s' := UpdateStep(s, c, hit, yInTarget);
      if hit.None? {
        return;
      }
      var indexPath := hit.value;
      if initialIndexPath.Some? && targetHook.Some? {
        indexPath := targetHook.value(initialIndexPath.value, indexPath);
      }
      TargetFits(hit.value, initialIndexPath, targetHook, |heights|);
      assert indexPath == Target(hit.value, s.initialIndexPath, c.targetHook);
      if currentLocationIndexPath.Some? {
        var clIndexPath := currentLocationIndexPath.value;
        var oldHeight := heights[clIndexPath];
        var newHeight := heights[indexPath];
        if indexPath != clIndexPath && yInTarget > newHeight - oldHeight && CanMoveRowAtIndexPath(dataSource, indexPath) {
          heights := Moved(heights, clIndexPath, indexPath);
          moves := moves + [Move(clIndexPath, indexPath)];
          currentLocationIndexPath := Some(indexPath);
          assert State() == s';
        } else {
          assert s' == s;
        }
      }
    }

    /** `scrollTableView`, with its guard as written. */
    method ScrollTableView(tick: Tick)
      requires Valid() && HitFits(tick.hit, State())
      modifies this
      ensures Valid()
      ensures State() == TickStep(old(State()), Configuration(), tick)
    {
      var location := tick.location;
      if !(location.xIsNaN || location.yIsNaN) {
        return;
      }
      contentOffset := ScrolledOffset(contentOffset, scrollRate, viewport);
      if draggingView.Some? {
        if !location.yIsNaN && GhostFollows(location.at.y, viewport) {
          draggingView := Some(location.at.y);
        }
      }
      if !location.yIsNaN {
        UpdateCurrentLocation(tick.hit, tick.yInTarget);
      }
    }
  }
}
