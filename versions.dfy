/**
 * How the two versions of the controller relate, and how the example app's
 * delegate hook meets the refactored one.
 */
module VersionComparison {
  import opened Rows
  import opened Host
  import opened DropTarget
  import Legacy = LegacyTableView
  import Refactored = TableView
  import Example = ExampleMaster

  /**
   * The two `canMove` defaults disagree exactly when the table has no data
   * source: the single-file version then refuses every row, the refactored one
   * allows every row.
   */
  lemma CanMoveDefaultsDiffer(dataSource: DataSource, row: nat)
    ensures (Legacy.CanMoveRowAt(dataSource, row) != Refactored.CanMoveRowAtIndexPath(dataSource, row))
            <==> dataSource.NoDataSource?
  {
  }

  /**
   * The difference never shows in the guard: a table without a data source
   * has no rows and is cancelled by both, so for matching fields the
   * single-file guard cancels exactly the gestures `isValidMovement` refuses,
   * in every gesture state.
   */
  lemma GuardsAgree(ls: Legacy.Snapshot, rs: Refactored.Session, c: Config, t: Touch)
    requires ls.Valid(c)
    requires ls.heights == rs.heights && ls.currentLocationIndexPath == rs.currentLocationIndexPath
    ensures Legacy.Cancels(ls, c, t) <==> !Refactored.IsValidMovement(rs, c, t.state, t.hit)
  {
    if c.dataSource.NoDataSource? {
      assert Sum(Legacy.SectionRowCounts(ls)) == 0;
    } else if t.state == Began && t.hit.Some? {
      assert Legacy.CanMoveRowAt(c.dataSource, t.hit.value) == Refactored.CanMoveRowAtIndexPath(c.dataSource, t.hit.value);
    }
  }

  /** Both versions resolve the drop target alike: the same rows, moves and held row afterwards. */
  lemma PromotionAgrees(ls: Legacy.Snapshot, rs: Refactored.Session, c: Config, hit: Option<nat>, yInTarget: real)
    requires ls.Valid(c) && rs.Valid(c) && Legacy.HitFits(hit, ls)
    requires ls.heights == rs.heights && ls.moves == rs.moves
    requires ls.currentLocationIndexPath == rs.currentLocationIndexPath && ls.initialIndexPath == rs.initialIndexPath
    ensures var l, r := Legacy.UpdateStep(ls, c, hit, yInTarget), Refactored.UpdateStep(rs, c, hit, yInTarget);
      l.heights == r.heights && l.moves == r.moves && l.currentLocationIndexPath == r.currentLocationIndexPath
  {
    Legacy.UpdatePromotesExactly(ls, c, hit, yInTarget);
    Refactored.UpdatePromotesExactly(rs, c, hit, yInTarget);
    if hit.Some? && ls.currentLocationIndexPath.Some? {
      var target := Target(hit.value, ls.initialIndexPath, c.targetHook);
      TargetFits(hit.value, ls.initialIndexPath, c.targetHook, |ls.heights|);
      assert Legacy.CanMoveRowAt(c.dataSource, target) == Refactored.CanMoveRowAtIndexPath(c.dataSource, target);
    }
  }

  /**
   * The example app vetoes a press on the right half of a cell, yet the
   * refactored table never asks it: such a press is a valid movement and the
   * drag starts. The intended guard refuses it.
   */
  lemma DelegateVetoIsIgnored(rs: Refactored.Session, c: Config, t: Touch, xInCell: real, cellWidth: real)
    requires rs.Valid(c) && Refactored.HitFits(t.hit, rs)
    requires t.state == Began && t.hit.Some? && t.cellVisible
    requires Refactored.CanMoveRowAtIndexPath(c.dataSource, t.hit.value)
    requires 2.0 * xInCell > cellWidth
    ensures !Example.ShouldMoveRowAtIndexPath(t.hit, t.cellVisible, xInCell, cellWidth)
    ensures Refactored.IsValidMovement(rs, c, t.state, t.hit)
    ensures Refactored.LongPressStep(rs, c, t).currentLocationIndexPath == t.hit
    ensures !Refactored.IntendedIsValidMovement(rs, c, t.state, t.hit,
              Example.ShouldMoveRowAtIndexPath(t.hit, t.cellVisible, xInCell, cellWidth))
  {
  }
}
