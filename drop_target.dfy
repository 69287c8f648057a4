/**
 * The drop-target promotion rule used by `updateCurrentLocation` in both
 * versions of the controller, and why its height threshold prevents the
 * dragged row from oscillating between two neighbours of different heights.
 */
module DropTarget {
  import opened Rows
  import opened Host

  /** The drop target: the hit row, remapped by the delegate hook once a drag start is recorded. */
  function Target(hit: nat, initial: Option<nat>, hook: TargetHook): (r: nat)
    ensures initial.None? || hook.None? ==> r == hit
  {
    if initial.Some? && hook.Some? then hook.value(initial.value, hit) else hit
  }

  lemma TargetFits(hit: nat, initial: Option<nat>, hook: TargetHook, n: nat)
    requires hit < n && (initial.Some? ==> initial.value < n) && TargetHookFits(hook, n)
    ensures Target(hit, initial, hook) < n
  {
  }

  /**
   * The held row moves to `target` only if it is another row, the pointer is
   * lower inside the target cell than the target's height exceeds the held
   * row's, and the data source lets the target row move.
   */
  function Promotes(heights: seq<real>, hold: nat, target: nat, yInTarget: real, targetMovable: bool): (r: bool)
    requires hold < |heights| && target < |heights|
    ensures r ==> target != hold && targetMovable
    ensures target != hold && targetMovable && heights[target] <= heights[hold] && yInTarget > 0.0 ==> r
    ensures r ==> yInTarget > heights[target] - heights[hold]
  {
    target != hold && yInTarget > heights[target] - heights[hold] && targetMovable
  }

  /** The top edge of row `i`: the heights of the rows above it, added up. */
  function RowTop(heights: seq<real>, i: nat): real
    requires i <= |heights|
  {
    if i == 0 then 0.0 else RowTop(heights, i - 1) + heights[i - 1]
  }

  /** The height `y` lies inside row `i`. */
  predicate InRow(heights: seq<real>, i: nat, y: real)
    requires i < |heights|
  {
    RowTop(heights, i) <= y < RowTop(heights, i) + heights[i]
  }

  ghost predicate NonNegative(heights: seq<real>)
  {
    forall k :: 0 <= k < |heights| ==> heights[k] >= 0.0
  }

  lemma {:induction false} RowTopDependsOnRowsAbove(a: seq<real>, b: seq<real>, i: nat)
    requires i <= |a| && i <= |b| && a[..i] == b[..i]
    ensures RowTop(a, i) == RowTop(b, i)
  {
    if i > 0 {
      assert a[..i - 1] == a[..i][..i - 1] && b[..i - 1] == b[..i][..i - 1];
      assert a[i - 1] == a[..i][i - 1];
      RowTopDependsOnRowsAbove(a, b, i - 1);
    }
  }

  lemma {:induction false} RowTopBelow(heights: seq<real>, i: nat, j: nat)
    requires NonNegative(heights) && i < j <= |heights|
    ensures RowTop(heights, i) + heights[i] <= RowTop(heights, j)
    decreases j
  {
    if j > i + 1 {
      RowTopBelow(heights, i, j - 1);
    }
  }

  /** With no negative heights, a height lies in at most one row. */
  lemma RowsAreDisjoint(heights: seq<real>, i: nat, j: nat, y: real)
    requires NonNegative(heights) && i < |heights| && j < |heights|
    requires InRow(heights, i, y) && InRow(heights, j, y)
    ensures i == j
  {
    if i < j {
      RowTopBelow(heights, i, j);
    } else if j < i {
      RowTopBelow(heights, j, i);
    }
  }

  /** Moving a row down: the rows it passes each move up by its height. */
  lemma {:induction false} RowTopAfterMoveDown(heights: seq<real>, hold: nat, target: nat, i: nat)
    requires hold < target < |heights| && hold <= i <= target
    ensures RowTop(Moved(heights, hold, target), i) == RowTop(heights, i + 1) - heights[hold]
    decreases i
  {
    var moved := Moved(heights, hold, target);
    if i == hold {
      assert moved[..hold] == heights[..hold] by {
        forall k | 0 <= k < hold ensures moved[k] == heights[k] {
          MovedAt(heights, hold, target, k);
        }
      }
      RowTopDependsOnRowsAbove(heights, moved, hold);
    } else {
      RowTopAfterMoveDown(heights, hold, target, i - 1);
      MovedAt(heights, hold, target, i - 1);
    }
  }

  /** Moving a row up: the rows it passes each move down by its height. */
  lemma {:induction false} RowTopAfterMoveUp(heights: seq<real>, hold: nat, target: nat, i: nat)
    requires target < hold < |heights| && target < i <= hold + 1
    ensures RowTop(Moved(heights, hold, target), i) == RowTop(heights, i - 1) + heights[hold]
    decreases i
  {
    var moved := Moved(heights, hold, target);
    if i == target + 1 {
      assert moved[..target] == heights[..target] by {
        forall k | 0 <= k < target ensures moved[k] == heights[k] {
          MovedAt(heights, hold, target, k);
        }
      }
      RowTopDependsOnRowsAbove(heights, moved, target);
    } else {
      RowTopAfterMoveUp(heights, hold, target, i - 1);
      MovedAt(heights, hold, target, i - 1);
    }
  }

  /**
   * The threshold's purpose: after the held row is promoted to the row under
   * a pointer at height `y` (no remapping hook), however far away that row is,
   * the row that the next hit test finds at the same height does not satisfy
   * the rule, so the dragged row is not moved back and forth while the
   * pointer stays still. Moving down, the pointer lies in the dragged row
   * itself; moving up, in the dragged row or in the row just below it.
   */
  lemma PromotionDoesNotSwapBack(heights: seq<real>, hold: nat, target: nat, y: real, next: nat, nextMovable: bool)
    requires NonNegative(heights) && hold < |heights| && target < |heights|
    requires InRow(heights, target, y)
    requires Promotes(heights, hold, target, y - RowTop(heights, target), true)
    requires next < |heights| && InRow(Moved(heights, hold, target), next, y)
    ensures !Promotes(Moved(heights, hold, target), target, next, y - RowTop(Moved(heights, hold, target), next), nextMovable)
  {
    var moved := Moved(heights, hold, target);
    assert NonNegative(moved) by {
      forall k | 0 <= k < |moved| ensures moved[k] >= 0.0 {
        MovedAt(heights, hold, target, k);
      }
    }
    MovedLandsAtTarget(heights, hold, target);
    if hold < target {
      RowTopAfterMoveDown(heights, hold, target, target);
      assert InRow(moved, target, y);
      RowsAreDisjoint(moved, next, target, y);
    } else {
      RowTopAfterMoveUp(heights, hold, target, target + 1);
      assert RowTop(moved, target + 1) == RowTop(moved, target) + moved[target];
      if y < RowTop(heights, target) + heights[hold] {
        assert InRow(moved, target, y);
        RowsAreDisjoint(moved, next, target, y);
      } else {
        MovedAt(heights, hold, target, target + 1);
        assert InRow(moved, target + 1, y);
        RowsAreDisjoint(moved, next, target + 1, y);
      }
    }
  }
}
