# LPRTableView long-press reorder, modelled in Dafny

LPRTableView is a `UITableView` subclass for iOS. A long press on a row lifts
a "ghost" image of the row. Dragging it moves the row through the table one
promotion at a time, and the table scrolls on its own while the finger rests
near the top or bottom edge. Every row move is applied to the table and
reported, through optional chaining, to a data source that implements
`moveRowAtIndexPath`. The two example apps implement it and apply each call
to their array of dates.

This project models:

- **the single-file controller** (`LPRTableView.swift`, module
  `LegacyTableView`, file `lpr_table_view_legacy.dfy`).
- **the refactored controller** (`LPRTableView/LPRTableView.swift`, module
  `TableView`, file `lpr_table_view.dfy`).
- **the two example data sources** (modules `ExampleMaster` and
  `ReorderTestMaster`).
- **the pieces both controllers share** (modules `Rows`, `Geometry`,
  `DropTarget` and `Host`).
- **a comparison of the two versions** (module `VersionComparison`).

Each controller has the same shape:

- A snapshot datatype holds every field the controller reads or writes: `Snapshot` for the single-file version and `Session` for the refactored one.
- Pure `...Step` functions state what each callback does to that snapshot.
- A `class LPRTableView` performs the same updates field by field. Each of its methods ensures that its new `State()` is the step function applied to `old(State())`.
- Lemmas about the step functions carry the properties.

The model's conventions:

- **Rows.** The table has one section. A row index path is a `nat`. The table's rows are the sequence of their heights, top to bottom.
- **UIKit answers.** Hit-testing arrives as an input: `indexPathForRow(at:)` as `Option<nat>`, `cellForRow(at:)` as a visibility flag, and the pointer's height inside the target cell as a `real`.
- **Numbers.** `CGFloat`s are exact reals. A not-a-number pointer coordinate is a flag.
- **Moves.** Every `moveRow` the table performs is appended to `moves`. The model's data sources implement `moveRowAtIndexPath`, so they receive the same moves, and `Rows.ReplayAt` shows that a table and a data source receiving the same moves stay aligned row by row.

The two versions differ in the following ways, and the model keeps them apart:

- **`canMove` default with no data source.** The single-file version then refuses every row, and the refactored one allows every row. `VersionComparison.GuardsAgree` shows that the guards still cancel the same gestures, because a table without a data source has no rows.
- **Extra bookkeeping in the single-file version.** Only it records the previous vertical position, notifies `draggingGestureChanged`, and handles `.cancelled`.
- **Drop animation.** The refactored `longPressEnded` animates only when a ghost view and a held row exist.
- **Auto-scroll guard.** The refactored auto-scroll guard is inverted (see Findings).

## Model

| member | source | states |
|---|---|---|
| Rows.RemoveAt | Example/MasterViewController.swift:62 | `removeAtIndex(i)`: one element shorter, rows before `i` kept, rows after it shifted down by one |
| Rows.InsertAt | Example/MasterViewController.swift:31 | `insert(x, atIndex: i)`: one element longer, `x` at `i`, rows before kept, rows from `i` on shifted up by one |
| Rows.RemoveAtMultiset | Example/MasterViewController.swift:62 | removing a row drops exactly that element from the multiset |
| Rows.InsertAtMultiset | Example/MasterViewController.swift:31 | inserting adds exactly that element to the multiset |
| Rows.Moved | LPRTableView.swift:305-306 | a move (remove at `from`, insert at `to`) keeps the row count |
| Rows.MovedAt | Example/MasterViewController.swift:88 | pointwise meaning of a move: the moved row lands at `to`, rows strictly between shift by one, rows outside [min, max] keep their places |
| Rows.MovedLandsAtTarget | Example/MasterViewController.swift:88 | after `moveRow(s, d)` position `d` holds the old element at `s` |
| Rows.MovedIsPermutation | Example/MasterViewController.swift:87-89 | a move is a permutation (same multiset, same length) |
| Rows.MovedToSelfIsIdentity | ReorderTest/ReorderTest/MasterViewController.swift:102 | `moveRow(i, i)` changes nothing |
| Rows.MovedRoundTrip | ReorderTest/ReorderTest/MasterViewController.swift:102 | `moveRow(s, d)` followed by `moveRow(d, s)` restores the array |
| Rows.MovedAdjacentIsSwap | LPRTableView.swift:301-306 | a promotion to a neighbouring row swaps the two rows, in either direction |
| Rows.Replay | LPRTableView.swift:304-308 | replaying a sequence of moves keeps the row count |
| Rows.ReplayAt | LPRTableView.swift:305-306 | every replayed position holds the element of one computable original position, independent of the contents: a table and its data source given the same moves stay aligned |
| Rows.ReplayIsPermutation | LPRTableView.swift:305-306 | any sequence of reported moves permutes the rows |
| Rows.Sum | LPRTableView.swift:114-117 | the row count of a one-section table is that section's count |
| Rows.SumIsZeroIffAllZero | LPRTableView.swift:113-117 | the summed row count is zero exactly when every section is empty |
| Geometry.ScrollRate | LPRTableView.swift:216-231 | in the bottom zone the rate is the pointer's distance past the bottom threshold in zone heights, in the top zone its (negative) distance past the top threshold, and between the thresholds 0 |
| Geometry.ScrollRateZones | LPRTableView.swift:216-231 | with zone height (bounds − top inset)/6 and the bottom zone tested first: rate > 0 exactly below the bottom threshold, < 0 exactly above the top threshold, 0 in between, and within [−1, 1] while the pointer lies between the top inset and the bottom of the bounds (offset + top inset ≤ y ≤ offset + bounds height) |
| Geometry.ScrolledOffset | LPRTableView.swift:323-334 | an auto-scroll step never changes the horizontal offset |
| Geometry.ScrolledOffsetClamped | LPRTableView.swift:323-334 | for content taller than the frame the step lands in [−top inset, content + bottom inset − frame], follows the sign of the rate, advances when not at the bottom, and is exactly `offset + rate·10` when that is in range; a step past the top lands exactly on −top inset, one past the bottom exactly on content + bottom inset − frame |
| Geometry.ScrolledOffsetWhenContentFits | LPRTableView.swift:326-329 | content shorter than the frame keeps its offset unless the step would pass the top inset, which then wins |
| DropTarget.Target | LPRTableView.swift:285-289 | without a held start row or without the delegate's `targetIndexPathForMoveFromRowAt`, the drop target is the hit row |
| DropTarget.TargetFits | LPRTableView.swift:285-289 | the delegate-remapped drop target is an existing row |
| DropTarget.Promotes | LPRTableView.swift:301-303 | a promotion needs another row that may move; a target no taller than the held row is entered as soon as the pointer is inside it, and in general only once the pointer is deeper inside the target than `newHeight − oldHeight` |
| DropTarget.RowTopDependsOnRowsAbove | LPRTableView.swift:292-293 | a row's top edge depends only on the rows above it |
| DropTarget.RowTopBelow | LPRTableView.swift:292-293 | with non-negative heights a row ends at or above the top of every later row |
| DropTarget.RowTopAfterMoveDown | LPRTableView.swift:292-293 | after the held row moves down to `target`, each row from the old position to `target` starts one held-row height higher than the row below it did |
| DropTarget.RowTopAfterMoveUp | LPRTableView.swift:292-293 | after the held row moves up to `target`, each row below `target` down to the old position starts one held-row height lower than the row above it did |
| DropTarget.RowsAreDisjoint | LPRTableView.swift:283 | with non-negative heights a point lies in at most one row |
| DropTarget.PromotionDoesNotSwapBack | LPRTableView.swift:301-303 | after a promotion to the hit row, however far away, the row under the same pointer in the rearranged table is either the held row itself or a row whose `newHeight − oldHeight` threshold the pointer does not pass, so the row does not swap back |
| LegacyTableView.CanMoveRowAt | LPRTableView.swift:99-101 | false without a data source, true when the data source lacks `canMoveRowAt`, otherwise its answer |
| LegacyTableView.CountRows | LPRTableView.swift:114-117 | the loop's `rows` is the sum of the section counts, and is zero exactly when every section is empty |
| LegacyTableView.Cancels | LPRTableView.swift:113-127 | an empty table always cancels; `.changed`, `.cancelled`, `.failed` and `.possible` cancel exactly on an empty table; a press on a row cancels exactly on an empty table or a row the data source refuses |
| LegacyTableView.UpdateStep | LPRTableView.swift:281-314 | the snapshot stays valid, and either nothing changes or the held row moves to another existing row with exactly that one move reported |
| LegacyTableView.BeganStep | LPRTableView.swift:130-189 | records the vertical position, moves no row and does not scroll; on a visible cell it holds the pressed row as start and current row, shows a ghost and arms the display link; one ghost per ghost view is kept |
| LegacyTableView.FollowPointer | LPRTableView.swift:193-207 | without a ghost nothing changes; with one the previous position becomes the pointer's and at most one `draggingGestureChanged` is sent; rows, held row and ghost count do not change |
| LegacyTableView.ChangedStep | LPRTableView.swift:191-232 | the snapshot stays valid; rows, moves and held row are those `UpdateStep` gives for the callback's hit, so `.changed` resolves the drop target; the scroll rate is `ScrollRate` of the pointer; the offset, display link, ghost count and start row are kept |
| LegacyTableView.EndedStep | LPRTableView.swift:234-243 | the display link is off, the rate 0 and the previous position cleared; one drop animation starts; rows, held row and ghost are kept |
| LegacyTableView.LongPressStep | LPRTableView.swift:108-279 | the snapshot stays valid, the cancellation count changes exactly when the guard cancels, no gesture callback scrolls, and rows move only on `.changed` |
| LegacyTableView.FinishDropStep | LPRTableView.swift:258-273 | the snapshot stays valid with no held row and no ghost on screen, idle once the display link is off; rows are kept and one pending animation completes |
| LegacyTableView.TickStep | LPRTableView.swift:316-345 | the snapshot stays valid, a not-a-number location changes nothing, any other tick resolves the drop target (rows, moves and held row as `UpdateStep` gives them), and the horizontal offset, scroll rate, display link and ghost count are kept |
| LegacyTableView.GuardCancelsWithoutChange | LPRTableView.swift:113-127 | an empty table, a press on no row, a release with no held row, or a row the data source refuses: the gesture is cancelled and no other field changes |
| LegacyTableView.BeganStartsDrag | LPRTableView.swift:130-189 | a press on a visible movable row holds it as both start and current row, shows exactly one ghost view (an existing one is reused), arms the display link, records the vertical position, moves nothing |
| LegacyTableView.UpdatePromotesExactly | LPRTableView.swift:281-314 | a move happens exactly when a row is hit, a row is held, the remapped target differs, the pointer passes `newHeight − oldHeight` and the target may move; then one `moveRow(hold, target)`, the held row becomes the target and nothing else changes; otherwise nothing changes |
| LegacyTableView.UpdateSettles | LPRTableView.swift:281-314 | with non-negative row heights and no remapping delegate: resolve a pointer against the row that contains it, hit-test the same height again in the rearranged table and resolve once more, and the second resolution changes nothing, so a pointer at rest causes at most one move |
| LegacyTableView.ChangedNotifiesOnVerticalMovement | LPRTableView.swift:193-207 | with a ghost view, `draggingGestureChanged` fires exactly when the previous vertical position is absent or differs; afterwards it is the pointer's; the scroll rate is `ScrollRate` of the pointer |
| LegacyTableView.DropEndsDrag | LPRTableView.swift:234-274 | a release clears the previous position, disarms the display link and zeroes the rate; the completion leaves the table idle with rows as dragged, and a second completion changes only its own counter |
| LegacyTableView.CancelledKeepsDragState | LPRTableView.swift:275-278 | `.cancelled`/`.failed` clears only the previous vertical position |
| LegacyTableView.TickScrollsVertically | LPRTableView.swift:316-345 | a tick with a not-a-number coordinate changes nothing; otherwise the offset becomes the clamped step; x never changes |
| LegacyTableView.UpdateKeepsInvariants | LPRTableView.swift:281-314 | resolving the target keeps the snapshot valid and the rows equal to the loaded rows with every reported move replayed |
| LegacyTableView.ChangedKeepsInvariants | LPRTableView.swift:191-232 | a `.changed` callback keeps validity and move tracking |
| LegacyTableView.LongPressKeepsInvariants | LPRTableView.swift:113-278 | every gesture callback keeps validity and move tracking |
| LegacyTableView.TickKeepsInvariants | LPRTableView.swift:316-345 | every auto-scroll tick keeps validity and move tracking |
| LegacyTableView.LPRTableView.constructor | LPRTableView.swift:76-93 | a new table is valid and idle: nothing held, no ghost, display link off |
| LegacyTableView.LPRTableView.CancelGesture | LPRTableView.swift:103-106 | cancelling changes nothing but the cancellation count |
| LegacyTableView.LPRTableView.UpdateCurrentLocation | LPRTableView.swift:281-314 | the in-place update equals `UpdateStep` and keeps validity |
| LegacyTableView.LPRTableView.LongPress | LPRTableView.swift:108-279 | the in-place callback equals `LongPressStep`, keeps validity, and reports whether the guard cancelled |
| LegacyTableView.LPRTableView.BeginDrag | LPRTableView.swift:130-189 | the in-place `.began` branch equals `BeganStep` |
| LegacyTableView.LPRTableView.FollowDrag | LPRTableView.swift:191-232 | the in-place `.changed` branch equals `ChangedStep` |
| LegacyTableView.LPRTableView.TrackPointer | LPRTableView.swift:193-207 | the in-place ghost tracking and `draggingGestureChanged` notification equal `FollowPointer` and keep validity |
| LegacyTableView.LPRTableView.EndDrag | LPRTableView.swift:234-243 | the in-place `.ended` branch equals `EndedStep` and keeps validity |
| LegacyTableView.LPRTableView.FinishDrop | LPRTableView.swift:258-273 | the drop completion removes the ghost and forgets the held row |
| LegacyTableView.LPRTableView.ScrollTableWithCell | LPRTableView.swift:316-345 | the in-place tick equals `TickStep` and keeps validity |
| TableView.CanMoveRowAtIndexPath | LPRTableView/LPRTableView.swift:56-58 | the data source's answer, or true when there is no data source or no `canMoveRowAtIndexPath` |
| TableView.ShouldMoveRowAtIndexPath | LPRTableView/LPRTableView.swift:90-92 | every row may move for every gesture |
| TableView.IsValidMovement | LPRTableView/LPRTableView.swift:209-231 | a valid movement has rows, a `.Began` hits a movable row, an `.Ended` has a held row |
| TableView.ValidMovementExactly | LPRTableView/LPRTableView.swift:209-231 | invalid exactly for an empty table, a `.Began` on no row or a refused row, or an `.Ended` without a held row; `shouldMove` never refuses |
| TableView.IntendedIsValidMovement | LPRTableView/LPRTableView.swift:216-222 | the corrected guard refuses a press that the delegate vetoes |
| TableView.IntendedGuardHonoursDelegate | LPRTableView/LPRTableViewDelegate.swift:25-30 | the corrected guard agrees with `isValidMovement` when the delegate allows (its default), refuses a vetoed press, and is unchanged for other states |
| TableView.DispatchRunsOneHandler | LPRTableView/LPRTableView.swift:65-88 | an invalid movement only cancels; a valid `.Began`, `.Changed` or `.Ended` runs exactly that state's handler and cancels nothing; other states change nothing |
| TableView.UpdateStep | LPRTableView/LPRTableView.swift:233-257 | the session stays valid, and either nothing changes or the held row moves to another existing row with exactly that one move reported |
| TableView.BeganStep | LPRTableView/LPRTableView.swift:94-149 | no row moves and nothing scrolls; without a hit row or a visible cell nothing changes, otherwise the pressed row is held as start and current row, a ghost is shown and the display link armed; one ghost per ghost view is kept |
| TableView.ChangedStep | LPRTableView/LPRTableView.swift:151-179 | the session stays valid; apart from the ghost and the rate it is exactly `UpdateStep` of the old session; the ghost follows the pointer when it exists and the pointer is within the content plus 50 points; the rate is `ScrollRate` of the pointer |
| TableView.EndedStep | LPRTableView/LPRTableView.swift:181-198 | the display link is off and the rate 0; a drop animation starts exactly when a ghost and a held row exist; rows, held row and ghost are kept |
| TableView.LongPressStep | LPRTableView/LPRTableView.swift:65-88 | the session stays valid, the cancellation count changes exactly when the movement is invalid, no gesture callback scrolls, and rows move only on `.Changed` |
| TableView.FinishDropStep | LPRTableView/LPRTableView.swift:199-206 | the session stays valid with no held row and no ghost on screen, idle once the display link is off; rows are kept and one pending animation completes |
| TableView.ScrollAndFollow | LPRTableView/LPRTableView.swift:265-283 | the session stays valid, the offset becomes the clamped step `ScrolledOffset`, the rate, display link and ghost count are kept, a not-a-number height leaves the ghost, rows, moves and held row as they were (the in-cell comparison is false), and for a real height rows, moves and held row are those `UpdateStep` gives for the tick's hit |
| TableView.TickStep | LPRTableView/LPRTableView.swift:259-284 | as written: the session stays valid, and the table scrolls only when the pointer location is not a number; x and the rate never change, and a not-a-number height never moves a row |
| TableView.IntendedTickStep | LPRTableView/LPRTableView.swift:259-284 | as intended: the session stays valid, a not-a-number location changes nothing, x and the rate never change |
| TableView.BeganStartsDrag | LPRTableView/LPRTableView.swift:94-149 | a valid press on a visible cell holds it as start and current row, exactly one ghost view, display link armed, rows unchanged |
| TableView.UpdatePromotesExactly | LPRTableView/LPRTableView.swift:233-257 | the same promotion rule, with the refactored `canMove`: exactly one move under the five conditions, otherwise no change |
| TableView.DropEndsDrag | LPRTableView/LPRTableView.swift:181-207 | a release always disarms the display link and zeroes the rate; it animates exactly when a ghost exists, and the completion leaves the table idle |
| TableView.InvertedGuardSkipsOrdinaryTicks | LPRTableView/LPRTableView.swift:259-264 | as written, a tick at an ordinary location changes nothing |
| TableView.InvertedGuardCounterexample | LPRTableView/LPRTableView.swift:259-275 | a concrete tick with twenty rows, row 5 held and the pointer in the bottom zone: the intended step scrolls 9 points, the step as written does not move |
| TableView.IntendedTickScrolls | LPRTableView/LPRTableView.swift:259-284 | the corrected tick skips a not-a-number location, otherwise scrolls by the clamped step and resolves the drop target as `UpdateStep` does; never scrolls horizontally, and keeps the scroll rate |
| TableView.UpdateKeepsInvariants | LPRTableView/LPRTableView.swift:233-257 | resolving the target keeps the session valid and the rows equal to the loaded rows with every reported move replayed |
| TableView.LongPressKeepsInvariants | LPRTableView/LPRTableView.swift:65-88 | every gesture callback keeps validity and move tracking |
| TableView.TickKeepsInvariants | LPRTableView/LPRTableView.swift:259-284 | the tick, as written and as intended, keeps validity and move tracking |
| TableView.LPRTableView.constructor | LPRTableView/LPRTableView.swift:34-51 | a new table is valid and idle |
| TableView.LPRTableView.CancelGesture | LPRTableView/LPRTableView.swift:60-63 | cancelling changes nothing but the cancellation count |
| TableView.LPRTableView.LongPressGestureRecognized | LPRTableView/LPRTableView.swift:65-88 | the in-place dispatch equals `LongPressStep` and reports whether the movement was invalid |
| TableView.LPRTableView.LongPressBegan | LPRTableView/LPRTableView.swift:94-149 | the in-place handler equals `BeganStep` |
| TableView.LPRTableView.LongPressChanged | LPRTableView/LPRTableView.swift:151-179 | the in-place handler equals `ChangedStep` |
| TableView.LPRTableView.LongPressEnded | LPRTableView/LPRTableView.swift:181-189 | the in-place handler equals `EndedStep` |
| TableView.LPRTableView.FinishDrop | LPRTableView/LPRTableView.swift:199-206 | the drop completion removes the ghost and forgets the held row |
| TableView.LPRTableView.UpdateCurrentLocation | LPRTableView/LPRTableView.swift:233-257 | the in-place update equals `UpdateStep` |
| TableView.LPRTableView.ScrollTableView | LPRTableView/LPRTableView.swift:259-284 | the in-place tick equals `TickStep`, the guard as written; the drop target is resolved only for a real height |
| VersionComparison.CanMoveDefaultsDiffer | LPRTableView/LPRTableView.swift:56-58 | the two `canMove` defaults disagree exactly when there is no data source |
| VersionComparison.GuardsAgree | LPRTableView/LPRTableView.swift:209-231 | for matching fields, `isValidMovement` refuses exactly the gestures the single-file guard cancels |
| VersionComparison.PromotionAgrees | LPRTableView/LPRTableView.swift:233-257 | both versions make the same move and hold the same row |
| VersionComparison.DelegateVetoIsIgnored | Example/MasterViewController.swift:117-124 | a press on the right half of a cell, which the example delegate vetoes, is still a valid movement and starts a drag; the corrected guard refuses it |
| ExampleMaster.ShouldMoveRowAtIndexPath | Example/MasterViewController.swift:117-124 | false without a row or visible cell, otherwise true exactly on the left half of the cell |
| ExampleMaster.MasterViewController.constructor | Example/MasterViewController.swift:16 | the app starts with no items |
| ExampleMaster.MasterViewController.InsertNewObject | Example/MasterViewController.swift:30-34 | the new date is the first item and every old item shifts up by one |
| ExampleMaster.MasterViewController.NumberOfRowsInSection | Example/MasterViewController.swift:39-41 | one row per item |
| ExampleMaster.MasterViewController.CommitEditingStyle | Example/MasterViewController.swift:59-66 | a delete removes exactly the item at the row; any other style changes nothing |
| ExampleMaster.MasterViewController.MoveRowAtIndexPath | Example/MasterViewController.swift:87-89 | the items are permuted, the moved item lands at the destination, items outside the span keep their places |
| ReorderTestMaster.MasterViewController.constructor | ReorderTest/ReorderTest/MasterViewController.swift:13 | the app starts with no items |
| ReorderTestMaster.MasterViewController.InsertNewObject | ReorderTest/ReorderTest/MasterViewController.swift:33-37 | the new date is the first item and every old item shifts up by one |
| ReorderTestMaster.MasterViewController.NumberOfSections | ReorderTest/ReorderTest/MasterViewController.swift:41-43 | exactly one section |
| ReorderTestMaster.MasterViewController.NumberOfRowsInSection | ReorderTest/ReorderTest/MasterViewController.swift:45-47 | one row per item |
| ReorderTestMaster.MasterViewController.SectionRowCounts | ReorderTest/ReorderTest/MasterViewController.swift:41-47 | the section counts add up to the number of items, so the table is empty exactly when the array is |
| ReorderTestMaster.MasterViewController.CommitEditingStyle | ReorderTest/ReorderTest/MasterViewController.swift:69-76 | a delete removes exactly the item at the row; insert and none change nothing |
| ReorderTestMaster.MasterViewController.MoveRowAtIndexPath | ReorderTest/ReorderTest/MasterViewController.swift:101-103 | the items are permuted and the moved item lands at the destination |

## Findings

| source | as written | input that shows it | evidently intended | confidence | as-written member | corrected member |
|---|---|---|---|---|---|---|
| LPRTableView/LPRTableView.swift:261 | the guard continues only when `location.x` or `location.y` is not a number, and returns for every ordinary location | twenty 100-point rows in a 600-point frame at offset 0, row 5 held, pointer at (100, 590) in the bottom zone, scroll rate 0.9: nothing scrolls | skip the tick for a not-a-number location and scroll otherwise, as the single-file version's guard does | high, not executed | TableView.InvertedGuardCounterexample | TableView.IntendedTickScrolls |
| LPRTableView/LPRTableView.swift:90-92 | the table's `shouldMoveRowAtIndexPath` returns true and never asks the delegate's method of the same name | the example delegate refuses a press at x > width/2, but the movement is valid and the drag starts | a `.Began` is refused when the delegate's `shouldMoveRowAtIndexPath` says no (the protocol's default is yes) | medium, not executed | VersionComparison.DelegateVetoIsIgnored | TableView.IntendedGuardHonoursDelegate |

The class `TableView.LPRTableView` keeps the behaviour as written. The
corrected definitions are `TableView.IntendedTickStep` and
`TableView.IntendedIsValidMovement`.

## Left out

- Rendering and animation are not modelled: cell snapshots, shadow, opacity, the 1.1× zoom, animation timing, hiding and reloading of cells. Of each animation only the drop completion's effect on the fields is kept, as the separate `FinishDrop` method. The model allows one completion per started drop animation.
- Display-link scheduling is left out. It is a flag, and each tick is an explicit call. A new link assigned over an armed one is not modelled as a leak.
- Haptic feedback (`hapticFeedbackSetup`, `SelectionChanged`, `Finalize`) is left out, because it drives hardware and keeps no state.
- UIKit geometry and hit-testing are inputs: `indexPathForRow(at:)`, `cellForRow(at:)`, `location(in:)`, `rectForRow(at:)` and the content size. The model assumes a hit row exists (`HitFits`) and that the delegate's `targetIndexPathForMove` proposes an existing row (`TargetHookFits`).
- Multi-section tables are left out. Every table has one section, so index paths are row numbers.
- Floating point is left out: `CGFloat` and `Double` are exact reals. NaN only appears as the two location flags, and every comparison with a NaN coordinate is false. So a tick with a not-a-number height scrolls but resolves no drop target (`TableView.ScrollAndFollow`).
- The table's geometry (bounds, frame, content height and insets) is a constant of each `LPRTableView` object, fixed when it is constructed, and stands for the geometry the table has during drags. Layout changes are not modelled, and neither is the zero-sized frame a table starts with before layout: the constructors require a non-zero scroll-zone height, because with a zero zone the source divides by zero.
- `Geometry.ScrollRate` requires a non-zero zone height (bounds height ≠ top inset), which the class invariants carry. With a zero zone the source divides by zero, which is not modelled.
- The scroll rate lies in [−1, 1] only while the pointer lies between the top inset and the bottom of the bounds (offset + top inset ≤ y ≤ offset + bounds height). Above the top inset or below the bounds, the source's formula can exceed 1 in magnitude, and `Geometry.ScrollRateZones` states the bound only for that band.
- Controller wiring is not modelled (`LPRTableViewController` in both versions, `registerClasses`). Neither are the empty delegate callbacks (`draggingCell`, `showDraggingView`, `willAppearDraggingView` and their hide counterparts), apart from counting `draggingGestureChanged` notifications.
- `longPressReorderEnabled` and `minimumPressDuration` are left out, because they only forward to the gesture recognizer. `cancelGesture`'s toggle of `isEnabled` is modelled as a count.
- The example apps' segues, detail view, cell configuration and navigation buttons are left out. The current date that `insertNewObject` stores is a parameter.
- The `tableView.insertRowsAtIndexPaths` and `deleteRowsAtIndexPaths` calls of the example apps are left out. They concern the table view, which is not part of those models.
- `LegacyTableView.LPRTableView.ScrollTableWithCell` and `TableView.LPRTableView.ScrollTableView` do not require the display link to be armed. A tick is whatever call arrives.
- LegacyTableView.UpdateSettles: is stated only for tables without the delegate's `targetIndexPathForMoveFromRowAt` and for rows of non-negative height. A remapping delegate can send the re-hit row anywhere, so the drop target may move again.
- Host.DataSource: describes only a data source that implements `tableView(_:moveRowAt:to:)`. The source forwards each move through optional chaining, so a data source without that method never hears of the table's moves and falls out of step with it. Such a data source is not modelled.
- Host.CanMoveHook: `canMoveRowAt` is one fixed function of the row index for the table's lifetime. A data source that answers by item, and so changes its answers as rows move, is not modelled.
