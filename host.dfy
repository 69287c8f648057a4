/**
 * What the reorder controller receives from UIKit and from its host: gesture
 * callbacks, hit-test answers and the optional data-source and delegate hooks.
 * UIKit's geometry queries are not modelled; their answers arrive as inputs.
 */
module Host {
  import opened Rows
  import opened Geometry

  /** The states of a `UILongPressGestureRecognizer` (`.recognized` is `.ended`). */
  datatype GestureState = Possible | Began | Changed | Ended | Cancelled | Failed

  /**
   * One gesture callback: the state, the pointer in table coordinates, the row
   * `indexPathForRow(at:)` returns for it, whether `cellForRow(at:)` finds that
   * row's cell on screen, and the pointer's height inside the cell of the drop
   * target (`gesture.location(in: cell).y`).
   */
  datatype Touch = Touch(
    state: GestureState,
    location: Point,
    hit: Option<nat>,
    cellVisible: bool,
    yInTarget: real)

  /** One display-link callback: the pointer as then read, and the same hit-test answers. */
  datatype Tick = Tick(location: TickLocation, hit: Option<nat>, yInTarget: real)

  /** The data source's optional `tableView(_:canMoveRowAt:)`. */
  datatype CanMoveHook = NotImplemented | Implemented(canMove: nat -> bool)

  /** The table's `dataSource`, which may be unset. */
  datatype DataSource = NoDataSource | Attached(canMoveRow: CanMoveHook)

  /**
   * The table delegate's optional `tableView(_:targetIndexPathForMoveFromRowAt:toProposedIndexPath:)`,
   * given the drag's starting row and the proposed row.
   */
  type TargetHook = Option<(nat, nat) -> nat>

  /** The delegate only ever proposes rows of a table of `n` rows. */
  ghost predicate TargetHookFits(hook: TargetHook, n: nat)
  {
    hook.Some? ==> forall a: nat, b: nat :: a < n && b < n ==> hook.value(a, b) < n
  }

  /** The table's configuration, fixed for the lifetime of a drag. */
  datatype Config = Config(viewport: Viewport, dataSource: DataSource, targetHook: TargetHook)

  /** An `NSDate` row item of the example apps, by its seconds since the reference date. */
  type Date = real
}
