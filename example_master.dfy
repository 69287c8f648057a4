/**
 * The data source of the example app (`Example/MasterViewController.swift`):
 * an array of dates, one row each, that applies every move the reorder
 * controller reports, prepends new items and deletes on request.
 */
module ExampleMaster {
  import opened Rows
  import opened Host

  /** `UITableViewCellEditingStyle`. */
  datatype EditingStyle = StyleNone | Delete | Insert

  /**
   * The delegate's `shouldMoveRowAtIndexPath`: a press moves a row only on
   * the left half of a cell that is under the pointer and on screen.
   */
  function ShouldMoveRowAtIndexPath(hit: Option<nat>, cellVisible: bool, xInCell: real, cellWidth: real): (r: bool)
    ensures hit.None? || !cellVisible ==> !r
    ensures hit.Some? && cellVisible ==> (r <==> 2.0 * xInCell <= cellWidth)
  {
    if hit.None? || !cellVisible then false else xInCell <= cellWidth / 2.0
  }

  class MasterViewController {
    var objects: seq<Date>

    constructor ()
      ensures objects == []
    {
      objects := [];
    }

    /** `insertNewObject`: the current date, given as `now`, becomes the first row. */
    method InsertNewObject(now: Date)
      modifies this
      ensures |objects| == |old(objects)| + 1
      ensures objects[0] == now && objects[1..] == old(objects)
    {
      objects := InsertAt(objects, 0, now);
    }

    /**
     * `numberOfRowsInSection`: one row per item, in every section asked about.
     * The test app's controller has the same code; its member mirrors this one.
     */
    function NumberOfRowsInSection(section: nat): (r: nat)
      reads this
      ensures r == |objects|
    {
      |objects|
    }

    /** `commitEditingStyle`: a delete removes the item of that row; other styles change nothing. */
    method CommitEditingStyle(editingStyle: EditingStyle, row: nat)
      requires editingStyle == Delete ==> row < |objects|
      modifies this
      ensures editingStyle == Delete ==>
                && |objects| == |old(objects)| - 1
                && objects[..row] == old(objects[..row])
                && objects[row..] == old(objects[row + 1..])
                && multiset(objects) + multiset{old(objects[row])} == multiset(old(objects))
      ensures editingStyle != Delete ==> objects == old(objects)
    {
      match editingStyle {
        case Delete =>
          RemoveAtMultiset(objects, row);
          objects := RemoveAt(objects, row);
        case _ =>
      }
    }

    /**
     * `moveRowAtIndexPath`: `insert(removeAtIndex(source), atIndex: destination)`.
     * The items are permuted, the moved item lands at `destination`, and items
     * outside the span between the two rows keep their places.
     */
    method MoveRowAtIndexPath(source: nat, destination: nat)
      requires source < |objects| && destination < |objects|
      modifies this
      ensures objects == Moved(old(objects), source, destination)
      ensures multiset(objects) == multiset(old(objects))
      ensures objects[destination] == old(objects[source])
      ensures forall k :: 0 <= k < |objects| && ((k < source && k < destination) || (k > source && k > destination)) ==>
                objects[k] == old(objects[k])
    {
      ghost var before := objects;
      var item := objects[source];
      objects := RemoveAt(objects, source);
      objects := InsertAt(objects, destination, item);
      MovedIsPermutation(before, source, destination);
      forall k | 0 <= k < |objects| && ((k < source && k < destination) || (k > source && k > destination))
        ensures objects[k] == before[k]
      {
        MovedAt(before, source, destination, k);
      }
    }
  }
}
