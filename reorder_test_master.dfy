/**
 * The data source of the ReorderTest app
 * (`ReorderTest/ReorderTest/MasterViewController.swift`): one section holding
 * one row per date, updated in place by inserts, deletes and reported moves.
 */
module ReorderTestMaster {
  import opened Rows
  import opened Host

  /** `UITableViewCellEditingStyle`. */
  datatype EditingStyle = StyleNone | Delete | Insert

  class MasterViewController {
    var objects: seq<Date>

    constructor ()
      ensures objects == []
    {
      objects := [];
    }

    /** `insertNewObject`: the current date, given as `now`, becomes the first row. */
    method InsertNewObject(now: Date)
      modifies this
      ensures |objects| == |old(objects)| + 1
      ensures objects[0] == now && objects[1..] == old(objects)
    {
      objects := InsertAt(objects, 0, now);
    }

    /** `numberOfSectionsInTableView`. */
    function NumberOfSections(): (r: nat)
      ensures r == 1
    {
      1
    }

    /**
     * `numberOfRowsInSection`: one row per item. The example app's controller
     * has the same code; its member mirrors this one.
     */
    function NumberOfRowsInSection(section: nat): (r: nat)
      reads this
      ensures r == |objects|
    {
      |objects|
    }

    /**
     * The row count of every section, as the table asks for them; they add up
     * to the number of items, so the table is empty exactly when `objects` is.
     */
    function SectionRowCounts(): (r: seq<nat>)
      reads this
      ensures |r| == NumberOfSections()
      ensures Sum(r) == |objects|
      ensures Sum(r) == 0 <==> objects == []
    {
      [NumberOfRowsInSection(0)]
    }

    /** `commitEditingStyle`: a delete removes the item of that row; insert and none change nothing. */
    method CommitEditingStyle(editingStyle: EditingStyle, row: nat)
      requires editingStyle == Delete ==> row < |objects|
      modifies this
      ensures editingStyle == Delete ==>
                && |objects| == |old(objects)| - 1
                && objects[..row] == old(objects[..row])
                && objects[row..] == old(objects[row + 1..])
                && multiset(objects) + multiset{old(objects[row])} == multiset(old(objects))
      ensures editingStyle != Delete ==> objects == old(objects)
    {
      if editingStyle == Delete {
        RemoveAtMultiset(objects, row);
        objects := RemoveAt(objects, row);
      } else if editingStyle == Insert {
      }
    }

    /**
     * `moveRowAtIndexPath`: `insert(removeAtIndex(source), atIndex: destination)`.
     * The items are permuted and the moved item lands at `destination`.
     */
    method MoveRowAtIndexPath(source: nat, destination: nat)
      requires source < |objects| && destination < |objects|
      modifies this
      ensures objects == Moved(old(objects), source, destination)
      ensures multiset(objects) == multiset(old(objects))
      ensures objects[destination] == old(objects[source])
    {
      ghost var before := objects;
      var item := objects[source];
      objects := RemoveAt(objects, source);
      objects := InsertAt(objects, destination, item);
      MovedIsPermutation(before, source, destination);
    }
  }
}
