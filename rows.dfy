/**
 * Ordered row collections and the one mutation the reorder gesture performs on
 * them: `insert(removeAtIndex(from), atIndex: to)`. The table's own row order
 * and every data source's backing array are reordered by this same operation.
 */
module Rows {

  datatype Option<T> = None | Some(value: T)

  /** One `moveRow(at:to:)` notification sent to the data source (rows of section 0). */
  datatype Move = Move(from: nat, to: nat)

  /** `removeAtIndex(i)`: everything after `i` shifts down by one. */
  function RemoveAt<T>(s: seq<T>, i: nat): (r: seq<T>)
    requires i < |s|
    ensures |r| == |s| - 1
    ensures forall k :: 0 <= k < i ==> r[k] == s[k]
    ensures forall k :: i <= k < |r| ==> r[k] == s[k + 1]
  {
    s[..i] + s[i + 1..]
  }

  /** `insert(x, atIndex: i)`: everything from `i` on shifts up by one. */
  function InsertAt<T>(s: seq<T>, i: nat, x: T): (r: seq<T>)
    requires i <= |s|
    ensures |r| == |s| + 1
    ensures r[i] == x
    ensures forall k :: 0 <= k < i ==> r[k] == s[k]
    ensures forall k :: i < k < |r| ==> r[k] == s[k - 1]
  {
    s[..i] + [x] + s[i..]
  }

  lemma RemoveAtMultiset<T>(s: seq<T>, i: nat)
    requires i < |s|
    ensures multiset(RemoveAt(s, i)) + multiset{s[i]} == multiset(s)
  {
    assert s == s[..i] + [s[i]] + s[i + 1..];
  }

  lemma InsertAtMultiset<T>(s: seq<T>, i: nat, x: T)
    requires i <= |s|
    ensures multiset(InsertAt(s, i, x)) == multiset(s) + multiset{x}
  {
    assert s == s[..i] + s[i..];
  }

  /** The collection after the row at `from` is dragged to `to`. */
  function Moved<T>(s: seq<T>, from: nat, to: nat): (r: seq<T>)
    requires from < |s| && to < |s|
    ensures |r| == |s|
  {
    InsertAt(RemoveAt(s, from), to, s[from])
  }

  /** The index in the old collection of the element that `Moved` puts at `k`. */
  function MovedSource(from: nat, to: nat, k: nat): nat
  {
    if k == to then from
    else if from < to && from <= k < to then k + 1
    else if to < from && to < k <= from then k - 1
    else k
  }

  /**
   * Pointwise meaning of a move: the dragged element lands at `to`, the rows
   * strictly between the two positions shift by one towards `from`, and every
   * row outside [min(from, to), max(from, to)] keeps its place.
   */
  lemma MovedAt<T>(s: seq<T>, from: nat, to: nat, k: nat)
    requires from < |s| && to < |s| && k < |s|
    ensures MovedSource(from, to, k) < |s|
    ensures Moved(s, from, to)[k] == s[MovedSource(from, to, k)]
    ensures (k < from && k < to) || (k > from && k > to) ==> Moved(s, from, to)[k] == s[k]
  {
    var rest := RemoveAt(s, from);
    if k < to {
      assert Moved(s, from, to)[k] == rest[k];
    } else if k > to {
      assert Moved(s, from, to)[k] == rest[k - 1];
    }
  }

  lemma MovedLandsAtTarget<T>(s: seq<T>, from: nat, to: nat)
    requires from < |s| && to < |s|
    ensures Moved(s, from, to)[to] == s[from]
  {
  }

  lemma MovedIsPermutation<T>(s: seq<T>, from: nat, to: nat)
    requires from < |s| && to < |s|
    ensures multiset(Moved(s, from, to)) == multiset(s)
  {
    RemoveAtMultiset(s, from);
    InsertAtMultiset(RemoveAt(s, from), to, s[from]);
  }

  lemma MovedToSelfIsIdentity<T>(s: seq<T>, i: nat)
    requires i < |s|
    ensures Moved(s, i, i) == s
  {
    forall k | 0 <= k < |s| ensures Moved(s, i, i)[k] == s[k] {
      MovedAt(s, i, i, k);
    }
  }

  /** Dragging a row back to where it came from restores the collection. */
  lemma MovedRoundTrip<T>(s: seq<T>, from: nat, to: nat)
    requires from < |s| && to < |s|
    ensures Moved(Moved(s, from, to), to, from) == s
  {
    var m := Moved(s, from, to);
    forall k | 0 <= k < |s| ensures Moved(m, to, from)[k] == s[k] {
      MovedAt(m, to, from, k);
      MovedAt(s, from, to, MovedSource(to, from, k));
    }
  }

  /** A move between neighbouring rows swaps them. */
  lemma MovedAdjacentIsSwap<T>(s: seq<T>, i: nat)
    requires i + 1 < |s|
    ensures Moved(s, i, i + 1) == s[i := s[i + 1]][i + 1 := s[i]]
    ensures Moved(s, i + 1, i) == s[i := s[i + 1]][i + 1 := s[i]]
  {
    var swapped := s[i := s[i + 1]][i + 1 := s[i]];
    forall k | 0 <= k < |s|
      ensures Moved(s, i, i + 1)[k] == swapped[k]
      ensures Moved(s, i + 1, i)[k] == swapped[k]
    {
      MovedAt(s, i, i + 1, k);
      MovedAt(s, i + 1, i, k);
    }
  }

  /** Every move of `ms` names rows of a collection of `n` rows. */
  ghost predicate MovesFit(ms: seq<Move>, n: nat)
  {
    forall i :: 0 <= i < |ms| ==> ms[i].from < n && ms[i].to < n
  }

  /** The collection after the moves of `ms` are applied one after another, in order. */
  function Replay<T>(s: seq<T>, ms: seq<Move>): (r: seq<T>)
    requires MovesFit(ms, |s|)
    ensures |r| == |s|
    decreases |ms|
  {
    if ms == [] then s
    else
      var last := ms[|ms| - 1];
      Moved(Replay(s, ms[..|ms| - 1]), last.from, last.to)
  }

  /** The index in the original collection of the element that `Replay` puts at `k`. */
  function ReplaySource(ms: seq<Move>, k: nat): nat
    decreases |ms|
  {
    if ms == [] then k
    else
      var last := ms[|ms| - 1];
      ReplaySource(ms[..|ms| - 1], MovedSource(last.from, last.to, k))
  }

  /**
   * Replaying depends on positions only: any two collections of the same length
   * that receive the same moves stay aligned row by row. This is why the table's
   * rows and the data source's array agree after every notified move.
   */
  lemma {:induction false} ReplayAt<T>(s: seq<T>, ms: seq<Move>, k: nat)
    requires MovesFit(ms, |s|) && k < |s|
    ensures ReplaySource(ms, k) < |s|
    ensures Replay(s, ms)[k] == s[ReplaySource(ms, k)]
    decreases |ms|
  {
    if ms != [] {
      var init, last := ms[..|ms| - 1], ms[|ms| - 1];
      MovedAt(Replay(s, init), last.from, last.to, k);
      ReplayAt(s, init, MovedSource(last.from, last.to, k));
    }
  }

  lemma {:induction false} ReplayIsPermutation<T>(s: seq<T>, ms: seq<Move>)
    requires MovesFit(ms, |s|)
    ensures multiset(Replay(s, ms)) == multiset(s)
    decreases |ms|
  {
    if ms != [] {
      var init, last := ms[..|ms| - 1], ms[|ms| - 1];
      ReplayIsPermutation(s, init);
      MovedIsPermutation(Replay(s, init), last.from, last.to);
    }
  }

  /** The sum of per-section row counts, folded from the first section on. */
  function Sum(counts: seq<nat>): (r: nat)
    ensures |counts| == 1 ==> r == counts[0]
  {
    if counts == [] then 0 else Sum(counts[..|counts| - 1]) + counts[|counts| - 1]
  }

  lemma {:induction false} SumIsZeroIffAllZero(counts: seq<nat>)
    ensures Sum(counts) == 0 <==> forall i :: 0 <= i < |counts| ==> counts[i] == 0
  {
    if counts != [] {
      var init := counts[..|counts| - 1];
      SumIsZeroIffAllZero(init);
      assert forall i :: 0 <= i < |init| ==> init[i] == counts[i];
    }
  }
}
