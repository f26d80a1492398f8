/**
 * The earlier revision of the sortable list view
 * (Planner/views/SortableListView/SortableListView.swift). Its create rule
 * takes an optional offset, and it also reports drags within the checked
 * section; the index arithmetic is the current revision's.
 */
module SortableListLegacy {
  import opened Wrappers
  import opened Items
  import SortableList

  /** `handleCreateItem(baseId:offset:)` with `offset ?? 0`. */
  function CreateIndex<D>(items: seq<ListItem<D>>, baseId: Option<Id>, offset: Option<int>): (r: Option<nat>)
    requires SortableList.OffsetInRange(items, baseId, offset.GetOr(0))
    ensures SortableList.FirstIndex(items, baseId).None? ==> r.None?
    ensures offset.None? ==> r == SortableList.CreateIndex(items, baseId, 0)
    ensures offset.Some? ==> r == SortableList.CreateIndex(items, baseId, offset.value)
  {
    SortableList.CreateIndex(items, baseId, offset.GetOr(0))
  }

  /** A missing offset creates in place of the base row, after its upper neighbour. */
  lemma MissingOffsetIsZero<D>(items: seq<ListItem<D>>, baseId: Option<Id>)
    requires SortableList.OffsetInRange(items, baseId, 0)
    ensures CreateIndex(items, baseId, None).Some? ==>
      CreateIndex(items, baseId, None).value == SortableList.FirstIndex(items, baseId).value
  {
  }

  /** `handleCreateLowerItem`: the bottom trigger, after the last unchecked row. */
  function CreateLowerItem<D>(items: seq<ListItem<D>>): Option<nat>
  {
    var baseId := if items == [] then None else Some(items[|items| - 1].id);
    assert SortableList.FirstIndex(items, baseId).Some? ==> SortableList.FirstIndex(items, baseId).value + 1 <= |items|;
    CreateIndex(items, baseId, Some(1))
  }

  /**
   * With distinct ids the bottom trigger creates after the last unchecked
   * row unless that row is untitled, and is inert on an empty list.
   */
  lemma BottomTriggerCreatesLast<D>(items: seq<ListItem<D>>)
    requires UniqueIds(items)
    ensures CreateLowerItem(items) ==
      if items == [] || items[|items| - 1].title == "" then None else Some(|items|)
  {
    if items != [] {
      SortableList.BottomTriggerCreatesLast(items);
    }
  }

  /** `handleMoveUncheckedItem(from:to:)`. */
  method HandleMoveUncheckedItem(sources: seq<nat>, destination: int) returns (moves: seq<(int, int)>)
    ensures |moves| == |sources|
    ensures forall k :: 0 <= k < |sources| ==>
      moves[k] == (sources[k] as int, SortableList.MoveTarget(sources[k], destination))
  {
    moves := SortableList.HandleMoveUncheckedItem(sources, destination);
  }

  /** `handleMoveCheckedItem(from:to:)`: the same adjustment, for the checked section. */
  method HandleMoveCheckedItem(sources: seq<nat>, destination: int) returns (moves: seq<(int, int)>)
    ensures |moves| == |sources|
    ensures forall k :: 0 <= k < |sources| ==>
      moves[k] == (sources[k] as int, SortableList.MoveTarget(sources[k], destination))
  {
    moves := [];
    for n := 0 to |sources|
      invariant |moves| == n
      invariant forall k :: 0 <= k < n ==> moves[k] == (sources[k] as int, SortableList.MoveTarget(sources[k], destination))
    {
      var source := sources[n];
      var to := destination;
      if to > source {
        to := to - 1;
      }
      moves := moves + [(source as int, to)];
    }
  }
}
