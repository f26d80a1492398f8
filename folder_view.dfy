/**
 * A folder's screen (Planner/tabs/Checklists/FolderView.swift).
 *
 * The folder's children are shown ascending by key. Dragging rows runs
 * one step per source row, in ascending order of the source indices; each
 * step re-sorts the children as they stand after the steps before it and
 * writes one key. The drop row is adjusted as in the sortable list
 * (`SortableList.MoveTarget`). Saving once at the end is persistence and
 * is not part of this model.
 */
module FolderScreen {
  import opened Items
  import SortIndex
  import SortableList

  /** `sortedItems`: every child of the folder, ascending by key. */
  function SortedItems(items: seq<ChecklistItem>): (r: seq<ChecklistItem>)
    ensures SortedByKey(r) && multiset(r) == multiset(items)
  {
    SortByKey(items)
  }

  /** Dropping a row onto its own place or just below it leaves it where it is, and nothing else does. */
  lemma TargetIsSourceExactly(source: int, destination: int)
    ensures SortableList.MoveTarget(source, destination) == source <==> destination == source || destination == source + 1
  {
  }

  /**
   * What the drag demands: the sources are distinct rows of the list, in
   * ascending order, and the destination is one the gap-key rule accepts
   * (any row index, or anything at all while at most one child exists).
   */
  predicate MovePossible(items: seq<ChecklistItem>, sources: seq<int>, destination: int) {
    (forall i :: 0 <= i < |sources| ==> 0 <= sources[i] < |items|) &&
    (forall i, j :: 0 <= i < j < |sources| ==> sources[i] < sources[j]) &&
    (destination >= 0 || |items| <= 1)
  }

  /** The gap key the row at `source` takes, among the other children. */
  function StepKey(items: seq<ChecklistItem>, source: nat, destination: int): real
    requires source < |items| && (destination >= 0 || |items| <= 1)
  {
    var sorted := SortedItems(items);
    var moved := sorted[source];
    var remaining := WithoutId(sorted, moved.id);
    assert SortIndex.Placeable(SortableList.MoveTarget(source, destination), Keys(remaining)) by {
      if |items| <= 1 && destination < 0 {
        assert moved in sorted;
        assert multiset(sorted) == multiset(items);
        assert HasId(sorted, moved.id);
        WithoutPresentIdShorter(sorted, moved.id);
      }
    }
    SortIndex.GenerateSortIndex(SortableList.MoveTarget(source, destination), Keys(remaining))
  }

  /** The row at `source` can be placed among the others, and `StepKey` is the gap key it gets there. */
  lemma StepKeyIs(items: seq<ChecklistItem>, source: nat, destination: int)
    requires source < |items| && (destination >= 0 || |items| <= 1)
    ensures var sorted := SortedItems(items);
      var remaining := WithoutId(sorted, sorted[source].id);
      SortIndex.Placeable(SortableList.MoveTarget(source, destination), Keys(remaining)) &&
      StepKey(items, source, destination) == SortIndex.GenerateSortIndex(SortableList.MoveTarget(source, destination), Keys(remaining))
  {
  }

  /** One step of `handleMoveItem`: skipped when the row stays put, else the row's key is rewritten. */
  function MoveStep(items: seq<ChecklistItem>, source: nat, destination: int): (r: seq<ChecklistItem>)
    requires source < |items| && (destination >= 0 || |items| <= 1)
    ensures |r| == |items|
  {
    if source == SortableList.MoveTarget(source, destination) then items
    else SetKey(items, SortedItems(items)[source].id, StepKey(items, source, destination))
  }

  /** The two cases of a step, as equations. */
  lemma MoveStepCases(items: seq<ChecklistItem>, source: nat, destination: int)
    requires source < |items| && (destination >= 0 || |items| <= 1)
    ensures source == SortableList.MoveTarget(source, destination) ==> MoveStep(items, source, destination) == items
    ensures source != SortableList.MoveTarget(source, destination) ==>
      MoveStep(items, source, destination) == SetKey(items, SortedItems(items)[source].id, StepKey(items, source, destination))
  {
  }

  /** The children after every step, the sources taken in order. */
  function MovedItems(items: seq<ChecklistItem>, sources: seq<int>, destination: int): (r: seq<ChecklistItem>)
    requires MovePossible(items, sources, destination)
    ensures |r| == |items|
    ensures forall i :: 0 <= i < |items| ==> r[i].id == items[i].id
    decreases |sources|
  {
    if sources == [] then items
    else
      var prior := sources[..|sources| - 1];
      assert MovePossible(items, prior, destination) by {
        assert forall i :: 0 <= i < |prior| ==> prior[i] == sources[i];
      }
      var before := MovedItems(items, prior, destination);
      MoveStep(before, sources[|sources| - 1], destination)
  }

  /**
   * A drag only rewrites keys: every child keeps its place in the store
   * and every field but its key.
   */
  lemma {:induction false} MoveOnlyRewritesKeys(items: seq<ChecklistItem>, sources: seq<int>, destination: int, i: nat)
    requires MovePossible(items, sources, destination) && i < |items|
    ensures MovedItems(items, sources, destination)[i] ==
      items[i].(sortIndex := MovedItems(items, sources, destination)[i].sortIndex)
    decreases |sources|
  {
    if sources != [] {
      var prior := sources[..|sources| - 1];
      MoveOnlyRewritesKeys(items, prior, destination, i);
    }
  }

  /** A step whose row stays put changes nothing; any other step writes the key of that row alone. */
  lemma MoveStepWritesOneKey(items: seq<ChecklistItem>, source: nat, destination: int, i: nat)
    requires source < |items| && (destination >= 0 || |items| <= 1) && i < |items|
    requires UniqueIds(items)
    ensures var r := MoveStep(items, source, destination);
      var moved := SortedItems(items)[source];
      (destination == source || destination == source + 1 ==> r == items) &&
      (destination != source && destination != source + 1 ==>
        (items[i] == moved ==> r[i] == moved.(sortIndex := StepKey(items, source, destination))) &&
        (items[i] != moved ==> r[i] == items[i]))
  {
    var moved := SortedItems(items)[source];
    assert moved in multiset(items);
    var k :| 0 <= k < |items| && items[k] == moved;
    assert items[i].id == moved.id <==> i == k;
  }

  /**
   * On children with positive, distinct keys, a single dragged row lands
   * at its target among the others (after all of them past the end).
   */
  lemma MoveStepLandsAtTarget(items: seq<ChecklistItem>, source: nat, destination: int)
    requires source < |items| && destination >= 0
    requires StrictlySortedByKey(SortedItems(items))
    requires forall x :: x in items ==> x.sortIndex > 0.0
    ensures var sorted := SortedItems(items);
      var others := WithoutId(sorted, sorted[source].id);
      var target := SortableList.MoveTarget(source, destination);
      SortIndex.PlacesAt(StepKey(items, source, destination), if target < |others| then target else |others|, Keys(others))
  {
    var sorted := SortedItems(items);
    var others := WithoutId(sorted, sorted[source].id);
    WithoutIdStrictlySorted(sorted, sorted[source].id);
    if others != [] {
      assert others[0] in sorted;
      assert others[0] in multiset(items);
    }
    StepKeyIs(items, source, destination);
    GapKeyPlacesAt(others, SortableList.MoveTarget(source, destination));
  }

  /** The first `n` sources are a drag of their own. */
  predicate PrefixPossible(items: seq<ChecklistItem>, sources: seq<int>, destination: int, n: nat) {
    n <= |sources| && MovePossible(items, sources[..n], destination)
  }

  /** The steps so far, followed by step `n`, are the steps up to `n + 1`. */
  lemma PrefixMove(items: seq<ChecklistItem>, sources: seq<int>, destination: int, n: nat)
    requires MovePossible(items, sources, destination) && n < |sources|
    ensures PrefixPossible(items, sources, destination, n) && PrefixPossible(items, sources, destination, n + 1)
    ensures 0 <= sources[n] < |MovedItems(items, sources[..n], destination)|
    ensures MovedItems(items, sources[..n + 1], destination) ==
      MoveStep(MovedItems(items, sources[..n], destination), sources[n], destination)
  {
    assert sources[..n + 1][..n] == sources[..n];
  }

  /** The state of `FolderView`: the folder's children. */
  class FolderView {
    var items: seq<ChecklistItem>

    /** Ids are object identities. */
    ghost predicate Valid()
      reads this
    {
      UniqueIds(items)
    }

    constructor(items: seq<ChecklistItem>)
      requires UniqueIds(items)
      ensures Valid() && this.items == items
    {
      this.items := items;
    }

    /** `handleMoveItem(from:to:)` */
    method HandleMoveItem(sources: seq<int>, destination: int)
      requires Valid() && MovePossible(items, sources, destination)
      modifies this
      ensures Valid()
      ensures items == MovedItems(old(items), sources, destination)
    {
      ghost var initial := items;
      var n := 0;
      while n < |sources|
        invariant 0 <= n <= |sources|
        invariant PrefixPossible(initial, sources, destination, n)
        invariant items == MovedItems(initial, sources[..n], destination)
        invariant Valid()
      {
        PrefixMove(initial, sources, destination, n);
        MoveSource(sources[n], destination);
        n := n + 1;
      }
      assert sources[..n] == sources;
    }

    /** One pass of the loop in `handleMoveItem`, for the row at `source`. */
    method MoveSource(source: nat, destination: int)
      requires Valid() && source < |items| && (destination >= 0 || |items| <= 1)
      modifies this
      ensures Valid()
      ensures items == MoveStep(old(items), source, destination)
    {
      var targetIndex := destination;
      if targetIndex > source {
        targetIndex := targetIndex - 1;
      }
      if source == targetIndex {
        MoveStepCases(items, source, destination);
        return;
      }
      var sortedItems := SortedItems(items);
      var movedEvent := sortedItems[source];
      var remainingItems := WithoutId(sortedItems, movedEvent.id);
      MoveStepCases(items, source, destination);
      StepKeyIs(items, source, destination);
      assert targetIndex == SortableList.MoveTarget(source, destination);
      var sortIndex := SortIndex.GenerateSortIndex(targetIndex, Keys(remainingItems));
      SetKeyKeepsIds(items, movedEvent.id, sortIndex);
      items := SetKey(items, movedEvent.id, sortIndex);
    }
  }
}
