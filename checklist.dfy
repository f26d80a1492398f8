/**
 * One checklist's screen (Planner/tabs/Checklists/Checklist.swift).
 *
 * The checklist's items are split into the unchecked and the checked
 * ones, each ascending by key. A created item takes the gap key at its
 * row among the unchecked items; a moved item takes the gap key at its
 * target among the other unchecked items, and no other key changes.
 */
module ChecklistScreen {
  import opened Wrappers
  import opened Items
  import SortIndex

  /** `sortedUncheckedItems` */
  function SortedUnchecked(items: seq<ChecklistItem>): (r: seq<ChecklistItem>)
    ensures SortedByKey(r)
    ensures forall x :: x in r <==> x in items && !x.isChecked
  {
    var u := WithChecked(items, false);
    var r := SortByKey(u);
    assert forall x :: x in r <==> x in multiset(u);
    r
  }

  /** `sortedCheckedItems` */
  function SortedChecked(items: seq<ChecklistItem>): (r: seq<ChecklistItem>)
    ensures SortedByKey(r)
    ensures forall x :: x in r <==> x in items && x.isChecked
  {
    var c := WithChecked(items, true);
    var r := SortByKey(c);
    assert forall x :: x in r <==> x in multiset(c);
    r
  }

  /** The two lists hold every item of the checklist exactly once between them. */
  lemma PartitionsItems(items: seq<ChecklistItem>)
    ensures multiset(SortedUnchecked(items)) + multiset(SortedChecked(items)) == multiset(items)
  {
    WithCheckedPartition(items);
  }

  /** The record `handleCreateEvent(at:)` inserts: a default checklist entry under this checklist. */
  function CreatedItem(checklistId: Id, newId: Id, sortIndex: real): ChecklistItem {
    NewChecklistItem(newId, Checklist, "", Red, sortIndex, Some(checklistId))
  }

  /** The key a created item takes: the gap key at `index` among the unchecked items. */
  function CreatedKey(items: seq<ChecklistItem>, index: int): real
    requires SortIndex.Placeable(index, Keys(SortedUnchecked(items)))
  {
    SortIndex.GenerateSortIndex(index, Keys(SortedUnchecked(items)))
  }

  /** A created item, unchecked, joins the unchecked list; the checked list stays. */
  lemma CreatedItemJoinsUnchecked(items: seq<ChecklistItem>, x: ChecklistItem)
    requires !x.isChecked
    ensures multiset(SortedUnchecked(items + [x])) == multiset(SortedUnchecked(items)) + multiset{x}
    ensures SortedChecked(items + [x]) == SortedChecked(items)
  {
    var a, c := WithChecked(items, false), WithChecked(items, true);
    WithCheckedAppend(items, x, false);
    WithCheckedAppend(items, x, true);
    assert WithChecked(items + [x], false) == a + [x];
    assert WithChecked(items + [x], true) == c + [] == c;
    assert multiset(a + [x]) == multiset(a) + multiset{x};
  }

  /**
   * "Add" creates at the unchecked count, so on a non-empty list the new
   * key is 8 above the last and above every unchecked key.
   */
  lemma AddGoesLast(items: seq<ChecklistItem>)
    ensures var u := SortedUnchecked(items);
      SortIndex.Placeable(|u|, Keys(u)) &&
      (u == [] ==> CreatedKey(items, |u|) == SortIndex.Spacing) &&
      (forall x :: x in u ==> x.sortIndex < CreatedKey(items, |u|))
  {
    var u := SortedUnchecked(items);
    if u != [] {
      SortIndex.EndIsAboveAll(|u|, Keys(u));
      forall x | x in u ensures x.sortIndex < CreatedKey(items, |u|) {
        var i :| 0 <= i < |u| && u[i] == x;
        assert Keys(u)[i] == x.sortIndex;
      }
    }
  }

  // ---------------------------------------------------------------------
  // handleMoveItem
  // ---------------------------------------------------------------------

  /** What a move demands: a real move names an unchecked row, and a target the gap-key rule accepts. */
  predicate MovePossible(items: seq<ChecklistItem>, from: int, to: int) {
    from == to ||
    (0 <= from < |SortedUnchecked(items)| &&
     SortIndex.Placeable(to, Keys(WithoutId(SortedUnchecked(items), SortedUnchecked(items)[from].id))))
  }

  /** The key the moved item takes: the gap key at `to` among the other unchecked items. */
  function MovedKey(items: seq<ChecklistItem>, from: int, to: int): real
    requires MovePossible(items, from, to) && from != to
  {
    var u := SortedUnchecked(items);
    SortIndex.GenerateSortIndex(to, Keys(WithoutId(u, u[from].id)))
  }

  /** The items after a move: unchanged when `from == to`, else the moved item carries its new key. */
  function MovedItems(items: seq<ChecklistItem>, from: int, to: int): (r: seq<ChecklistItem>)
    requires MovePossible(items, from, to)
    ensures |r| == |items|
  {
    if from == to then items
    else SetKey(items, SortedUnchecked(items)[from].id, MovedKey(items, from, to))
  }

  /**
   * A move writes one key and runs no chronological pass: every other
   * record, and every other field, stays as it was.
   */
  lemma MoveWritesOneKey(items: seq<ChecklistItem>, from: int, to: int, i: nat)
    requires MovePossible(items, from, to) && from != to && i < |items|
    ensures var r := MovedItems(items, from, to);
      var id := SortedUnchecked(items)[from].id;
      (items[i].id != id ==> r[i] == items[i]) &&
      (items[i].id == id ==> r[i] == items[i].(sortIndex := MovedKey(items, from, to)))
  {
  }

  /** A move among the unchecked items leaves the checked list as it was. */
  lemma MoveKeepsChecked(items: seq<ChecklistItem>, from: int, to: int)
    requires UniqueIds(items) && MovePossible(items, from, to)
    ensures SortedChecked(MovedItems(items, from, to)) == SortedChecked(items)
  {
    if from != to {
      var moved := SortedUnchecked(items)[from];
      assert moved in SortedUnchecked(items);
      var k :| 0 <= k < |items| && items[k] == moved;
      forall i | 0 <= i < |items| && items[i].id == moved.id ensures items[i].isChecked != true {
        assert i == k;
      }
      WithCheckedSetKey(items, moved.id, MovedKey(items, from, to), true);
    }
  }

  /**
   * On an unchecked list with positive, distinct keys, the moved item's
   * key puts it at `to` among the others (after all of them when `to` is
   * past the end).
   */
  lemma MoveLandsAtTarget(items: seq<ChecklistItem>, from: int, to: int)
    requires MovePossible(items, from, to) && from != to && to >= 0
    requires StrictlySortedByKey(SortedUnchecked(items))
    requires forall x :: x in items && !x.isChecked ==> x.sortIndex > 0.0
    ensures var u := SortedUnchecked(items);
      var others := WithoutId(u, u[from].id);
      SortIndex.PlacesAt(MovedKey(items, from, to), if to < |others| then to else |others|, Keys(others))
  {
    var u := SortedUnchecked(items);
    var others := WithoutId(u, u[from].id);
    WithoutIdStrictlySorted(u, u[from].id);
    assert others != [] ==> others[0] in u;
    SortIndex.PlacesAtIndex(to, Keys(others));
  }

  /** The state of `ChecklistView`: the checklist and the items whose parent it is. */
  class ChecklistView {
    const checklistId: Id
    var items: seq<ChecklistItem>

    /** Ids are object identities, and every item of the checklist has it as parent. */
    ghost predicate Valid()
      reads this
    {
      UniqueIds(items) && forall i :: 0 <= i < |items| ==> items[i].details.parent == Some(checklistId)
    }

    constructor(checklistId: Id, items: seq<ChecklistItem>)
      requires UniqueIds(items)
      requires forall i :: 0 <= i < |items| ==> items[i].details.parent == Some(checklistId)
      ensures Valid() && this.checklistId == checklistId && this.items == items
    {
      this.checklistId := checklistId;
      this.items := items;
    }

    /** `handleCreateEvent(at:)`: the new item is appended to the checklist's items. */
    method HandleCreateEvent(index: int, newId: Id)
      requires Valid() && !HasId(items, newId)
      requires SortIndex.Placeable(index, Keys(SortedUnchecked(items)))
      modifies this
      ensures Valid()
      ensures items == old(items) + [CreatedItem(checklistId, newId, CreatedKey(old(items), index))]
    {
      var sortIndex := SortIndex.GenerateSortIndex(index, Keys(SortedUnchecked(items)));
      var newItem := CreatedItem(checklistId, newId, sortIndex);
      var stored := items + [newItem];
      assert UniqueIds(stored) by {
        forall i, j | 0 <= i < j < |stored| ensures stored[i].id != stored[j].id {
          assert stored[i] == items[i];
        }
      }
      items := stored;
    }

    /** The "Add" button: create at the end of the unchecked list. */
    method Add(newId: Id)
      requires Valid() && !HasId(items, newId)
      modifies this
      ensures Valid()
      ensures items == old(items) + [CreatedItem(checklistId, newId, CreatedKey(old(items), |SortedUnchecked(old(items))|))]
    {
      AddGoesLast(items);
      HandleCreateEvent(|SortedUnchecked(items)|, newId);
    }

    /** `handleMoveItem(from:to:)` */
    method HandleMoveItem(from: int, to: int)
      requires Valid() && MovePossible(items, from, to)
      modifies this
      ensures Valid()
      ensures items == MovedItems(old(items), from, to)
    {
      if from == to {
        return;
      }
      var sortedUncheckedItems := SortedUnchecked(items);
      var movedEvent := sortedUncheckedItems[from];
      var remainingItems := WithoutId(sortedUncheckedItems, movedEvent.id);
      var sortIndex := SortIndex.GenerateSortIndex(to, Keys(remainingItems));
      SetKeyKeepsIds(items, movedEvent.id, sortIndex);
      items := SetKey(items, movedEvent.id, sortIndex);
    }
  }
}
