/**
 * The list-wide controller, current revision
 * (Planner/globalState/ListManager.swift): three toggle queues (selected,
 * completing, deleting), each an array of items with the set of their
 * ids, and the countdown that flushes the completing and deleting queues.
 *
 * The store is two fields: `isComplete`, the flag the controller writes
 * on items (by id), and `deleted`, the ids handed to
 * `modelContext.delete`, in order. The countdown's 3-second wait is not
 * modelled: `StartCountdown` arms it and `Flush` is the body that runs
 * when it fires. A `UUID()` is a value never issued before, modelled by a
 * counter of issued triggers.
 */
module ListManager {
  import opened Wrappers
  import opened Items

  /** `ToggleType` */
  datatype ToggleType = Select | Delete | Complete

  /** An item array and its id set agree, and the array repeats no id. */
  ghost predicate QueueConsistent<D>(items: seq<ListItem<D>>, ids: set<Id>) {
    UniqueIds(items) && forall x :: x in ids <==> HasId(items, x)
  }

  /**
   * One toggle of a queue: a queued id is removed from the set and its
   * items from the array; any other item is appended and its id added.
   */
  function Toggle<D>(items: seq<ListItem<D>>, ids: set<Id>, item: ListItem<D>): (r: (seq<ListItem<D>>, set<Id>))
    ensures (item.id in r.1) != (item.id in ids)
    ensures r.1 - {item.id} == ids - {item.id}
    ensures item.id in ids ==> r.0 == WithoutId(items, item.id)
    ensures item.id !in ids ==> r.0 == items + [item]
  {
    if item.id in ids then (WithoutId(items, item.id), ids - {item.id})
    else (items + [item], ids + {item.id})
  }

  /** Toggling keeps a queue consistent. */
  lemma ToggleKeepsQueueConsistent<D>(items: seq<ListItem<D>>, ids: set<Id>, item: ListItem<D>)
    requires QueueConsistent(items, ids)
    ensures QueueConsistent(Toggle(items, ids, item).0, Toggle(items, ids, item).1)
  {
    var r := Toggle(items, ids, item);
    if item.id in ids {
      WithoutIdFacts(items, item.id);
    } else {
      forall x ensures x in r.1 <==> HasId(r.0, x) {
        if x == item.id {
          assert r.0[|items|].id == x;
        } else {
          if HasId(r.0, x) {
            var i :| 0 <= i < |r.0| && r.0[i].id == x;
            assert i < |items| && items[i].id == x;
          }
          if HasId(items, x) {
            var i :| 0 <= i < |items| && items[i].id == x;
            assert r.0[i] == items[i];
          }
        }
      }
    }
  }

  /** Toggling an unqueued item twice restores the array and the set. */
  lemma ToggleTwiceRestores<D>(items: seq<ListItem<D>>, ids: set<Id>, item: ListItem<D>)
    requires QueueConsistent(items, ids) && item.id !in ids
    ensures var once := Toggle(items, ids, item);
      Toggle(once.0, once.1, item) == (items, ids)
  {
    var once := Toggle(items, ids, item);
    assert once == (items + [item], ids + {item.id});
    WithoutIdAppend(items, [item], item.id);
    WithoutAbsentId(items, item.id);
    assert WithoutId([item], item.id) == [];
    assert WithoutId(items + [item], item.id) == items;
    assert (ids + {item.id}) - {item.id} == ids;
  }

  /**
   * Toggling a queued item twice restores the set, but the item goes back
   * at the end of the array.
   */
  lemma ToggleTwiceRequeuesAtEnd<D>(items: seq<ListItem<D>>, ids: set<Id>, item: ListItem<D>)
    requires QueueConsistent(items, ids) && item.id in ids
    ensures var once := Toggle(items, ids, item);
      Toggle(once.0, once.1, item) == (WithoutId(items, item.id) + [item], ids)
  {
    assert (ids - {item.id}) + {item.id} == ids;
  }

  /**
   * `isComplete = true` on every item of `items`, in order, over the flags
   * in `m`.
   */
  function MarkComplete<D>(m: map<Id, bool>, items: seq<ListItem<D>>): (r: map<Id, bool>)
    ensures forall x :: x in r <==> x in m || HasId(items, x)
    ensures forall x :: HasId(items, x) ==> r[x]
    ensures forall x :: x in m && !HasId(items, x) ==> r[x] == m[x]
  {
    if items == [] then m
    else
      var last := items[|items| - 1];
      var prefix := items[..|items| - 1];
      assert forall x :: HasId(items, x) <==> HasId(prefix, x) || x == last.id by {
        forall x | HasId(items, x) ensures HasId(prefix, x) || x == last.id {
          var i :| 0 <= i < |items| && items[i].id == x;
          if i < |prefix| {
            assert prefix[i].id == x;
          }
        }
        forall x | HasId(prefix, x) ensures HasId(items, x) {
          var i :| 0 <= i < |prefix| && prefix[i].id == x;
          assert items[i].id == x;
        }
      }
      MarkComplete(m, prefix)[last.id := true]
  }

  /** The loop over `toDelete`: every queued item is handed to the store for deletion, in queue order. */
  method DeleteAll<D>(deleted: seq<Id>, toDelete: seq<ListItem<D>>) returns (r: seq<Id>)
    ensures r == deleted + IdsOf(toDelete)
  {
    r := deleted;
    for n := 0 to |toDelete|
      invariant r == deleted + IdsOf(toDelete[..n])
    {
      assert toDelete[..n + 1] == toDelete[..n] + [toDelete[n]];
      assert IdsOf(toDelete[..n + 1]) == IdsOf(toDelete[..n]) + [toDelete[n].id];
      r := r + [toDelete[n].id];
    }
    assert toDelete[..|toDelete|] == toDelete;
  }

  /** The loop over `toComplete`: every queued item is marked complete. */
  method CompleteAll<D>(isComplete: map<Id, bool>, toComplete: seq<ListItem<D>>) returns (r: map<Id, bool>)
    ensures r == MarkComplete(isComplete, toComplete)
  {
    r := isComplete;
    assert toComplete[..0] == [];
    for n := 0 to |toComplete|
      invariant r == MarkComplete(isComplete, toComplete[..n])
    {
      assert toComplete[..n + 1][..n] == toComplete[..n];
      r := r[toComplete[n].id := true];
    }
    assert toComplete[..|toComplete|] == toComplete;
  }

  /** Empty queues agree. */
  lemma EmptyQueueConsistent<D>()
    ensures QueueConsistent<D>([], {})
  {
  }

  class ListController<D> {
    var completingItems: seq<ListItem<D>>
    var completingItemIds: set<Id>
    var deletingItems: seq<ListItem<D>>
    var deletingItemIds: set<Id>
    var selectedItems: seq<ListItem<D>>
    var selectedItemIds: set<Id>
    var fadeOutTrigger: Option<nat>
    /** How many trigger values have been issued; the next one is this number. */
    var triggersIssued: nat
    /** A countdown is pending; `Flush` is what it runs. */
    var countdownArmed: bool
    var isComplete: map<Id, bool>
    var deleted: seq<Id>

    ghost predicate Valid()
      reads this
    {
      QueueConsistent(completingItems, completingItemIds) &&
      QueueConsistent(deletingItems, deletingItemIds) &&
      QueueConsistent(selectedItems, selectedItemIds) &&
      (fadeOutTrigger.Some? ==> fadeOutTrigger.value < triggersIssued)
    }

    constructor(isComplete: map<Id, bool>)
      ensures Valid()
      ensures completingItems == [] && deletingItems == [] && selectedItems == []
      ensures completingItemIds == {} && deletingItemIds == {} && selectedItemIds == {}
      ensures fadeOutTrigger == None && !countdownArmed
      ensures this.isComplete == isComplete && deleted == []
    {
      completingItems := [];
      completingItemIds := {};
      deletingItems := [];
      deletingItemIds := {};
      selectedItems := [];
      selectedItemIds := {};
      fadeOutTrigger := None;
      triggersIssued := 0;
      countdownArmed := false;
      this.isComplete := isComplete;
      deleted := [];
    }

    /**
     * `startCountdown`, up to the wait: a pending countdown is replaced,
     * and the fade trigger gets a value it never had before.
     */
    method StartCountdown()
      requires Valid()
      modifies this
      ensures Valid() && countdownArmed
      ensures fadeOutTrigger.Some? && fadeOutTrigger != old(fadeOutTrigger)
      ensures old(fadeOutTrigger).Some? ==> fadeOutTrigger.value > old(fadeOutTrigger).value
      ensures completingItems == old(completingItems) && completingItemIds == old(completingItemIds)
      ensures deletingItems == old(deletingItems) && deletingItemIds == old(deletingItemIds)
      ensures selectedItems == old(selectedItems) && selectedItemIds == old(selectedItemIds)
      ensures isComplete == old(isComplete) && deleted == old(deleted)
    {
      fadeOutTrigger := Some(triggersIssued);
      triggersIssued := triggersIssued + 1;
      countdownArmed := true;
    }

    /** `toggleSelect`: flips the selection; no countdown. */
    method ToggleSelect(item: ListItem<D>)
      requires Valid()
      modifies this
      ensures Valid()
      ensures (selectedItems, selectedItemIds) == Toggle(old(selectedItems), old(selectedItemIds), item)
      ensures completingItems == old(completingItems) && completingItemIds == old(completingItemIds)
      ensures deletingItems == old(deletingItems) && deletingItemIds == old(deletingItemIds)
      ensures fadeOutTrigger == old(fadeOutTrigger) && countdownArmed == old(countdownArmed)
      ensures isComplete == old(isComplete) && deleted == old(deleted)
    {
      ToggleKeepsQueueConsistent(selectedItems, selectedItemIds, item);
      if item.id in selectedItemIds {
        selectedItemIds := selectedItemIds - {item.id};
        selectedItems := WithoutId(selectedItems, item.id);
      } else {
        selectedItemIds := selectedItemIds + {item.id};
        selectedItems := selectedItems + [item];
      }
    }

    /** `toggleComplete`: flips the completing queue and restarts the countdown. */
    method ToggleComplete(item: ListItem<D>)
      requires Valid()
      modifies this
      ensures Valid() && countdownArmed
      ensures (completingItems, completingItemIds) == Toggle(old(completingItems), old(completingItemIds), item)
      ensures deletingItems == old(deletingItems) && deletingItemIds == old(deletingItemIds)
      ensures selectedItems == old(selectedItems) && selectedItemIds == old(selectedItemIds)
      ensures fadeOutTrigger.Some? && fadeOutTrigger != old(fadeOutTrigger)
      ensures isComplete == old(isComplete) && deleted == old(deleted)
    {
      ToggleKeepsQueueConsistent(completingItems, completingItemIds, item);
      if item.id in completingItemIds {
        completingItemIds := completingItemIds - {item.id};
        completingItems := WithoutId(completingItems, item.id);
      } else {
        completingItemIds := completingItemIds + {item.id};
        completingItems := completingItems + [item];
      }
      StartCountdown();
    }

    /**
     * `toggleDelete`: flips the deleting queue, marks the item complete
     * when queuing and incomplete when unqueuing, and restarts the
     * countdown.
     */
    method ToggleDelete(item: ListItem<D>)
      requires Valid()
      modifies this
      ensures Valid() && countdownArmed
      ensures (deletingItems, deletingItemIds) == Toggle(old(deletingItems), old(deletingItemIds), item)
      ensures isComplete == old(isComplete)[item.id := item.id !in old(deletingItemIds)]
      ensures completingItems == old(completingItems) && completingItemIds == old(completingItemIds)
      ensures selectedItems == old(selectedItems) && selectedItemIds == old(selectedItemIds)
      ensures fadeOutTrigger.Some? && fadeOutTrigger != old(fadeOutTrigger)
      ensures deleted == old(deleted)
    {
      ToggleKeepsQueueConsistent(deletingItems, deletingItemIds, item);
      if item.id in deletingItemIds {
        deletingItemIds := deletingItemIds - {item.id};
        deletingItems := WithoutId(deletingItems, item.id);
        isComplete := isComplete[item.id := false];
      } else {
        deletingItemIds := deletingItemIds + {item.id};
        deletingItems := deletingItems + [item];
        isComplete := isComplete[item.id := true];
      }
      StartCountdown();
    }

    /** `toggleItem(_:type:)`: dispatch on the toggle type. */
    method ToggleItem(item: ListItem<D>, toggleType: ToggleType)
      requires Valid()
      modifies this
      ensures Valid()
      ensures toggleType == Select ==>
        (selectedItems, selectedItemIds) == Toggle(old(selectedItems), old(selectedItemIds), item) &&
        completingItems == old(completingItems) && completingItemIds == old(completingItemIds) &&
        deletingItems == old(deletingItems) && deletingItemIds == old(deletingItemIds) &&
        fadeOutTrigger == old(fadeOutTrigger) && countdownArmed == old(countdownArmed) &&
        isComplete == old(isComplete)
      ensures toggleType == Complete ==>
        (completingItems, completingItemIds) == Toggle(old(completingItems), old(completingItemIds), item) &&
        deletingItems == old(deletingItems) && deletingItemIds == old(deletingItemIds) &&
        selectedItems == old(selectedItems) && selectedItemIds == old(selectedItemIds) &&
        fadeOutTrigger.Some? && fadeOutTrigger != old(fadeOutTrigger) && countdownArmed &&
        isComplete == old(isComplete)
      ensures toggleType == Delete ==>
        (deletingItems, deletingItemIds) == Toggle(old(deletingItems), old(deletingItemIds), item) &&
        isComplete == old(isComplete)[item.id := item.id !in old(deletingItemIds)] &&
        completingItems == old(completingItems) && completingItemIds == old(completingItemIds) &&
        selectedItems == old(selectedItems) && selectedItemIds == old(selectedItemIds) &&
        fadeOutTrigger.Some? && fadeOutTrigger != old(fadeOutTrigger) && countdownArmed
      ensures deleted == old(deleted)
    {
      match toggleType
      case Select => ToggleSelect(item);
      case Delete => ToggleDelete(item);
      case Complete => ToggleComplete(item);
    }

    /**
     * What the countdown runs when it fires: empties both queues and their
     * id sets, deletes every queued deletion in queue order, then marks
     * every queued completion complete.
     */
    method Flush()
      requires Valid()
      modifies this
      ensures Valid() && !countdownArmed
      ensures completingItems == [] && completingItemIds == {}
      ensures deletingItems == [] && deletingItemIds == {}
      ensures deleted == old(deleted) + IdsOf(old(deletingItems))
      ensures isComplete == MarkComplete(old(isComplete), old(completingItems))
      ensures selectedItems == old(selectedItems) && selectedItemIds == old(selectedItemIds)
      ensures fadeOutTrigger == old(fadeOutTrigger)
    {
      countdownArmed := false;
      DeleteQueued();
      CompleteQueued();
    }

    /** The first half of the flush: the deleting queue is emptied and its items deleted. */
    method DeleteQueued()
      requires Valid()
      modifies this
      ensures Valid()
      ensures deletingItems == [] && deletingItemIds == {}
      ensures deleted == old(deleted) + IdsOf(old(deletingItems))
      ensures completingItems == old(completingItems) && completingItemIds == old(completingItemIds)
      ensures selectedItems == old(selectedItems) && selectedItemIds == old(selectedItemIds)
      ensures fadeOutTrigger == old(fadeOutTrigger) && countdownArmed == old(countdownArmed)
      ensures isComplete == old(isComplete)
    {
      EmptyQueueConsistent<D>();
      var toDelete := deletingItems;
      deletingItems, deletingItemIds := [], {};
      deleted := DeleteAll(deleted, toDelete);
    }

    /** The second half of the flush: the completing queue is emptied and its items marked complete. */
    method CompleteQueued()
      requires Valid()
      modifies this
      ensures Valid()
      ensures completingItems == [] && completingItemIds == {}
      ensures isComplete == MarkComplete(old(isComplete), old(completingItems))
      ensures deletingItems == old(deletingItems) && deletingItemIds == old(deletingItemIds)
      ensures selectedItems == old(selectedItems) && selectedItemIds == old(selectedItemIds)
      ensures fadeOutTrigger == old(fadeOutTrigger) && countdownArmed == old(countdownArmed)
      ensures deleted == old(deleted)
    {
      EmptyQueueConsistent<D>();
      var toComplete := completingItems;
      completingItems, completingItemIds := [], {};
      isComplete := CompleteAll(isComplete, toComplete);
    }
  }
}
