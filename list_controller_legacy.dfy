/**
 * The earlier list controller (Planner/ListController.swift): a completion
 * queue and a deletion queue of items, with no id sets. Each toggle first
 * takes the item out of the other queue, so an item is never in both.
 *
 * The store is modelled as in `ListManager`: `isComplete` holds the flags
 * written on items, `deleted` the ids handed to `modelContext.delete`.
 */
module ListControllerLegacy {
  import opened Items
  import ListManager

  datatype Queues<D> = Queues(completion: seq<ListItem<D>>, deletion: seq<ListItem<D>>)

  /** Neither queue repeats an id, and no id is in both. */
  ghost predicate Separate<D>(q: Queues<D>) {
    UniqueIds(q.completion) && UniqueIds(q.deletion) &&
    forall x :: !(HasId(q.completion, x) && HasId(q.deletion, x))
  }

  /** Flips membership of `item` in `items`: remove every record with its id, or append it. */
  function ToggleIn<D>(items: seq<ListItem<D>>, item: ListItem<D>): (r: seq<ListItem<D>>)
    ensures HasId(r, item.id) <==> !HasId(items, item.id)
    ensures forall x :: x != item.id ==> (HasId(r, x) <==> HasId(items, x))
    ensures UniqueIds(items) ==> UniqueIds(r)
    ensures HasId(items, item.id) ==> r == WithoutId(items, item.id)
    ensures !HasId(items, item.id) ==> r == items + [item]
  {
    WithoutIdFacts(items, item.id);
    if HasId(items, item.id) then WithoutId(items, item.id)
    else
      var r := items + [item];
      assert r[|items|].id == item.id;
      assert forall x :: HasId(r, x) <==> HasId(items, x) || x == item.id by {
        forall x | HasId(r, x) ensures HasId(items, x) || x == item.id {
          var i :| 0 <= i < |r| && r[i].id == x;
          if i < |items| {
            assert items[i].id == x;
          }
        }
        forall x | HasId(items, x) ensures HasId(r, x) {
          var i :| 0 <= i < |items| && items[i].id == x;
          assert r[i] == items[i];
        }
      }
      r
  }

  /** `toggleComplete` on the queues. */
  function CompleteStep<D>(q: Queues<D>, item: ListItem<D>): Queues<D> {
    Queues(ToggleIn(q.completion, item), WithoutId(q.deletion, item.id))
  }

  /** `toggleDelete` on the queues. */
  function DeleteStep<D>(q: Queues<D>, item: ListItem<D>): Queues<D> {
    Queues(WithoutId(q.completion, item.id), ToggleIn(q.deletion, item))
  }

  /**
   * Completing flips the item's membership in the completion queue, takes
   * it out of the deletion queue, leaves every other id where it was, and
   * keeps the queues separate.
   */
  lemma CompleteStepKeepsSeparate<D>(q: Queues<D>, item: ListItem<D>)
    requires Separate(q)
    ensures var r := CompleteStep(q, item);
      Separate(r) &&
      (HasId(r.completion, item.id) <==> !HasId(q.completion, item.id)) &&
      !HasId(r.deletion, item.id) &&
      forall x :: x != item.id ==>
        (HasId(r.completion, x) <==> HasId(q.completion, x)) && (HasId(r.deletion, x) <==> HasId(q.deletion, x))
  {
    WithoutIdFacts(q.deletion, item.id);
  }

  /** Deleting is the mirror image of completing. */
  lemma DeleteStepKeepsSeparate<D>(q: Queues<D>, item: ListItem<D>)
    requires Separate(q)
    ensures var r := DeleteStep(q, item);
      Separate(r) &&
      (HasId(r.deletion, item.id) <==> !HasId(q.deletion, item.id)) &&
      !HasId(r.completion, item.id) &&
      forall x :: x != item.id ==>
        (HasId(r.completion, x) <==> HasId(q.completion, x)) && (HasId(r.deletion, x) <==> HasId(q.deletion, x))
  {
    WithoutIdFacts(q.completion, item.id);
  }

  /**
   * Completing an item queued for deletion moves it into the completion
   * queue; completing it again takes it out, and the deletion is not
   * restored.
   */
  lemma CompleteTwiceDropsDeletion<D>(q: Queues<D>, item: ListItem<D>)
    requires Separate(q) && HasId(q.deletion, item.id)
    ensures HasId(CompleteStep(q, item).completion, item.id)
    ensures !HasId(CompleteStep(q, item).deletion, item.id)
    ensures var twice := CompleteStep(CompleteStep(q, item), item);
      !HasId(twice.completion, item.id) && !HasId(twice.deletion, item.id)
  {
    CompleteStepKeepsSeparate(q, item);
    CompleteStepKeepsSeparate(CompleteStep(q, item), item);
  }

  class ListController<D> {
    var completionItems: seq<ListItem<D>>
    var deletionItems: seq<ListItem<D>>
    var countdownArmed: bool
    var isComplete: map<Id, bool>
    var deleted: seq<Id>

    ghost predicate Valid()
      reads this
    {
      Separate(Queues(completionItems, deletionItems))
    }

    constructor(isComplete: map<Id, bool>)
      ensures Valid() && completionItems == [] && deletionItems == [] && !countdownArmed
      ensures this.isComplete == isComplete && deleted == []
    {
      completionItems := [];
      deletionItems := [];
      countdownArmed := false;
      this.isComplete := isComplete;
      deleted := [];
    }

    /** `toggleComplete` */
    method ToggleComplete(item: ListItem<D>)
      requires Valid()
      modifies this
      ensures Valid() && countdownArmed
      ensures Queues(completionItems, deletionItems) == CompleteStep(old(Queues(completionItems, deletionItems)), item)
      ensures isComplete == old(isComplete) && deleted == old(deleted)
    {
      CompleteStepKeepsSeparate(Queues(completionItems, deletionItems), item);
      if HasId(deletionItems, item.id) {
        deletionItems := WithoutId(deletionItems, item.id);
      } else {
        WithoutAbsentId(deletionItems, item.id);
      }
      if HasId(completionItems, item.id) {
        completionItems := WithoutId(completionItems, item.id);
      } else {
        completionItems := completionItems + [item];
      }
      countdownArmed := true;
    }

    /** `toggleDelete` */
    method ToggleDelete(item: ListItem<D>)
      requires Valid()
      modifies this
      ensures Valid() && countdownArmed
      ensures Queues(completionItems, deletionItems) == DeleteStep(old(Queues(completionItems, deletionItems)), item)
      ensures isComplete == old(isComplete) && deleted == old(deleted)
    {
      DeleteStepKeepsSeparate(Queues(completionItems, deletionItems), item);
      if HasId(completionItems, item.id) {
        completionItems := WithoutId(completionItems, item.id);
      } else {
        WithoutAbsentId(completionItems, item.id);
      }
      if HasId(deletionItems, item.id) {
        deletionItems := WithoutId(deletionItems, item.id);
      } else {
        deletionItems := deletionItems + [item];
      }
      countdownArmed := true;
    }

    /**
     * `performTask`: empties both queues, deletes the queued deletions in
     * order, then marks the queued completions complete.
     */
    method PerformTask()
      requires Valid()
      modifies this
      ensures Valid() && completionItems == [] && deletionItems == []
      ensures deleted == old(deleted) + IdsOf(old(deletionItems))
      ensures isComplete == ListManager.MarkComplete(old(isComplete), old(completionItems))
      ensures countdownArmed == old(countdownArmed)
    {
      var toDelete := deletionItems;
      var toComplete := completionItems;
      deletionItems := [];
      completionItems := [];
      deleted := ListManager.DeleteAll(deleted, toDelete);
      isComplete := ListManager.CompleteAll(isComplete, toComplete);
    }
  }
}
