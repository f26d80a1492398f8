/**
 * The form that creates or edits a checklist entry
 * (Planner/tabs/Checklists/forms/ChecklistItemForm.swift).
 *
 * The form edits a draft. Submitting either copies the draft's title,
 * colour and kind onto the edited entry, or appends a new entry under the
 * parent with a key 8 above the parent's highest child key. The store of
 * entries stands for the model context; saving is persistence and is not
 * part of this model.
 */
module ChecklistForm {
  import opened Wrappers
  import opened Items

  /** The fields the form edits. */
  datatype Draft = Draft(itemType: ChecklistItemType, title: string, color: ChecklistItemColor)

  /** The draft the form opens with: the edited entry's fields, or a red, untitled checklist. */
  function InitialDraft(item: Option<ChecklistItem>): (d: Draft)
    ensures item.None? ==> d == Draft(Checklist, "", Red)
    ensures item.Some? ==>
      d.itemType == item.value.details.itemType && d.title == item.value.title && d.color == item.value.details.color
  {
    match item
    case None => Draft(Checklist, "", Red)
    case Some(x) => Draft(x.details.itemType, x.title, x.details.color)
  }

  /** `parent.items`: the entries whose parent is `parentId`, in the order they were appended. */
  function ChildrenOf(store: seq<ChecklistItem>, parentId: Id): (r: seq<ChecklistItem>)
    ensures forall x :: x in r <==> x in store && x.details.parent == Some(parentId)
    ensures |r| <= |store|
  {
    if store == [] then []
    else (if store[0].details.parent == Some(parentId) then [store[0]] else []) + ChildrenOf(store[1..], parentId)
  }

  /** The kind picker is shown when creating, or when the edited entry has no children. */
  predicate ShowsTypePicker(sourceItem: Option<Id>, store: seq<ChecklistItem>) {
    sourceItem.None? || ChildrenOf(store, sourceItem.value) == []
  }

  /** Submit is enabled exactly while the draft has a title. */
  predicate SubmitEnabled(d: Draft) {
    d.title != ""
  }

  /** What the kind picker offers. */
  predicate Pickable(t: ChecklistItemType) {
    t == Checklist || t == Folder
  }

  /**
   * The key of a created entry: 8 above the last key of the parent's
   * children sorted by key, or 8 when there is no parent or it has no
   * children.
   */
  function AppendKey(siblings: Option<seq<ChecklistItem>>): (r: real)
    ensures siblings.None? || siblings.value == [] ==> r == 8.0
    ensures siblings.Some? ==> forall x :: x in siblings.value ==> x.sortIndex + 8.0 <= r
    ensures siblings.Some? && siblings.value != [] ==> exists x :: x in siblings.value && x.sortIndex + 8.0 == r
  {
    match siblings
    case None => 0.0 + 8.0
    case Some(children) =>
      var sorted := SortByKey(children);
      if sorted == [] then 0.0 + 8.0
      else
        var last := sorted[|sorted| - 1];
        assert last in multiset(children);
        assert forall x :: x in children ==> x in multiset(sorted);
        last.sortIndex + 8.0
  }

  /** A created entry's key is above every key among its siblings. */
  lemma AppendKeyIsAboveSiblings(siblings: seq<ChecklistItem>, x: ChecklistItem)
    requires x in siblings
    ensures x.sortIndex < AppendKey(Some(siblings))
  {
  }

  /**
   * Appended with that key, the created entry is the last of its
   * siblings in the sorted order, whichever order equal keys take.
   */
  lemma AppendedSortsLast(siblings: seq<ChecklistItem>, x: ChecklistItem)
    requires x.sortIndex == AppendKey(Some(siblings))
    ensures var sorted := SortByKey(siblings + [x]);
      sorted[|sorted| - 1] == x
  {
    var all := siblings + [x];
    var sorted := SortByKey(all);
    SameMembers(all, sorted);
    var last := sorted[|sorted| - 1];
    LastIsHighest(sorted, x);
    assert last in all;
    if last in siblings {
      AppendKeyIsAboveSiblings(siblings, last);
    }
  }

  /** Lists with the same multiset have the same members. */
  lemma SameMembers(a: seq<ChecklistItem>, b: seq<ChecklistItem>)
    requires multiset(a) == multiset(b)
    ensures forall y :: y in a <==> y in b
  {
    forall y ensures y in a <==> y in b {
      assert y in a <==> y in multiset(a);
    }
  }

  /** The last record of a key-sorted list has the highest key. */
  lemma LastIsHighest(sorted: seq<ChecklistItem>, x: ChecklistItem)
    requires SortedByKey(sorted) && x in sorted
    ensures x.sortIndex <= sorted[|sorted| - 1].sortIndex
  {
  }

  /** The edited entry: the draft's title, colour and kind; everything else as it was. */
  function Edited(x: ChecklistItem, d: Draft): (r: ChecklistItem)
    ensures r.title == d.title && r.details.color == d.color && r.details.itemType == d.itemType
    ensures r.id == x.id && r.isChecked == x.isChecked && r.sortIndex == x.sortIndex
    ensures r.details.parent == x.details.parent
  {
    x.(title := d.title, details := x.details.(itemType := d.itemType, color := d.color))
  }

  /** Opening the form again on the edited entry shows the submitted draft. */
  lemma ReopenShowsSubmittedDraft(x: ChecklistItem, d: Draft)
    ensures InitialDraft(Some(Edited(x, d))) == d
  {
  }

  /** Submitting an untouched draft leaves the entry as it was. */
  lemma UntouchedEditChangesNothing(x: ChecklistItem)
    ensures Edited(x, InitialDraft(Some(x))) == x
  {
  }

  /** The siblings a created entry joins: the parent's children, when there is a parent. */
  function Siblings(store: seq<ChecklistItem>, parent: Option<Id>): Option<seq<ChecklistItem>> {
    match parent
    case None => None
    case Some(p) => Some(ChildrenOf(store, p))
  }

  /** The state of `ChecklistItemFormView`: the entry being edited, the parent, the draft and the store. */
  class ChecklistItemFormView {
    const sourceItem: Option<Id>
    const parent: Option<Id>
    var draft: Draft
    var store: seq<ChecklistItem>

    /**
     * Ids are unique, the edited entry is stored, and an edited entry with
     * children keeps its kind in the draft, since the picker is hidden.
     */
    ghost predicate Valid()
      reads this
    {
      UniqueIds(store) &&
      (sourceItem.Some? ==>
        HasId(store, sourceItem.value) &&
        (ChildrenOf(store, sourceItem.value) != [] ==>
          draft.itemType == FindById(store, sourceItem.value).details.itemType))
    }

    /** `init(item:parent:)` */
    constructor(store: seq<ChecklistItem>, item: Option<Id>, parent: Option<Id>)
      requires UniqueIds(store)
      requires item.Some? ==> HasId(store, item.value)
      ensures Valid()
      ensures this.store == store && sourceItem == item && this.parent == parent
      ensures draft == InitialDraft(if item.Some? then Some(FindById(store, item.value)) else None)
    {
      this.store := store;
      sourceItem := item;
      this.parent := parent;
      draft := InitialDraft(if item.Some? then Some(FindById(store, item.value)) else None);
    }

    /** The title field. */
    method SetTitle(title: string)
      requires Valid()
      modifies this
      ensures Valid() && draft == old(draft).(title := title) && store == old(store)
    {
      draft := draft.(title := title);
    }

    /** A tap on a colour. */
    method PickColor(color: ChecklistItemColor)
      requires Valid()
      modifies this
      ensures Valid() && draft == old(draft).(color := color) && store == old(store)
    {
      draft := draft.(color := color);
    }

    /** The kind picker, which only exists while it is shown. */
    method PickType(t: ChecklistItemType)
      requires Valid() && ShowsTypePicker(sourceItem, store) && Pickable(t)
      modifies this
      ensures Valid() && draft == old(draft).(itemType := t) && store == old(store)
    {
      draft := draft.(itemType := t);
    }

    /**
     * The Submit action, which the disabled button only allows with a
     * title. Editing replaces the entry with its edited copy; an entry
     * with children keeps its kind. Creating appends a new entry.
     */
    method Submit(newId: Id)
      requires Valid() && SubmitEnabled(draft)
      requires sourceItem.None? ==> !HasId(store, newId)
      modifies this
      ensures UniqueIds(store)
      ensures sourceItem.Some? ==>
        var id := sourceItem.value;
        store == Replace(old(store), id, Edited(FindById(old(store), id), draft)) &&
        (ChildrenOf(old(store), id) != [] ==>
          FindById(store, id).details.itemType == FindById(old(store), id).details.itemType)
      ensures sourceItem.None? ==>
        store == old(store) + [NewChecklistItem(newId, draft.itemType, draft.title, draft.color,
                                                AppendKey(Siblings(old(store), parent)), parent)]
    {
      if sourceItem.Some? {
        var id := sourceItem.value;
        var edited := Edited(FindById(store, id), draft);
        EditKeepsIds(store, id, edited);
        store := Replace(store, id, edited);
      } else {
        var sortIndex := AppendKey(Siblings(store, parent));
        var newItem := NewChecklistItem(newId, draft.itemType, draft.title, draft.color, sortIndex, parent);
        var stored := store + [newItem];
        assert UniqueIds(stored) by {
          forall i, j | 0 <= i < j < |stored| ensures stored[i].id != stored[j].id {
            assert stored[i] == store[i];
          }
        }
        store := stored;
      }
    }
  }

  /** Writing a record with the same id over a stored one keeps ids unique, and the id finds the new record. */
  lemma EditKeepsIds(store: seq<ChecklistItem>, id: Id, x: ChecklistItem)
    requires UniqueIds(store) && HasId(store, id) && x.id == id
    ensures UniqueIds(Replace(store, id, x))
    ensures HasId(Replace(store, id, x), id) && FindById(Replace(store, id, x), id) == x
  {
    var r := Replace(store, id, x);
    var k :| 0 <= k < |store| && store[k].id == id;
    assert r[k] == x;
  }
}
