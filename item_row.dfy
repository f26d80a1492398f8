/**
 * One row of a sortable list (Planner/views/SortableList/microViews/Item.swift):
 * whether it shows as checked, and what focusing, blurring and pressing
 * Return do to its title, to the list's shared focus and to the store.
 *
 * The row's view state (`isFocused`) and the record it edits are the
 * fields of `Row`; the list-wide focus is the shared `FocusController`
 * (Planner/views/SortableList/SortableList.swift:11-13). SwiftUI's
 * `onChange(of: isFocused)` handler runs inside `SetFocused`, which is the
 * only way the model changes `isFocused`.
 */
module ItemRow {
  import opened Wrappers
  import opened Items
  import Text
  import SortableList

  /** `ListToggleType` */
  datatype ListToggleType = Storage | Staging

  /**
   * `isChecked`: in staging mode, membership in the selection; otherwise a
   * pending uncheck wins over a pending check, which wins over the stored
   * flag.
   */
  function IsChecked(toggleType: ListToggleType, id: Id, stored: bool,
                     selectedItemIds: set<Id>, itemIdsToUncheck: set<Id>, itemIdsToCheck: set<Id>): (r: bool)
    ensures toggleType == Staging ==> (r <==> id in selectedItemIds)
    ensures toggleType == Storage ==> (r <==> id !in itemIdsToUncheck && (id in itemIdsToCheck || stored))
  {
    if toggleType == Staging then id in selectedItemIds
    else if id in itemIdsToUncheck then false
    else if id in itemIdsToCheck then true
    else stored
  }

  /** A pending uncheck decides the row even when a check is pending too. */
  lemma UncheckWinsOverCheck(id: Id, stored: bool, selectedItemIds: set<Id>,
                             itemIdsToUncheck: set<Id>, itemIdsToCheck: set<Id>)
    requires id in itemIdsToUncheck && id in itemIdsToCheck
    ensures !IsChecked(Storage, id, stored, selectedItemIds, itemIdsToUncheck, itemIdsToCheck)
  {
  }

  /**
   * What losing focus does with the title: `None` when it trims to nothing
   * (the row is deleted), otherwise the trimmed title that is stored and
   * handed to `onTitleChange`.
   */
  function Commit(title: string): (r: Option<string>)
    ensures r.None? <==> Text.IsBlank(title)
    ensures r.Some? ==> r.value == Text.Trimmed(title) && r.value != []
    ensures r.Some? ==> !Text.IsWhitespace(r.value[0]) && !Text.IsWhitespace(r.value[|r.value| - 1])
  {
    Text.TrimmedEmptyIffBlank(title);
    Text.TrimmedIsCore(title);
    var trimmed := Text.Trimmed(title);
    if trimmed == [] then None else Some(trimmed)
  }

  /** A committed title commits to itself: focusing and blurring again changes nothing. */
  lemma CommitIsStable(title: string)
    requires Commit(title).Some?
    ensures Commit(Commit(title).value) == Commit(title)
  {
    Text.TrimmedIdempotent(title);
  }

  /**
   * Pressing Return on a titled row asks for a row at offset 1 from it,
   * which (ids being distinct) is the index just below it, unless the row
   * below is untitled.
   */
  lemma ReturnRequestsRowBelow<D>(items: seq<ListItem<D>>, k: nat)
    requires k < |items| && UniqueIds(items) && items[k].title != ""
    ensures SortableList.OffsetInRange(items, Some(items[k].id), 1)
    ensures SortableList.CreateIndex(items, Some(items[k].id), 1) ==
      if k + 1 < |items| && items[k + 1].title == "" then None else Some(k + 1)
  {
    assert SortableList.FirstIndex(items, Some(items[k].id)) == Some(k);
  }

  /** `FocusController`: the id of the row that holds the keyboard, if any. */
  class FocusController {
    var focusedId: Option<Id>

    constructor()
      ensures focusedId == None
    {
      focusedId := None;
    }
  }

  class Row {
    const id: Id
    const focus: FocusController
    var title: string
    var isFocused: bool
    /** `modelContext.delete(item)` has run. */
    var deleted: bool
    /** The titles handed to `onTitleChange`, oldest first. */
    var titleChanges: seq<string>

    constructor(id: Id, title: string, focus: FocusController)
      ensures this.id == id && this.title == title && this.focus == focus
      ensures !isFocused && !deleted && titleChanges == []
    {
      this.id := id;
      this.focus := focus;
      this.title := title;
      isFocused := false;
      deleted := false;
      titleChanges := [];
    }

    /**
     * `isFocused = newValue` followed by the `onChange(of: isFocused)`
     * handler: gaining focus claims the shared focus; losing it commits
     * the title or deletes the row.
     */
    method SetFocused(newValue: bool)
      modifies this, focus
      ensures isFocused == newValue
      ensures old(isFocused) == newValue ==> unchanged(this) && unchanged(focus)
      ensures newValue && !old(isFocused) ==>
        focus.focusedId == Some(id) &&
        title == old(title) && deleted == old(deleted) && titleChanges == old(titleChanges)
      ensures !newValue && old(isFocused) ==> focus.focusedId == old(focus.focusedId)
      ensures !newValue && old(isFocused) && Commit(old(title)).None? ==>
        deleted && title == old(title) && titleChanges == old(titleChanges)
      ensures !newValue && old(isFocused) && Commit(old(title)).Some? ==>
        title == Commit(old(title)).value && titleChanges == old(titleChanges) + [title] &&
        deleted == old(deleted)
    {
      if isFocused == newValue {
        return;
      }
      var wasFocused := isFocused;
      isFocused := newValue;
      if newValue {
        focus.focusedId := Some(id);
      } else if wasFocused {
        match Commit(title)
        case None =>
          deleted := true;
        case Some(trimmed) =>
          title := trimmed;
          titleChanges := titleChanges + [trimmed];
      }
    }

    /** `onAppear`: a new, untitled row takes the focus. */
    method Appear()
      modifies this, focus
      ensures old(title) == "" && !old(isFocused) ==>
        isFocused && focus.focusedId == Some(id) &&
        title == old(title) && deleted == old(deleted) && titleChanges == old(titleChanges)
      ensures old(title) != "" || old(isFocused) ==> unchanged(this) && unchanged(focus)
    {
      if title == "" {
        SetFocused(true);
      }
    }

    /** `onChange(of: focusController.focusedId)`: another row took the focus. */
    method FocusedIdChanged()
      modifies this, focus
      ensures focus.focusedId == old(focus.focusedId)
      ensures old(isFocused) && old(focus.focusedId) != Some(id) ==> !isFocused
      ensures old(isFocused) && old(focus.focusedId) != Some(id) && Commit(old(title)).None? ==>
        deleted && title == old(title) && titleChanges == old(titleChanges)
      ensures old(isFocused) && old(focus.focusedId) != Some(id) && Commit(old(title)).Some? ==>
        title == Commit(old(title)).value && titleChanges == old(titleChanges) + [title] && deleted == old(deleted)
      ensures !(old(isFocused) && old(focus.focusedId) != Some(id)) ==> unchanged(this)
    {
      if focus.focusedId != Some(id) && isFocused {
        SetFocused(false);
      }
    }

    /** `onChange(of: isChecked)`: becoming checked blurs the field, which commits or deletes. */
    method CheckedChanged(newIsChecked: bool)
      modifies this, focus
      ensures !(newIsChecked && old(isFocused)) ==> unchanged(this) && unchanged(focus)
      ensures newIsChecked && old(isFocused) ==> !isFocused && focus.focusedId == old(focus.focusedId)
      ensures newIsChecked && old(isFocused) && Commit(old(title)).None? ==>
        deleted && title == old(title) && titleChanges == old(titleChanges)
      ensures newIsChecked && old(isFocused) && Commit(old(title)).Some? ==>
        title == Commit(old(title)).value && titleChanges == old(titleChanges) + [title] && deleted == old(deleted)
    {
      if newIsChecked {
        SetFocused(false);
      }
    }

    /** Tapping the static title focuses an unchecked row. */
    method TapTitle(checked: bool)
      modifies this, focus
      ensures !checked ==>
        isFocused && focus.focusedId == (if old(isFocused) then old(focus.focusedId) else Some(id)) &&
        title == old(title) && deleted == old(deleted) && titleChanges == old(titleChanges)
      ensures checked ==> unchanged(this) && unchanged(focus)
    {
      if !checked {
        SetFocused(true);
      }
    }

    /**
     * The text field's Return key: a titled row requests a new row at
     * offset 1 below it (the returned offset); an untitled one clears the
     * shared focus, which blurs this row and so deletes it.
     */
    method Return() returns (createOffset: Option<int>)
      modifies this, focus
      ensures old(title) != "" ==> createOffset == Some(1) && unchanged(this) && unchanged(focus)
      ensures old(title) == "" ==> createOffset.None? && focus.focusedId.None?
      ensures old(title) == "" && old(isFocused) && old(focus.focusedId) != None ==>
        deleted && !isFocused && title == old(title) && titleChanges == old(titleChanges)
      ensures old(title) == "" && !(old(isFocused) && old(focus.focusedId) != None) ==> unchanged(this)
    {
      if title != "" {
        createOffset := Some(1);
      } else {
        createOffset := None;
        var previous := focus.focusedId;
        focus.focusedId := None;
        if previous != None {
          FocusedIdChanged();
        }
      }
    }
  }
}
