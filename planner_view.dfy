/**
 * One day's planner, earlier revision (Planner/tabs/Planner/PlannerView.swift).
 *
 * This revision keeps no planner record: each event carries its own
 * datestamp, and the view queries every stored event for its day, once
 * for the unchecked and once for the checked ones, each sorted by key.
 * The handlers follow the rules stated in `PlannerDay` for a
 * `ByDatestamp` revision.
 */
module PlannerViewRevision {
  import opened Items
  import SortIndex
  import PlannerDay

  /** The `uncheckedEvents` query over the stored events. */
  function UncheckedEvents(datestamp: string, events: seq<PlannerEvent>): seq<PlannerEvent> {
    PlannerDay.Unchecked(PlannerDay.ByDatestamp(datestamp), events)
  }

  /** The state of `PlannerView`: its day and every stored event. */
  class PlannerView {
    const datestamp: string
    var events: seq<PlannerEvent>

    /** Ids are object identities: no two records share one. */
    ghost predicate Valid()
      reads this
    {
      UniqueIds(events)
    }

    constructor(datestamp: string, events: seq<PlannerEvent>)
      requires UniqueIds(events)
      ensures Valid() && this.datestamp == datestamp && this.events == events
    {
      this.datestamp := datestamp;
      this.events := events;
    }

    /** `handleCreateEvent(at:)`: a new event on this day, with the gap key at `index`. */
    method HandleCreateEvent(index: int, newId: Id)
      requires Valid()
      requires SortIndex.Placeable(index, Keys(UncheckedEvents(datestamp, events)))
      requires !HasId(events, newId)
      modifies this
      ensures Valid()
      ensures events == old(events) + [NewPlannerEvent(newId, datestamp, SortIndex.GenerateSortIndex(index, Keys(UncheckedEvents(datestamp, old(events)))))]
    {
      var sortIndex := SortIndex.GenerateSortIndex(index, Keys(UncheckedEvents(datestamp, events)));
      var newEvent := NewPlannerEvent(newId, datestamp, sortIndex);
      var stored := events + [newEvent];
      assert UniqueIds(stored) by {
        forall i, j | 0 <= i < j < |stored| ensures stored[i].id != stored[j].id {
          assert stored[i] == events[i];
        }
      }
      events := stored;
    }

    /** The "Add" button: nothing when the last unchecked event is untitled, else create at the end. */
    method Add(newId: Id)
      requires Valid() && !HasId(events, newId)
      modifies this
      ensures Valid()
      ensures var u := UncheckedEvents(datestamp, old(events));
        PlannerDay.LastUntitled(u) ==> events == old(events)
      ensures var u := UncheckedEvents(datestamp, old(events));
        !PlannerDay.LastUntitled(u) ==>
        events == old(events) + [NewPlannerEvent(newId, datestamp, SortIndex.GenerateSortIndex(|u|, Keys(u)))]
    {
      var uncheckedEvents := UncheckedEvents(datestamp, events);
      if PlannerDay.LastUntitled(uncheckedEvents) {
        return;
      }
      assert SortIndex.Placeable(|uncheckedEvents|, Keys(UncheckedEvents(datestamp, events)));
      HandleCreateEvent(|uncheckedEvents|, newId);
    }

    /** `handleMoveUncheckedEvent(from:to:)` */
    method HandleMoveUncheckedEvent(from: int, to: int)
      requires Valid()
      requires PlannerDay.MovePossible(PlannerDay.ByDatestamp(datestamp), events, from, to)
      modifies this
      ensures Valid()
      ensures events == PlannerDay.MovedEvents(PlannerDay.ByDatestamp(datestamp), old(events), from, to)
    {
      var moved := PlannerDay.MoveUncheckedEvent(PlannerDay.ByDatestamp(datestamp), events, from, to);
      PlannerDay.KeysKeepIds(events, moved);
      events := moved;
    }

    /** `handleEventTitleChange(event:)` for the stored event with id `id`. */
    method HandleEventTitleChange(id: Id, build: PlannerDay.ConfigBuilder)
      requires Valid() && HasId(events, id)
      modifies this
      ensures Valid()
      ensures events == PlannerDay.TitleChanged(PlannerDay.ByDatestamp(datestamp), old(events), id, build)
    {
      var changed := PlannerDay.EventTitleChange(PlannerDay.ByDatestamp(datestamp), events, id, build);
      PlannerDay.KeysKeepIds(events, changed);
      events := changed;
    }
  }
}
