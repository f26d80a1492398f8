/**
 * One day's planner, current revision (Planner/tabs/Planner/PlannerDay.swift):
 * whether the day is past or future, the unchecked and checked lists of its
 * events, and the handlers that create an event, move an unchecked event
 * and read a time out of an event's title.
 *
 * The move and title-change rules are the same in the two earlier
 * revisions of the view (`PlannerViewRevision`, `PlannerLegacy`); they
 * differ only in where the day's events come from, which `Revision` says.
 * The rules are stated here once, over the records a revision holds.
 *
 * `toPlannerEventTimeConfig` is SwiftDate's work and is an input
 * (`ConfigBuilder`); the one-second delay before the second step of a move
 * is not modelled, the step runs straight after the first.
 */
module PlannerDay {
  import opened Wrappers
  import opened Items
  import StringExt
  import SortIndex
  import opened EventTime
  import Reconcile
  import CivilDate

  // ---------------------------------------------------------------------
  // plannerType / showChecked
  // ---------------------------------------------------------------------

  /** `PlannerType` */
  datatype PlannerType = PastOrPresent | Future

  /** `plannerType`: past or present when the day's datestamp is not after today's, as strings. */
  function PlannerTypeOf(datestamp: string, todaystamp: string): PlannerType {
    if StringExt.IsEarlierOrEqual(datestamp, todaystamp) then PastOrPresent else Future
  }

  /**
   * On datestamps of real days the string comparison is the calendar's:
   * a planner is past or present exactly when its day is not after today.
   */
  lemma PlannerTypeIsChronological(day: CivilDate.Date, today: CivilDate.Date)
    requires CivilDate.Stampable(day) && CivilDate.Stampable(today)
    ensures PlannerTypeOf(CivilDate.Datestamp(day), CivilDate.Datestamp(today)) == PastOrPresent
            <==> !CivilDate.Before(today, day)
  {
    CivilDate.DatestampOrder(day, today);
  }

  /** Today's planner is past or present, tomorrow's is in the future. */
  lemma TodayPresentTomorrowFuture(today: CivilDate.Date)
    requires CivilDate.Stampable(today) && CivilDate.Stampable(CivilDate.NextDay(today))
    ensures PlannerTypeOf(CivilDate.Datestamp(today), CivilDate.Datestamp(today)) == PastOrPresent
    ensures PlannerTypeOf(CivilDate.Datestamp(CivilDate.NextDay(today)), CivilDate.Datestamp(today)) == Future
  {
    PlannerTypeIsChronological(today, today);
    PlannerTypeIsChronological(CivilDate.NextDay(today), today);
  }

  /** `showChecked`: deleted plans are shown on future days, completed plans otherwise. */
  function ShowChecked(t: PlannerType, showCompletedPlans: bool, showDeletedPlans: bool): (r: bool)
    ensures t == Future ==> r == showDeletedPlans
    ensures t == PastOrPresent ==> r == showCompletedPlans
  {
    if t == Future then showDeletedPlans else showCompletedPlans
  }

  /**
   * The menu's visibility button: flips the stored setting of the day's
   * type. The shown state of this day flips, and the setting of the other
   * type of day is untouched.
   */
  function ToggleVisibility(t: PlannerType, showCompletedPlans: bool, showDeletedPlans: bool): (r: (bool, bool))
    ensures ShowChecked(t, r.0, r.1) == !ShowChecked(t, showCompletedPlans, showDeletedPlans)
    ensures forall u: PlannerType :: u != t ==> ShowChecked(u, r.0, r.1) == ShowChecked(u, showCompletedPlans, showDeletedPlans)
  {
    if t == Future then (showCompletedPlans, !showDeletedPlans) else (!showCompletedPlans, showDeletedPlans)
  }

  /** Pressing the button twice restores both settings. */
  lemma ToggleVisibilityTwice(t: PlannerType, showCompletedPlans: bool, showDeletedPlans: bool)
    ensures var (c, d) := ToggleVisibility(t, showCompletedPlans, showDeletedPlans);
      ToggleVisibility(t, c, d) == (showCompletedPlans, showDeletedPlans)
  {
  }

  // ---------------------------------------------------------------------
  // uncheckedEvents / checkedEvents
  // ---------------------------------------------------------------------

  /** `events.filter { !$0.isChecked }.sorted { $0.sortIndex < $1.sortIndex }` */
  function UncheckedOf(events: seq<PlannerEvent>): seq<PlannerEvent> {
    SortByKey(WithChecked(events, false))
  }

  /** `events.filter { $0.isChecked }.sorted { $0.sortIndex < $1.sortIndex }` */
  function CheckedOf(events: seq<PlannerEvent>): seq<PlannerEvent> {
    SortByKey(WithChecked(events, true))
  }

  /**
   * The two lists split the events by their check mark, each ascending by
   * key, and together hold every event exactly as often as the day does.
   */
  lemma PartitionsEvents(events: seq<PlannerEvent>)
    ensures SortedByKey(UncheckedOf(events)) && SortedByKey(CheckedOf(events))
    ensures forall e :: e in UncheckedOf(events) ==> e in events && !e.isChecked
    ensures forall e :: e in CheckedOf(events) ==> e in events && e.isChecked
    ensures multiset(UncheckedOf(events)) + multiset(CheckedOf(events)) == multiset(events)
  {
    WithCheckedPartition(events);
    forall e | e in UncheckedOf(events) ensures e in events && !e.isChecked {
      assert e in multiset(WithChecked(events, false));
    }
    forall e | e in CheckedOf(events) ensures e in events && e.isChecked {
      assert e in multiset(WithChecked(events, true));
    }
  }

  /** A planner record: its datestamp and its events. */
  datatype PlannerRecord = PlannerRecord(datestamp: string, events: seq<PlannerEvent>)

  /** `uncheckedEvents`: empty while the day has no planner. */
  function UncheckedEvents(planner: Option<PlannerRecord>): (r: seq<PlannerEvent>)
    ensures planner.None? ==> r == []
  {
    match planner
    case None => []
    case Some(p) => UncheckedOf(p.events)
  }

  /** `checkedEvents`: empty while the day has no planner. */
  function CheckedEvents(planner: Option<PlannerRecord>): (r: seq<PlannerEvent>)
    ensures planner.None? ==> r == []
  {
    match planner
    case None => []
    case Some(p) => CheckedOf(p.events)
  }
  /** The rows of the list's checked section: the checked events while `showChecked` holds, none otherwise. */
  function CheckedSection(planner: Option<PlannerRecord>, t: PlannerType, showCompletedPlans: bool, showDeletedPlans: bool): seq<PlannerEvent> {
    if ShowChecked(t, showCompletedPlans, showDeletedPlans) then CheckedEvents(planner) else []
  }

  /**
   * A day after today lists its checked events exactly while deleted
   * plans are shown; today and earlier days exactly while completed plans
   * are shown.
   */
  lemma CheckedSectionByDay(planner: Option<PlannerRecord>, day: CivilDate.Date, today: CivilDate.Date,
                            showCompletedPlans: bool, showDeletedPlans: bool)
    requires CivilDate.Stampable(day) && CivilDate.Stampable(today)
    ensures var shown := CheckedSection(planner, PlannerTypeOf(CivilDate.Datestamp(day), CivilDate.Datestamp(today)),
                                        showCompletedPlans, showDeletedPlans);
      (CivilDate.Before(today, day) ==> shown == if showDeletedPlans then CheckedEvents(planner) else []) &&
      (!CivilDate.Before(today, day) ==> shown == if showCompletedPlans then CheckedEvents(planner) else [])
  {
    PlannerTypeIsChronological(day, today);
  }


  // ---------------------------------------------------------------------
  // The records a revision holds
  // ---------------------------------------------------------------------

  /**
   * How a revision finds the day's events among the records it holds: the
   * current one holds the planner's own events, the earlier ones query
   * every event for the view's datestamp. It also decides which datestamp a
   * time read from a title is built against: the event's planner's, or
   * the event's own.
   */
  datatype Revision = ByPlanner | ByDatestamp(datestamp: string)

  /** `#Predicate { $0.datestamp == datestamp }` */
  function OnDay(events: seq<PlannerEvent>, datestamp: string): (r: seq<PlannerEvent>)
    ensures forall x :: x in r <==> x in events && x.details.datestamp == datestamp
  {
    if events == [] then []
    else (if events[0].details.datestamp == datestamp then [events[0]] else []) + OnDay(events[1..], datestamp)
  }

  function DayEvents(rev: Revision, pool: seq<PlannerEvent>): seq<PlannerEvent> {
    match rev
    case ByPlanner => pool
    case ByDatestamp(d) => OnDay(pool, d)
  }

  /** Filtering by day distributes over appending one record. */
  lemma {:induction false} OnDayAppend(events: seq<PlannerEvent>, e: PlannerEvent, datestamp: string)
    ensures OnDay(events + [e], datestamp) == OnDay(events, datestamp) + (if e.details.datestamp == datestamp then [e] else [])
  {
    if events == [] {
      assert [e][1..] == [];
    } else {
      assert (events + [e])[1..] == events[1..] + [e];
      OnDayAppend(events[1..], e, datestamp);
    }
  }

  /** The unchecked list the revision shows, ascending by key. */
  function Unchecked(rev: Revision, pool: seq<PlannerEvent>): seq<PlannerEvent> {
    UncheckedOf(DayEvents(rev, pool))
  }

  /** The checked list the revision shows, ascending by key. */
  function Checked(rev: Revision, pool: seq<PlannerEvent>): seq<PlannerEvent> {
    CheckedOf(DayEvents(rev, pool))
  }

  /**
   * The earlier revisions' two queries split the events stamped with the
   * view's day by their check mark, and hold nothing else.
   */
  lemma DayQueriesPartition(pool: seq<PlannerEvent>, datestamp: string)
    ensures var day := OnDay(pool, datestamp);
      (forall e :: e in Unchecked(ByDatestamp(datestamp), pool) ==> e in pool && e.details.datestamp == datestamp && !e.isChecked) &&
      (forall e :: e in Checked(ByDatestamp(datestamp), pool) ==> e in pool && e.details.datestamp == datestamp && e.isChecked) &&
      multiset(Unchecked(ByDatestamp(datestamp), pool)) + multiset(Checked(ByDatestamp(datestamp), pool)) == multiset(day) &&
      (forall e :: e in day <==> e in pool && e.details.datestamp == datestamp)
  {
    PartitionsEvents(OnDay(pool, datestamp));
  }

  /**
   * A created event, unchecked and (in the earlier revisions) stamped with
   * the view's day, joins the unchecked list; the checked list stays.
   */
  lemma NewEventJoinsDay(rev: Revision, pool: seq<PlannerEvent>, e: PlannerEvent)
    requires !e.isChecked
    requires rev.ByDatestamp? ==> e.details.datestamp == rev.datestamp
    ensures multiset(Unchecked(rev, pool + [e])) == multiset(Unchecked(rev, pool)) + multiset{e}
    ensures Checked(rev, pool + [e]) == Checked(rev, pool)
  {
    var day := DayEvents(rev, pool);
    if rev.ByDatestamp? {
      OnDayAppend(pool, e, rev.datestamp);
    }
    assert DayEvents(rev, pool + [e]) == day + [e];
    var a, c := WithChecked(day, false), WithChecked(day, true);
    WithCheckedAppend(day, e, false);
    WithCheckedAppend(day, e, true);
    assert WithChecked(day + [e], false) == a + [e];
    assert WithChecked(day + [e], true) == c + [] == c;
    assert multiset(a + [e]) == multiset(a) + multiset{e};
  }

  /** The datestamp a time in `e`'s title is read against, if any. */
  function ConfigDatestamp(rev: Revision, e: PlannerEvent): Option<string> {
    match rev
    case ByPlanner => e.details.planner
    case ByDatestamp(_) => Some(e.details.datestamp)
  }

  // ---------------------------------------------------------------------
  // handleMoveUncheckedEvent
  // ---------------------------------------------------------------------

  /**
   * What a move demands: a real move names an unchecked event, and a
   * target index the gap-key rule accepts among the others.
   */
  predicate MovePossible(rev: Revision, pool: seq<PlannerEvent>, from: int, to: int) {
    from == to ||
    (0 <= from < |Unchecked(rev, pool)| &&
     SortIndex.Placeable(to, Keys(WithoutId(Unchecked(rev, pool), Unchecked(rev, pool)[from].id))))
  }

  /** Step 1: the key of the gap at `to` among the unchecked events other than the moved one. */
  function GapKey(unchecked: seq<PlannerEvent>, from: nat, to: int): real
    requires from < |unchecked|
    requires SortIndex.Placeable(to, Keys(WithoutId(unchecked, unchecked[from].id)))
  {
    SortIndex.GenerateSortIndex(to, Keys(WithoutId(unchecked, unchecked[from].id)))
  }

  /**
   * Step 2: the reconciled key of the moved event, against the day as it
   * stands once the event carries its gap key.
   */
  function SettledKey(rev: Revision, pool: seq<PlannerEvent>, from: int, to: int): real
    requires MovePossible(rev, pool, from, to) && from != to
  {
    var unchecked := Unchecked(rev, pool);
    var moved := unchecked[from];
    var gap := GapKey(unchecked, from, to);
    Reconcile.ReconciledKey(moved.(sortIndex := gap), Unchecked(rev, SetKey(pool, moved.id, gap)))
  }

  /**
   * The records after a move: nothing changes when `from == to`;
   * otherwise the moved event, and only it, ends with the settled key.
   */
  function MovedEvents(rev: Revision, pool: seq<PlannerEvent>, from: int, to: int): (r: seq<PlannerEvent>)
    requires MovePossible(rev, pool, from, to)
    ensures |r| == |pool|
    ensures forall i :: 0 <= i < |pool| ==> r[i].id == pool[i].id
  {
    if from == to then pool
    else SetKey(pool, Unchecked(rev, pool)[from].id, SettledKey(rev, pool, from, to))
  }

  /**
   * `handleMoveUncheckedEvent(from:to:)`: the gap key is written first,
   * and the reconciled key replaces it only when the two differ.
   */
  method MoveUncheckedEvent(rev: Revision, pool: seq<PlannerEvent>, from: int, to: int) returns (r: seq<PlannerEvent>)
    requires MovePossible(rev, pool, from, to)
    ensures r == MovedEvents(rev, pool, from, to)
  {
    if from == to {
      return pool;
    }
    var uncheckedEvents := Unchecked(rev, pool);
    var movedEvent := uncheckedEvents[from];
    var eventsWithoutEvent := WithoutId(uncheckedEvents, movedEvent.id);
    var newSortIndex := SortIndex.GenerateSortIndex(to, Keys(eventsWithoutEvent));
    r := SetKey(pool, movedEvent.id, newSortIndex);
    movedEvent := movedEvent.(sortIndex := newSortIndex);
    var validSortIndex := Reconcile.GenerateValidPlannerEventSortIndex(movedEvent, Unchecked(rev, r));
    assert validSortIndex == SettledKey(rev, pool, from, to);
    if validSortIndex != newSortIndex {
      SetKeyTwice(pool, movedEvent.id, newSortIndex, validSortIndex);
      r := SetKey(r, movedEvent.id, validSortIndex);
    }
  }

  /**
   * An event without a time keeps its gap key, and that key puts it at
   * `to` among the other unchecked events (after all of them when `to` is
   * past the end), provided their keys are positive and distinct.
   */
  lemma UntimedMoveLandsAtTarget(rev: Revision, pool: seq<PlannerEvent>, from: int, to: int)
    requires MovePossible(rev, pool, from, to) && from != to && to >= 0
    requires TimeOf(Unchecked(rev, pool)[from]).None?
    requires StrictlySortedByKey(Unchecked(rev, pool))
    requires forall e :: e in Unchecked(rev, pool) ==> e.sortIndex > 0.0
    ensures var unchecked := Unchecked(rev, pool);
      var others := WithoutId(unchecked, unchecked[from].id);
      SettledKey(rev, pool, from, to) == GapKey(unchecked, from, to) &&
      SortIndex.PlacesAt(GapKey(unchecked, from, to), if to < |others| then to else |others|, Keys(others))
  {
    var unchecked := Unchecked(rev, pool);
    var moved := unchecked[from];
    var gap := GapKey(unchecked, from, to);
    TimeIgnoresOtherFields(moved, moved.title, moved.isChecked, gap, moved.details.datestamp);
    Reconcile.NoTimeKeepsKey(moved.(sortIndex := gap), Unchecked(rev, SetKey(pool, moved.id, gap)));
    GapKeyLandsAtTarget(unchecked, from, to);
  }

  /** On positive, distinct keys, the gap key puts the moved event at `to` among the others. */
  lemma GapKeyLandsAtTarget(unchecked: seq<PlannerEvent>, from: nat, to: int)
    requires from < |unchecked| && to >= 0
    requires StrictlySortedByKey(unchecked)
    requires forall e :: e in unchecked ==> e.sortIndex > 0.0
    ensures var others := WithoutId(unchecked, unchecked[from].id);
      SortIndex.PlacesAt(GapKey(unchecked, from, to), if to < |others| then to else |others|, Keys(others))
  {
    var others := WithoutId(unchecked, unchecked[from].id);
    WithoutIdStrictlySorted(unchecked, unchecked[from].id);
    StrictKeys(others);
    assert others != [] ==> others[0] in unchecked;
    SortIndex.PlacesAtIndex(to, Keys(others));
  }

  /** A move within the list writes one key: every other record, and every other field, stays. */
  lemma MoveWritesOneKey(rev: Revision, pool: seq<PlannerEvent>, from: int, to: int, i: nat)
    requires MovePossible(rev, pool, from, to) && from != to && i < |pool|
    ensures var r := MovedEvents(rev, pool, from, to);
      var id := Unchecked(rev, pool)[from].id;
      (pool[i].id != id ==> r[i] == pool[i]) &&
      (pool[i].id == id ==> r[i] == pool[i].(sortIndex := SettledKey(rev, pool, from, to)))
  {
  }

  // ---------------------------------------------------------------------
  // handleEventTitleChange
  // ---------------------------------------------------------------------

  /** `toPlannerEventTimeConfig(usingDate:)`: a time value and a datestamp to a time configuration. */
  type ConfigBuilder = (string, string) -> Option<TimeConfig>

  /**
   * The event once a time has been read from its title, or `None` when a
   * guard returns early: no datestamp to build against, a time already
   * set, no time in the title, or no configuration built.
   */
  function Retimed(e: PlannerEvent, datestamp: Option<string>, build: ConfigBuilder): (r: Option<PlannerEvent>)
    ensures r.Some? <==>
      (datestamp.Some? && e.details.timeConfig.None? && StringExt.SeparateTimeValue(e.title).Some? &&
       build(StringExt.SeparateTimeValue(e.title).value.timeValue24Hour, datestamp.value).Some?)
  {
    if datestamp.None? || e.details.timeConfig.Some? then None
    else
      match StringExt.SeparateTimeValue(e.title)
      case None => None
      case Some(separated) =>
        match build(separated.timeValue24Hour, datestamp.value)
        case None => None
        case Some(config) =>
          Some(e.(title := separated.updatedText, details := e.details.(timeConfig := Some(config))))
  }

  /**
   * A retimed event keeps its id, its check mark and its key, loses the
   * words of its time from the title, and now has a time: the one the
   * built configuration orders it by.
   */
  lemma RetimedEventHasTime(e: PlannerEvent, datestamp: Option<string>, build: ConfigBuilder)
    requires Retimed(e, datestamp, build).Some?
    ensures var u := Retimed(e, datestamp, build).value;
      var separated := StringExt.SeparateTimeValue(e.title).value;
      var config := build(separated.timeValue24Hour, datestamp.value).value;
      u.id == e.id && u.isChecked == e.isChecked && u.sortIndex == e.sortIndex &&
      u.title == separated.updatedText && |u.title| < |e.title| &&
      u.details.timeConfig == Some(config) && TimeOf(u).Some?
  {
  }

  /**
   * The records after a title change: nothing changes when a guard
   * returns early; otherwise the event carries its stripped title, its
   * new time and the reconciled key against the day as it then stands.
   */
  function TitleChanged(rev: Revision, pool: seq<PlannerEvent>, id: Id, build: ConfigBuilder): (r: seq<PlannerEvent>)
    requires HasId(pool, id)
    ensures |r| == |pool|
  {
    var e := FindById(pool, id);
    match Retimed(e, ConfigDatestamp(rev, e), build)
    case None => pool
    case Some(u) =>
      var step := Replace(pool, id, u);
      Replace(step, id, u.(sortIndex := Reconcile.ReconciledKey(u, Unchecked(rev, step))))
  }

  /** `handleEventTitleChange(event:)`, for the event with id `id`. */
  method EventTitleChange(rev: Revision, pool: seq<PlannerEvent>, id: Id, build: ConfigBuilder) returns (r: seq<PlannerEvent>)
    requires HasId(pool, id)
    ensures r == TitleChanged(rev, pool, id, build)
  {
    var event := FindById(pool, id);
    var datestamp := ConfigDatestamp(rev, event);
    if datestamp.None? {
      UnchangedWhenGuarded(rev, pool, id, build);
      return pool;
    }
    if event.details.timeConfig.Some? {
      UnchangedWhenGuarded(rev, pool, id, build);
      return pool;
    }
    var separated := StringExt.SeparateTimeValue(event.title);
    if separated.None? {
      UnchangedWhenGuarded(rev, pool, id, build);
      return pool;
    }
    var config := build(separated.value.timeValue24Hour, datestamp.value);
    if config.None? {
      UnchangedWhenGuarded(rev, pool, id, build);
      return pool;
    }
    event := event.(title := separated.value.updatedText, details := event.details.(timeConfig := config));
    ChangedWhenRetimed(rev, pool, id, build, event);
    r := Replace(pool, id, event);
    var step := r;
    var newSortIndex := Reconcile.GenerateValidPlannerEventSortIndex(event, Unchecked(rev, r));
    ghost var target := Replace(step, id, event.(sortIndex := newSortIndex));
    assert TitleChanged(rev, pool, id, build) == target;
    if newSortIndex == event.sortIndex {
      assert event.(sortIndex := newSortIndex) == event;
      ReplaceTwice(pool, id, event, event);
      assert r == target;
      return r;
    }
    r := SetKey(r, id, newSortIndex);
    SetKeyAfterReplace(pool, id, event, newSortIndex);
    ReplaceTwice(pool, id, event, event.(sortIndex := newSortIndex));
    assert r == target;
  }

  lemma UnchangedWhenGuarded(rev: Revision, pool: seq<PlannerEvent>, id: Id, build: ConfigBuilder)
    requires HasId(pool, id)
    requires Retimed(FindById(pool, id), ConfigDatestamp(rev, FindById(pool, id)), build).None?
    ensures TitleChanged(rev, pool, id, build) == pool
  {
  }

  lemma ChangedWhenRetimed(rev: Revision, pool: seq<PlannerEvent>, id: Id, build: ConfigBuilder, u: PlannerEvent)
    requires HasId(pool, id)
    requires Retimed(FindById(pool, id), ConfigDatestamp(rev, FindById(pool, id)), build) == Some(u)
    ensures u.id == id
    ensures TitleChanged(rev, pool, id, build) ==
      Replace(Replace(pool, id, u), id, u.(sortIndex := Reconcile.ReconciledKey(u, Unchecked(rev, Replace(pool, id, u)))))
  {
  }

  /**
   * When the title holds a time, the event ends up timed, with every
   * other record untouched; when a guard returns early, nothing changes.
   */
  lemma TitleChangeWritesOneEvent(rev: Revision, pool: seq<PlannerEvent>, id: Id, build: ConfigBuilder, i: nat)
    requires HasId(pool, id) && i < |pool|
    ensures var e := FindById(pool, id);
      var r := TitleChanged(rev, pool, id, build);
      (Retimed(e, ConfigDatestamp(rev, e), build).None? ==> r == pool) &&
      (pool[i].id != id ==> r[i] == pool[i]) &&
      (Retimed(e, ConfigDatestamp(rev, e), build).Some? && pool[i].id == id ==>
        r[i].title == Retimed(e, ConfigDatestamp(rev, e), build).value.title && TimeOf(r[i]).Some?)
  {
    var e := FindById(pool, id);
    if Retimed(e, ConfigDatestamp(rev, e), build).Some? {
      var u := Retimed(e, ConfigDatestamp(rev, e), build).value;
      RetimedEventHasTime(e, ConfigDatestamp(rev, e), build);
      var k := Reconcile.ReconciledKey(u, Unchecked(rev, Replace(pool, id, u)));
      TimeIgnoresOtherFields(u, u.title, u.isChecked, k, u.details.datestamp);
    }
  }

  // ---------------------------------------------------------------------
  // The view
  // ---------------------------------------------------------------------

  /** A new event: untitled, unchecked, with its key, linked to its planner. */
  function NewEvent(id: Id, sortIndex: real, planner: string): (e: PlannerEvent)
    ensures !e.isChecked && e.title == "" && TimeOf(e).None?
  {
    ListItem(id, "", false, sortIndex, EventDetails("", Some(planner), None, None))
  }

  /** The guard of the "Add" button: the last unchecked event has an empty title. */
  predicate LastUntitled(unchecked: seq<PlannerEvent>) {
    unchecked != [] && unchecked[|unchecked| - 1].title == ""
  }

  /**
   * The state of `PlannerView` in PlannerDay.swift: the day's datestamp
   * and its planner record, when there is one.
   */
  class PlannerDayView {
    const datestamp: string
    var planner: Option<PlannerRecord>

    /** Ids are object identities: no two records share one. */
    ghost predicate Valid()
      reads this
    {
      planner.Some? ==> UniqueIds(planner.value.events)
    }

    constructor(datestamp: string, planner: Option<PlannerRecord>)
      requires planner.Some? ==> UniqueIds(planner.value.events)
      ensures Valid() && this.datestamp == datestamp && this.planner == planner
    {
      this.datestamp := datestamp;
      this.planner := planner;
    }

    /**
     * `handleCreateEvent(at:)`: nothing without a planner; otherwise a new
     * event with the gap key at `index` among the unchecked events is
     * added to the planner.
     */
    method HandleCreateEvent(index: int, newId: Id)
      requires Valid()
      requires planner.Some? ==> SortIndex.Placeable(index, Keys(UncheckedEvents(planner)))
      requires planner.Some? ==> !HasId(planner.value.events, newId)
      modifies this
      ensures Valid()
      ensures old(planner).None? ==> planner == old(planner)
      ensures old(planner).Some? ==>
        planner == Some(old(planner).value.(events := old(planner).value.events +
          [NewEvent(newId, SortIndex.GenerateSortIndex(index, Keys(old(UncheckedEvents(planner)))), old(planner).value.datestamp)]))
    {
      if planner.None? {
        return;
      }
      var p := planner.value;
      var sortIndex := SortIndex.GenerateSortIndex(index, Keys(UncheckedEvents(planner)));
      var newEvent := NewEvent(newId, sortIndex, p.datestamp);
      var events := p.events + [newEvent];
      assert UniqueIds(events) by {
        forall i, j | 0 <= i < j < |events| ensures events[i].id != events[j].id {
          if j == |p.events| {
            assert events[i] == p.events[i];
          } else {
            assert events[i] == p.events[i] && events[j] == p.events[j];
          }
        }
      }
      planner := Some(p.(events := events));
    }

    /** The "Add" button: nothing when the last unchecked event is untitled, else create at the end. */
    method Add(newId: Id)
      requires Valid()
      requires planner.Some? ==> !HasId(planner.value.events, newId)
      modifies this
      ensures Valid()
      ensures var u := old(UncheckedEvents(planner));
        (old(planner).None? || LastUntitled(u)) ==> planner == old(planner)
      ensures var u := old(UncheckedEvents(planner));
        old(planner).Some? && !LastUntitled(u) ==>
        planner == Some(old(planner).value.(events := old(planner).value.events +
          [NewEvent(newId, SortIndex.GenerateSortIndex(|u|, Keys(u)), old(planner).value.datestamp)]))
    {
      var uncheckedEvents := UncheckedEvents(planner);
      if LastUntitled(uncheckedEvents) {
        return;
      }
      assert SortIndex.Placeable(|uncheckedEvents|, Keys(UncheckedEvents(planner)));
      HandleCreateEvent(|uncheckedEvents|, newId);
    }

    /** `handleMoveUncheckedEvent(from:to:)` on the planner's events. */
    method HandleMoveUncheckedEvent(from: int, to: int)
      requires Valid()
      requires planner.None? ==> from == to
      requires planner.Some? ==> MovePossible(ByPlanner, planner.value.events, from, to)
      modifies this
      ensures Valid()
      ensures old(planner).None? ==> planner == old(planner)
      ensures old(planner).Some? ==>
        planner == Some(old(planner).value.(events := MovedEvents(ByPlanner, old(planner).value.events, from, to)))
    {
      if planner.None? {
        return;
      }
      var p := planner.value;
      var events := MoveUncheckedEvent(ByPlanner, p.events, from, to);
      KeysKeepIds(p.events, events);
      planner := Some(p.(events := events));
    }

    /** `handleEventTitleChange(event:)` for one of the planner's events. */
    method HandleEventTitleChange(id: Id, build: ConfigBuilder)
      requires Valid() && planner.Some? && HasId(planner.value.events, id)
      modifies this
      ensures Valid()
      ensures planner == Some(old(planner).value.(events := TitleChanged(ByPlanner, old(planner).value.events, id, build)))
    {
      var p := planner.value;
      var events := EventTitleChange(ByPlanner, p.events, id, build);
      KeysKeepIds(p.events, events);
      planner := Some(p.(events := events));
    }
  }

  /** Two lists whose records carry the same ids, position by position, repeat ids alike. */
  lemma KeysKeepIds(before: seq<PlannerEvent>, after: seq<PlannerEvent>)
    requires |before| == |after|
    requires forall i :: 0 <= i < |before| ==> after[i].id == before[i].id
    ensures UniqueIds(before) ==> UniqueIds(after)
  {
  }
}
