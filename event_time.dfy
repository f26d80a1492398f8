/**
 * Which timestamp a planner event is ordered by
 * (Planner/utils/planners/getPlannerEventTime.swift).
 */
module EventTime {
  import opened Wrappers
  import opened Items

  /** The event is the end record of a multi-day calendar event. */
  predicate IsEndRecord(e: PlannerEvent) {
    e.details.timeConfig.Some? &&
    e.details.timeConfig.value.calendarConfig.Some? &&
    e.details.timeConfig.value.calendarConfig.value.multiDayConfig.Some? &&
    e.details.timeConfig.value.calendarConfig.value.multiDayConfig.value.endEventId == e.id
  }

  /**
   * `getPlannerEventTime`: no time without an event or without a time
   * configuration; the end record of a multi-day event is ordered by the
   * calendar event's end, every other timed event by its start.
   */
  function GetPlannerEventTime(event: Option<PlannerEvent>): (r: Option<string>)
    ensures r.Some? <==> event.Some? && event.value.details.timeConfig.Some?
    ensures r.Some? && IsEndRecord(event.value) ==>
      r.value == event.value.details.timeConfig.value.calendarConfig.value.endIso
    ensures r.Some? && !IsEndRecord(event.value) ==>
      r.value == event.value.details.timeConfig.value.startIso
  {
    match event
    case None => None
    case Some(e) =>
      match e.details.timeConfig
      case None => None
      case Some(tc) =>
        if tc.calendarConfig.Some? && tc.calendarConfig.value.multiDayConfig.Some?
           && tc.calendarConfig.value.multiDayConfig.value.endEventId == e.id
        then Some(tc.calendarConfig.value.endIso)
        else Some(tc.startIso)
  }

  /** The time of a present event. */
  function TimeOf(e: PlannerEvent): Option<string> {
    GetPlannerEventTime(Some(e))
  }

  /**
   * Only the time configuration and the id decide the time: the title, the
   * check mark, the key and the day can change without moving the event in
   * time.
   */
  lemma TimeIgnoresOtherFields(e: PlannerEvent, title: string, checked: bool, key: real, datestamp: string)
    ensures TimeOf(e.(title := title, isChecked := checked, sortIndex := key,
                      details := e.details.(datestamp := datestamp))) == TimeOf(e)
  {
  }

  /**
   * The start record of a multi-day event (whose id is the start id, not the
   * end id) is ordered by its start.
   */
  lemma StartRecordUsesStart(e: PlannerEvent, tc: TimeConfig, cc: CalendarConfig, md: MultiDayConfig)
    requires e.details.timeConfig == Some(tc) && tc.calendarConfig == Some(cc)
    requires cc.multiDayConfig == Some(md) && md.endEventId != e.id
    ensures TimeOf(e) == Some(tc.startIso)
  {
  }
}
