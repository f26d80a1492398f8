/**
 * The EventKit-backed store of calendars and all-day events
 * (Planner/globalState/CalendarEventStore.swift). EventKit itself is
 * outside the model: the calendars and the events a fetch returns, the
 * authorization status and the answer to an access request are passed in.
 *
 * Instants are a calendar day plus the second of that day, in the
 * device's time zone; `startOfDay` is the day itself.
 */
module CalendarEventStore {
  import opened CivilDate

  datatype Instant = Instant(date: Date, second: int)

  /** An `EKEvent` as far as the store reads it. */
  datatype CalendarEvent = CalendarEvent(eventId: string, start: Instant, end: Instant, isAllDay: bool)

  /** An `EKCalendar` as far as the store reads it. */
  datatype Calendar = Calendar(calendarIdentifier: string, title: string)

  /** `EKAuthorizationStatus`; `FullAccess` is the value `.authorized` names. */
  datatype AuthorizationStatus = NotDetermined | Restricted | Denied | FullAccess | WriteOnly

  predicate ValidInstant(i: Instant) {
    Stampable(i.date) && 0 <= i.second < 86400
  }

  predicate ValidEvent(e: CalendarEvent) {
    ValidInstant(e.start) && ValidInstant(e.end)
  }

  /**
   * The day number of `startOfDay(end - 1 second)`: the end's own day,
   * or the day before when the event ends exactly at midnight.
   */
  function LastDay(e: CalendarEvent): int
    requires ValidEvent(e)
  {
    DayNumber(e.end.date) - (if e.end.second == 0 then 1 else 0)
  }

  /** How many days the expansion lists. */
  function DayCount(e: CalendarEvent): nat
    requires ValidEvent(e)
  {
    var n := LastDay(e) - DayNumber(e.start.date) + 1;
    if n > 0 then n else 0
  }

  lemma LastRunDayStampable(e: CalendarEvent)
    requires ValidEvent(e)
    ensures DayCount(e) > 0 ==> Stampable(AddDays(e.start.date, DayCount(e) - 1))
  {
    if DayCount(e) > 0 {
      YearMonotone(AddDays(e.start.date, DayCount(e) - 1), e.end.date);
    }
  }

  /** What `expandedDatestamps(for:)` returns. */
  function Expanded(e: CalendarEvent): (r: seq<string>)
    requires ValidEvent(e)
    ensures |r| == DayCount(e)
  {
    LastRunDayStampable(e);
    DatestampRun(e.start.date, DayCount(e))
  }

  /**
   * `expandedDatestamps(for:)`: from the start's day, one datestamp per
   * day while the day is not after the day of `end - 1s`.
   */
  method ExpandedDatestamps(e: CalendarEvent) returns (results: seq<string>)
    requires ValidEvent(e)
    ensures results == Expanded(e)
  {
    results := [];
    var current := e.start.date;
    var end := LastDay(e);
    ghost var k: nat := 0;
    LastRunDayStampable(e);
    while DayNumber(current) <= end
      invariant Valid(current) && current == AddDays(e.start.date, k)
      invariant DayNumber(current) == DayNumber(e.start.date) + k
      invariant k <= DayCount(e)
      invariant k < DayCount(e) <==> DayNumber(current) <= end
      invariant k > 0 ==> Stampable(AddDays(e.start.date, k - 1))
      invariant results == DatestampRun(e.start.date, k)
      decreases end - DayNumber(current)
    {
      RunStep(e, k);
      results := results + [Datestamp(current)];
      current := NextDay(current);
      k := k + 1;
    }
  }

  /** One more day of the run, while the day is not after the last one. */
  lemma RunStep(e: CalendarEvent, k: nat)
    requires ValidEvent(e) && k < DayCount(e)
    ensures Stampable(AddDays(e.start.date, k))
    ensures DatestampRun(e.start.date, k + 1) == DatestampRun(e.start.date, k) + [Datestamp(AddDays(e.start.date, k))]
    ensures AddDays(e.start.date, k + 1) == NextDay(AddDays(e.start.date, k))
  {
    YearMonotone(AddDays(e.start.date, k), e.end.date);
    DatestampRunSnoc(e.start.date, k);
  }

  /** The `i`th datestamp of the expansion is that of the `i`th day after the start's. */
  lemma ExpandedAt(e: CalendarEvent, i: nat)
    requires ValidEvent(e) && i < DayCount(e)
    ensures Stampable(AddDays(e.start.date, i)) && Expanded(e)[i] == Datestamp(AddDays(e.start.date, i))
  {
    LastRunDayStampable(e);
    DatestampRunAt(e.start.date, DayCount(e), i);
  }

  /** The expansion is ascending in string order, so no datestamp repeats. */
  lemma ExpandedAscending(e: CalendarEvent, i: nat, j: nat)
    requires ValidEvent(e) && i < j < |Expanded(e)|
    ensures StringExt.IsEarlierOrEqual(Expanded(e)[i], Expanded(e)[j]) && Expanded(e)[i] != Expanded(e)[j]
  {
    ExpandedAt(e, i);
    ExpandedAt(e, j);
    DatestampStrictOrder(AddDays(e.start.date, i), AddDays(e.start.date, j));
  }

  /**
   * A day is listed exactly when it lies between the start's day and the
   * day of `end - 1s`, both included.
   */
  lemma ExpandedCovers(e: CalendarEvent, d: Date)
    requires ValidEvent(e) && Stampable(d)
    ensures Datestamp(d) in Expanded(e) <==> DayNumber(e.start.date) <= DayNumber(d) <= LastDay(e)
  {
    if DayNumber(e.start.date) <= DayNumber(d) <= LastDay(e) {
      DayInRangeListed(e, d);
    }
    if Datestamp(d) in Expanded(e) {
      var i :| 0 <= i < |Expanded(e)| && Expanded(e)[i] == Datestamp(d);
      ListedDayInRange(e, d, i);
    }
  }

  lemma DayInRangeListed(e: CalendarEvent, d: Date)
    requires ValidEvent(e) && Stampable(d)
    requires DayNumber(e.start.date) <= DayNumber(d) <= LastDay(e)
    ensures Datestamp(d) in Expanded(e)
  {
    var i := DayNumber(d) - DayNumber(e.start.date);
    ExpandedAt(e, i);
    DayNumberOrder(AddDays(e.start.date, i), d);
    assert Expanded(e)[i] == Datestamp(d);
  }

  lemma ListedDayInRange(e: CalendarEvent, d: Date, i: nat)
    requires ValidEvent(e) && Stampable(d)
    requires i < |Expanded(e)| && Expanded(e)[i] == Datestamp(d)
    ensures DayNumber(e.start.date) <= DayNumber(d) <= LastDay(e)
  {
    ExpandedAt(e, i);
    DatestampInjective(AddDays(e.start.date, i), d);
  }

  /** An event that ends exactly at midnight does not cover the day that midnight begins. */
  lemma MidnightEndExcludesEndDay(e: CalendarEvent)
    requires ValidEvent(e) && e.end.second == 0
    ensures Datestamp(e.end.date) !in Expanded(e)
  {
    ExpandedCovers(e, e.end.date);
  }

  /** The expansion is empty exactly when the day of `end - 1s` is before the start's day. */
  lemma ExpandedEmpty(e: CalendarEvent)
    requires ValidEvent(e)
    ensures Expanded(e) == [] <==> LastDay(e) < DayNumber(e.start.date)
  {
  }

  // ---------------------------------------------------------------------
  // The all-day map
  // ---------------------------------------------------------------------

  predicate AllValid(events: seq<CalendarEvent>) {
    forall i :: 0 <= i < |events| ==> ValidEvent(events[i])
  }

  /** `.filter { $0.isAllDay }` */
  function AllDayOnly(events: seq<CalendarEvent>): (r: seq<CalendarEvent>)
    ensures AllValid(events) ==> AllValid(r)
    ensures forall i :: 0 <= i < |r| ==> r[i].isAllDay && r[i] in events
    ensures forall i :: 0 <= i < |events| && events[i].isAllDay ==> events[i] in r
    ensures |r| <= |events|
  {
    if events == [] then []
    else
      var rest := AllDayOnly(events[..|events| - 1]);
      var last := events[|events| - 1];
      if last.isAllDay then rest + [last] else rest
  }

  /** A single event is kept exactly when it is all-day. */
  lemma AllDayOnlySingle(e: CalendarEvent)
    ensures AllDayOnly([e]) == if e.isAllDay then [e] else []
  {
    assert [e][..0] == [];
  }

  /**
   * Filtering a concatenation filters each part and concatenates the
   * results. With `AllDayOnlySingle` this makes `AllDayOnly` the
   * order-keeping filter: every all-day event stays, as often and in the
   * order it was fetched.
   */
  lemma {:induction false} AllDayOnlyAppend(a: seq<CalendarEvent>, b: seq<CalendarEvent>)
    ensures AllDayOnly(a + b) == AllDayOnly(a) + AllDayOnly(b)
    decreases |b|
  {
    if b == [] {
      assert a + b == a;
    } else {
      var init := b[..|b| - 1];
      var last := b[|b| - 1];
      assert (a + b)[..|a + b| - 1] == a + init;
      assert (a + b)[|a + b| - 1] == last;
      AllDayOnlyAppend(a, init);
    }
  }

  /** The all-day events of `events` covering `s`, in fetch order. */
  function Covering(events: seq<CalendarEvent>, s: string): seq<CalendarEvent>
    requires AllValid(events)
  {
    if events == [] then []
    else
      var last := events[|events| - 1];
      Covering(events[..|events| - 1], s) + (if last.isAllDay && s in Expanded(last) then [last] else [])
  }

  /** `map[datestamp, default: []].append(event)` for each of `keys`, in order. */
  function AppendUnder(m: map<string, seq<CalendarEvent>>, keys: seq<string>, e: CalendarEvent): map<string, seq<CalendarEvent>>
  {
    if keys == [] then m
    else
      var m' := AppendUnder(m, keys[..|keys| - 1], e);
      var k := keys[|keys| - 1];
      m'[k := (if k in m' then m'[k] else []) + [e]]
  }

  /** The map the nested loops build over `events`. */
  function Grouped(events: seq<CalendarEvent>): map<string, seq<CalendarEvent>>
    requires AllValid(events)
  {
    if events == [] then map[]
    else
      var last := events[|events| - 1];
      AppendUnder(Grouped(events[..|events| - 1]), Expanded(last), last)
  }

  predicate Distinct(keys: seq<string>) {
    forall i, j :: 0 <= i < j < |keys| ==> keys[i] != keys[j]
  }

  /** Appending under distinct keys adds the event once under each. */
  lemma {:induction false} AppendUnderEffect(m: map<string, seq<CalendarEvent>>, keys: seq<string>, e: CalendarEvent, s: string)
    requires Distinct(keys)
    ensures s in AppendUnder(m, keys, e) <==> s in m || s in keys
    ensures s in AppendUnder(m, keys, e) ==>
      AppendUnder(m, keys, e)[s] == (if s in m then m[s] else []) + (if s in keys then [e] else [])
  {
    if keys != [] {
      var init, k := keys[..|keys| - 1], keys[|keys| - 1];
      assert Distinct(init);
      AppendUnderEffect(m, init, e, s);
      var m' := AppendUnder(m, init, e);
      assert AppendUnder(m, keys, e) == m'[k := (if k in m' then m'[k] else []) + [e]];
      assert keys == init + [k];
      assert s in keys <==> s in init || s == k;
      if s == k {
        assert s !in init;
      }
    }
  }

  lemma ExpandedDistinct(e: CalendarEvent)
    requires ValidEvent(e)
    ensures Distinct(Expanded(e))
  {
    forall i, j | 0 <= i < j < |Expanded(e)| ensures Expanded(e)[i] != Expanded(e)[j] {
      ExpandedAscending(e, i, j);
    }
  }

  /**
   * The map holds a datestamp exactly when some all-day event covers it,
   * and under it every such event, once each, in fetch order.
   */
  lemma {:induction false} GroupedIsCovering(events: seq<CalendarEvent>, s: string)
    requires AllValid(events)
    ensures s in Grouped(AllDayOnly(events)) <==> Covering(events, s) != []
    ensures s in Grouped(AllDayOnly(events)) ==> Grouped(AllDayOnly(events))[s] == Covering(events, s)
  {
    if events != [] {
      var init, last := events[..|events| - 1], events[|events| - 1];
      GroupedIsCovering(init, s);
      if last.isAllDay {
        var r := AllDayOnly(events);
        assert r[..|r| - 1] == AllDayOnly(init);
        ExpandedDistinct(last);
        AppendUnderEffect(Grouped(AllDayOnly(init)), Expanded(last), last, s);
      }
    }
  }

  /** `Dictionary(uniqueKeysWithValues: calendars.map { ($0.calendarIdentifier, $0) })` */
  function CalendarsById(calendars: seq<Calendar>): (r: map<string, Calendar>)
    requires forall i, j :: 0 <= i < j < |calendars| ==> calendars[i].calendarIdentifier != calendars[j].calendarIdentifier
    ensures forall c :: c in calendars ==> c.calendarIdentifier in r && r[c.calendarIdentifier] == c
    ensures forall k :: k in r ==> r[k] in calendars && r[k].calendarIdentifier == k
  {
    if calendars == [] then map[]
    else
      var init := calendars[..|calendars| - 1];
      var c := calendars[|calendars| - 1];
      assert forall x :: x in calendars ==> x in init || x == c;
      CalendarsById(init)[c.calendarIdentifier := c]
  }

  /** The nested loops of `loadAllDayEvents`: each event, in order, filed under each of its days. */
  method GroupByDatestamp(events: seq<CalendarEvent>) returns (m: map<string, seq<CalendarEvent>>)
    requires AllValid(events)
    ensures m == Grouped(events)
  {
    m := map[];
    for n := 0 to |events|
      invariant m == Grouped(events[..n])
    {
      var event := events[n];
      var stamps := ExpandedDatestamps(event);
      m := FileUnder(m, stamps, event);
      assert events[..n + 1][..n] == events[..n];
    }
    assert events[..|events|] == events;
  }

  /** The inner loop: `event` appended to the list under each datestamp of `stamps`, in order. */
  method FileUnder(m0: map<string, seq<CalendarEvent>>, stamps: seq<string>, event: CalendarEvent)
    returns (m: map<string, seq<CalendarEvent>>)
    ensures m == AppendUnder(m0, stamps, event)
  {
    m := m0;
    for i := 0 to |stamps|
      invariant m == AppendUnder(m0, stamps[..i], event)
    {
      assert stamps[..i + 1][..i] == stamps[..i];
      var datestamp := stamps[i];
      m := m[datestamp := (if datestamp in m then m[datestamp] else []) + [event]];
    }
    assert stamps[..|stamps|] == stamps;
  }

  class Store {
    var hasLoaded: bool
    var calendarsById: map<string, Calendar>
    var allDayEventsByDatestamp: map<string, seq<CalendarEvent>>
    /** `requestFullAccessToEvents` has been called. */
    var accessRequested: bool

    constructor()
      ensures !hasLoaded && calendarsById == map[] && allDayEventsByDatestamp == map[] && !accessRequested
    {
      hasLoaded := false;
      calendarsById := map[];
      allDayEventsByDatestamp := map[];
      accessRequested := false;
    }

    /** `loadAllDayEvents`: keep the all-day events, then file each under each of its days. */
    method LoadAllDayEvents(fetched: seq<CalendarEvent>)
      requires AllValid(fetched)
      modifies this
      ensures allDayEventsByDatestamp == Grouped(AllDayOnly(fetched))
      ensures hasLoaded == old(hasLoaded) && calendarsById == old(calendarsById) && accessRequested == old(accessRequested)
    {
      var events := AllDayOnly(fetched);
      allDayEventsByDatestamp := GroupByDatestamp(events);
    }

    /** `load`: marks the store loaded and replaces both maps. */
    method Load(calendars: seq<Calendar>, fetched: seq<CalendarEvent>)
      requires forall i, j :: 0 <= i < j < |calendars| ==> calendars[i].calendarIdentifier != calendars[j].calendarIdentifier
      requires AllValid(fetched)
      modifies this
      ensures hasLoaded && accessRequested == old(accessRequested)
      ensures calendarsById == CalendarsById(calendars)
      ensures allDayEventsByDatestamp == Grouped(AllDayOnly(fetched))
    {
      hasLoaded := true;
      calendarsById := CalendarsById(calendars);
      LoadAllDayEvents(fetched);
    }

    /**
     * `requestAccessAndLoadIfNeeded`: nothing once loaded; otherwise full
     * access loads, an undetermined status asks for access, and any other
     * status does nothing.
     */
    method RequestAccessAndLoadIfNeeded(status: AuthorizationStatus, calendars: seq<Calendar>, fetched: seq<CalendarEvent>)
      requires forall i, j :: 0 <= i < j < |calendars| ==> calendars[i].calendarIdentifier != calendars[j].calendarIdentifier
      requires AllValid(fetched)
      modifies this
      ensures old(hasLoaded) ==> unchanged(this)
      ensures !old(hasLoaded) && status == FullAccess ==>
        hasLoaded && calendarsById == CalendarsById(calendars) &&
        allDayEventsByDatestamp == Grouped(AllDayOnly(fetched)) && accessRequested == old(accessRequested)
      ensures !old(hasLoaded) && status == NotDetermined ==>
        accessRequested && hasLoaded == old(hasLoaded) && calendarsById == old(calendarsById) &&
        allDayEventsByDatestamp == old(allDayEventsByDatestamp)
      ensures !old(hasLoaded) && status != FullAccess && status != NotDetermined ==> unchanged(this)
    {
      if hasLoaded {
        return;
      }
      match status
      case FullAccess =>
        Load(calendars, fetched);
      case NotDetermined =>
        accessRequested := true;
      case _ =>
    }

    /** The completion handler of the access request: loads only when access was granted. */
    method AccessAnswered(granted: bool, calendars: seq<Calendar>, fetched: seq<CalendarEvent>)
      requires forall i, j :: 0 <= i < j < |calendars| ==> calendars[i].calendarIdentifier != calendars[j].calendarIdentifier
      requires AllValid(fetched)
      modifies this
      ensures !granted ==> unchanged(this)
      ensures granted ==> hasLoaded && calendarsById == CalendarsById(calendars)
      ensures granted ==> allDayEventsByDatestamp == Grouped(AllDayOnly(fetched))
    {
      if granted {
        Load(calendars, fetched);
      }
    }

    /** `refresh`: loads whether or not the store has loaded before. */
    method Refresh(calendars: seq<Calendar>, fetched: seq<CalendarEvent>)
      requires forall i, j :: 0 <= i < j < |calendars| ==> calendars[i].calendarIdentifier != calendars[j].calendarIdentifier
      requires AllValid(fetched)
      modifies this
      ensures hasLoaded && calendarsById == CalendarsById(calendars)
      ensures allDayEventsByDatestamp == Grouped(AllDayOnly(fetched))
    {
      Load(calendars, fetched);
    }
  }
}
