/**
 * The planner picker (Planner/tabs/Planner/PlannerSelect.swift): the
 * identity of the full-screen cover it opens, the upcoming datestamps
 * grouped by year, and the datestamps of the week starting today.
 *
 * The key sets of the two event maps and today's datestamp are inputs.
 * Parsing `yyyy-MM-dd` is `CivilDate.ParseDatestamp`, and dates compare
 * chronologically.
 */
module PlannerSelect {
  import opened Wrappers
  import Text
  import StringExt
  import opened CivilDate

  /** `PlannerCoverConfig` */
  datatype PlannerCoverConfig = CalendarCover(payload: string) | Card(payload: string) | CardVertical(payload: string)

  /** `PlannerCoverConfig.id` */
  function CoverId(c: PlannerCoverConfig): (r: string)
    ensures c.CalendarCover? ==> r == "CALENDAR"
    ensures !c.CalendarCover? ==> |r| > |c.payload| && r[..|c.payload|] == c.payload
  {
    match c
    case CalendarCover(_) => "CALENDAR"
    case Card(d) => d + "_PlannerCard"
    case CardVertical(d) => d + "_PlannerCardVertical"
  }

  /** `PlannerCoverConfig.datestamp`: the payload, whatever the case. */
  function CoverDatestamp(c: PlannerCoverConfig): (r: string)
    ensures r == c.payload
  {
    match c
    case CalendarCover(d) => d
    case Card(d) => d
    case CardVertical(d) => d
  }

  /**
   * Card covers are told apart by their ids: two card covers share an id
   * only when they are the same cover. Every calendar cover has the one
   * id `"CALENDAR"`, which no card cover has.
   */
  lemma CoverIdsIdentifyCards(a: PlannerCoverConfig, b: PlannerCoverConfig)
    requires !a.CalendarCover?
    ensures b.CalendarCover? ==> CoverId(a) != CoverId(b)
    ensures !b.CalendarCover? && CoverId(a) == CoverId(b) ==> a == b
  {
    var x, y := CoverId(a), CoverId(b);
    if a.Card? && b.CardVertical? {
      SuffixesDiffer(a.payload, b.payload);
    } else if a.CardVertical? && b.Card? {
      SuffixesDiffer(b.payload, a.payload);
    } else if !b.CalendarCover? && x == y {
      var suffix := if a.Card? then "_PlannerCard" else "_PlannerCardVertical";
      assert x[..|x| - |suffix|] == a.payload && y[..|y| - |suffix|] == b.payload;
    }
  }

  lemma SuffixesDiffer(d: string, e: string)
    ensures d + "_PlannerCard" != e + "_PlannerCardVertical"
  {
    var x, y := d + "_PlannerCard", e + "_PlannerCardVertical";
    assert x[|x| - 1] == 'd' && y[|y| - 1] == 'l';
  }

  // ---------------------------------------------------------------------
  // eventsByYear
  // ---------------------------------------------------------------------

  /** `date.dateByAdding(3, .year)`, the bound the code names `oneYearOut`. */
  function WindowEnd(today: Date): Date
    requires Valid(today)
  {
    AddYears(today, 3)
  }

  /**
   * The guard of the `compactMap`: the date of `d` when both `d` and today
   * parse and `d` is strictly after today and strictly before the window end.
   */
  function KeptDate(d: string, today: string): (r: Option<Date>)
    ensures r.Some? <==> (ParseDatestamp(d).Some? && ParseDatestamp(today).Some? &&
                          Before(ParseDatestamp(today).value, ParseDatestamp(d).value) &&
                          Before(ParseDatestamp(d).value, WindowEnd(ParseDatestamp(today).value)))
    ensures r.Some? ==> r == ParseDatestamp(d)
  {
    match (ParseDatestamp(d), ParseDatestamp(today))
    case (Some(date), Some(t)) =>
      if Before(t, date) && Before(date, WindowEnd(t)) then Some(date) else None
    case _ => None
  }

  /** `String(date.year)` */
  function YearKey(date: Date): string
    requires date.year >= 0
  {
    Text.NatToString(date.year)
  }

  /** The upcoming datestamps among `stamps` that fall in `year`. */
  function InYear(stamps: set<string>, today: string, year: string): set<string> {
    set d | d in stamps && KeptDate(d, today).Some? && YearKey(KeptDate(d, today).value) == year
  }

  /**
   * `eventsByYear`: over the union of the keys of the all-day and the
   * single-day event maps, every datestamp after today and before the
   * window end, under the string of its year, each year ascending.
   */
  function EventsByYear(allDayKeys: set<string>, singleDayKeys: set<string>, today: string): map<string, seq<string>>
  {
    var stamps := allDayKeys + singleDayKeys;
    var years := set d | d in stamps && KeptDate(d, today).Some? :: YearKey(KeptDate(d, today).value);
    map y | y in years :: StringExt.SortedFromSet(InYear(stamps, today, y))
  }

  /**
   * A datestamp is listed under a year exactly when it is a key of either
   * map, names a day strictly between today and three years on, and that
   * day is in the year.
   */
  lemma EventsByYearLists(allDayKeys: set<string>, singleDayKeys: set<string>, today: string, year: string, d: string)
    ensures (year in EventsByYear(allDayKeys, singleDayKeys, today) && d in EventsByYear(allDayKeys, singleDayKeys, today)[year]) <==>
      (d in allDayKeys || d in singleDayKeys) && KeptDate(d, today).Some? && YearKey(KeptDate(d, today).value) == year
  {
  }

  /** Every year's list is ascending and repeats nothing, and its order is the days' order. */
  lemma EventsByYearChronological(allDayKeys: set<string>, singleDayKeys: set<string>, today: string, year: string, i: nat, j: nat)
    requires year in EventsByYear(allDayKeys, singleDayKeys, today)
    requires i < j < |EventsByYear(allDayKeys, singleDayKeys, today)[year]|
    ensures var list := EventsByYear(allDayKeys, singleDayKeys, today)[year];
      StringExt.IsEarlierOrEqual(list[i], list[j]) && list[i] != list[j] &&
      ParseDatestamp(list[i]).Some? && ParseDatestamp(list[j]).Some? &&
      Before(ParseDatestamp(list[i]).value, ParseDatestamp(list[j]).value)
  {
    var list := EventsByYear(allDayKeys, singleDayKeys, today)[year];
    assert list[i] in list && list[j] in list;
    EventsByYearLists(allDayKeys, singleDayKeys, today, year, list[i]);
    EventsByYearLists(allDayKeys, singleDayKeys, today, year, list[j]);
    var a, b := ParseDatestamp(list[i]).value, ParseDatestamp(list[j]).value;
    ParseDatestampExact(list[i]);
    ParseDatestampExact(list[j]);
    DatestampOrder(b, a);
    if !Before(a, b) {
      DayNumberOrder(a, b);
      DayNumberOrder(b, a);
      StringExt.IsEarlierOrEqualAntisymmetric(list[i], list[j]);
    }
  }

  /**
   * The window is three years wide, not one: the day two years on, when
   * it has events, is listed.
   */
  lemma WindowSpansThreeYears(allDayKeys: set<string>, singleDayKeys: set<string>, t: Date)
    requires Stampable(t) && t.year + 2 <= 9999
    requires Datestamp(AddYears(t, 2)) in allDayKeys
    ensures var later := AddYears(t, 2);
      YearKey(later) in EventsByYear(allDayKeys, singleDayKeys, Datestamp(t)) &&
      Datestamp(later) in EventsByYear(allDayKeys, singleDayKeys, Datestamp(t))[YearKey(later)]
  {
    var later := AddYears(t, 2);
    ParseDatestampRoundTrip(t);
    ParseDatestampRoundTrip(later);
    EventsByYearLists(allDayKeys, singleDayKeys, Datestamp(t), YearKey(later), Datestamp(later));
  }

  /** `sortedYears`: the years of `eventsByYear`, ascending. */
  function SortedYears(allDayKeys: set<string>, singleDayKeys: set<string>, today: string): (r: seq<string>)
    ensures StringExt.StrictlyAscending(r)
    ensures forall y :: y in r <==> y in EventsByYear(allDayKeys, singleDayKeys, today)
  {
    StringExt.SortedFromSet(EventsByYear(allDayKeys, singleDayKeys, today).Keys)
  }

  // ---------------------------------------------------------------------
  // eventDatestamps
  // ---------------------------------------------------------------------

  /** The days `eventDatestamps` spans: `0..<7`. */
  const WeekLength: nat := 7

  /** `eventDatestamps`: the datestamps of today and the six days after it, sorted. */
  function EventDatestamps(today: Date): (r: seq<string>)
    requires Valid(today) && Stampable(AddDays(today, WeekLength - 1))
    ensures |r| == WeekLength
  {
    var run := DatestampRun(today, WeekLength);
    assert |multiset(run)| == WeekLength;
    StringExt.SortStrings(run)
  }

  /** The week is seven consecutive days from today, in calendar order: sorting moves nothing. */
  lemma WeekIsConsecutive(today: Date, i: nat)
    requires Valid(today) && Stampable(AddDays(today, WeekLength - 1)) && i < WeekLength
    ensures Stampable(AddDays(today, i)) && EventDatestamps(today)[i] == Datestamp(AddDays(today, i))
    ensures i + 1 < WeekLength ==> StringExt.IsEarlierOrEqual(EventDatestamps(today)[i], EventDatestamps(today)[i + 1])
  {
    var run := DatestampRun(today, WeekLength);
    forall a, b | 0 <= a < b < WeekLength ensures StringExt.IsEarlierOrEqual(run[a], run[b]) {
      DatestampRunAscending(today, WeekLength, a, b);
    }
    StringExt.SortAscendingIsIdentity(run);
    DatestampRunAt(today, WeekLength, i);
  }
}
