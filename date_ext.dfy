/**
 * The display rules of the `Date` extension (Planner/Extensions/Date.swift):
 * the 12-hour time shown on a timed event, the day-countdown label, and
 * which of the weekday and the written-out date heads a planner.
 *
 * The clock, the region and SwiftDate's day difference are inputs: the
 * hour and minute of the date, the day difference the library reports,
 * and whether the target lies in the current year.
 */
module DateExt {
  import opened Wrappers
  import Text
  import StringExt

  // ---------------------------------------------------------------------
  // timeValues
  // ---------------------------------------------------------------------

  /** `drop(while: { $0 == "0" })` */
  function DropLeadingZeros(s: string): (r: string)
    ensures r == [] || r[0] != '0'
    ensures |r| <= |s| && r == s[|s| - |r|..]
    ensures forall i :: 0 <= i < |s| - |r| ==> s[i] == '0'
  {
    if s != [] && s[0] == '0' then DropLeadingZeros(s[1..]) else s
  }

  /** The hour on a 12-hour clock: 0 and 12 both read 12. */
  function Hour12(hour: int): (h: int)
    requires 0 <= hour < 24
    ensures 1 <= h <= 12 && h % 12 == hour % 12
  {
    if hour % 12 == 0 then 12 else hour % 12
  }

  /**
   * `timeValues`: `"%02d:%02d"` of the 12-hour hour and the minute, with
   * leading zeros dropped, and `"AM"` before noon, `"PM"` from noon on.
   */
  function TimeValues(hour: int, minute: int): (r: (string, string))
    requires 0 <= hour < 24 && 0 <= minute < 60
    ensures r.1 == "AM" <==> hour < 12
    ensures r.1 == "AM" || r.1 == "PM"
  {
    var timeValue := Text.Pad2(Hour12(hour)) + ":" + Text.Pad2(minute);
    (DropLeadingZeros(timeValue), if hour < 12 then "AM" else "PM")
  }

  /**
   * The time shown is the 12-hour hour without padding, a colon and the
   * minute as two digits: at most the one leading zero of the hour goes.
   */
  lemma TimeValueShape(hour: int, minute: int)
    requires 0 <= hour < 24 && 0 <= minute < 60
    ensures TimeValues(hour, minute).0 == Text.NatToString(Hour12(hour)) + ":" + Text.Pad2(minute)
  {
    var h := Hour12(hour);
    var tail := ":" + Text.Pad2(minute);
    var padded := Text.Pad2(h) + tail;
    assert Text.Pad2(h) + ":" + Text.Pad2(minute) == padded;
    Text.DigitRoundTrip(h / 10);
    Text.DigitRoundTrip(h % 10);
    if h < 10 {
      assert padded[0] == '0' && padded[1..] == [Text.DigitChar(h)] + tail;
      assert Text.DigitChar(h) != '0';
      assert DropLeadingZeros(padded[1..]) == padded[1..];
    } else {
      assert padded[0] == '1';
      assert DropLeadingZeros(padded) == padded;
      assert Text.NatToString(h) == [Text.DigitChar(1), Text.DigitChar(h % 10)];
    }
  }

  /**
   * Reading the shown time back through the `h:mm a` to `HH:mm`
   * conversion gives the hour and minute it was made from.
   */
  lemma TimeValuesRoundTrip(hour: int, minute: int, tv: string, indicator: string)
    requires 0 <= hour < 24 && 0 <= minute < 60
    requires (tv, indicator) == TimeValues(hour, minute)
    ensures |tv| >= 4 && tv[|tv| - 3] == ':'
    ensures Text.AllDigits(tv[..|tv| - 3]) && Text.AllDigits(tv[|tv| - 2..])
    ensures 1 <= Text.DigitsValue(tv[..|tv| - 3]) <= 12
    ensures StringExt.To24Hour(Text.DigitsValue(tv[..|tv| - 3]), indicator) == hour
    ensures Text.DigitsValue(tv[|tv| - 2..]) == minute
  {
    TimeValueShape(hour, minute);
    ClockParts(Text.NatToString(Hour12(hour)), Text.Pad2(minute), tv);
    Text.NatToStringValue(Hour12(hour));
    Text.Pad2Value(minute);
  }

  /** The parts of `h:mm` around the colon. */
  lemma ClockParts(h: string, m: string, tv: string)
    requires tv == h + ":" + m && |m| == 2
    ensures |tv| >= 3 && tv[..|tv| - 3] == h && tv[|tv| - 3] == ':' && tv[|tv| - 2..] == m
  {
  }

  /** Nine past five in the morning shows as `9:05 AM`. */
  lemma MorningExample(hour: int, minute: int, shown: string, indicator: string)
    requires hour == 9 && minute == 5 && shown == "9:05" && indicator == "AM"
    ensures TimeValues(hour, minute).0 == shown
    ensures TimeValues(hour, minute).1 == indicator
  {
    TimeValueShape(hour, minute);
    var t := TimeValues(hour, minute).0;
    assert Text.DigitChar(9) == '9' && Text.DigitChar(0) == '0' && Text.DigitChar(5) == '5';
    assert Text.NatToString(9) == ['9'];
    assert Text.Pad2(5) == ['0', '5'];
    assert t == ['9', ':', '0', '5'];
  }

  /** Half past eleven at night shows as `11:30 PM`. */
  lemma EveningExample(hour: int, minute: int, shown: string, indicator: string)
    requires hour == 23 && minute == 30 && shown == "11:30" && indicator == "PM"
    ensures TimeValues(hour, minute).0 == shown
    ensures TimeValues(hour, minute).1 == indicator
  {
    TimeValueShape(hour, minute);
    var t := TimeValues(hour, minute).0;
    assert Text.DigitChar(1) == '1' && Text.DigitChar(3) == '3' && Text.DigitChar(0) == '0';
    assert Text.NatToString(11) == ['1', '1'] by { assert Text.NatToString(1) == ['1']; }
    assert Text.Pad2(30) == ['3', '0'];
    assert t == ['1', '1', ':', '3', '0'];
  }

  // ---------------------------------------------------------------------
  // daysUntil
  // ---------------------------------------------------------------------

  /**
   * `daysUntil`, given the day difference the library reports (none when
   * it cannot tell) and whether today is before the target day.
   */
  function DaysUntil(diff: Option<int>, todayBeforeTarget: bool): (r: string)
    ensures r == "" <==> diff.None?
    ensures r == "Today" <==> diff == Some(0)
  {
    match diff
    case None => ""
    case Some(d) =>
      if d == 0 then "Today"
      else if todayBeforeTarget then (if d == 1 then "Tomorrow" else Text.IntToString(d) + " days away")
      else if d == 1 then "Yesterday"
      else Text.IntToString(d) + " days ago"
  }

  /**
   * With the difference reported as the number of days between today and
   * the target, the label names the distance and the direction: the next
   * and the previous day by name, others by count.
   */
  lemma DaysUntilLabels(today: int, target: int)
    ensures var distance := if target >= today then target - today else today - target;
      var shown := DaysUntil(Some(distance), today < target);
      (target == today ==> shown == "Today") &&
      (target == today + 1 ==> shown == "Tomorrow") &&
      (target == today - 1 ==> shown == "Yesterday") &&
      (target > today + 1 ==> shown == Text.NatToString(target - today) + " days away") &&
      (target < today - 1 ==> shown == Text.NatToString(today - target) + " days ago")
  {
  }

  /** Different distances in the same direction get different labels. */
  lemma DaysUntilDistinguishesDistances(d: int, e: int, todayBeforeTarget: bool)
    requires d > 0 && e > 0 && d != e
    ensures DaysUntil(Some(d), todayBeforeTarget) != DaysUntil(Some(e), todayBeforeTarget)
  {
    var suffix := if todayBeforeTarget then " days away" else " days ago";
    if d != 1 && e != 1 {
      var a, b := Text.IntToString(d) + suffix, Text.IntToString(e) + suffix;
      assert a[..|a| - |suffix|] == Text.IntToString(d);
      assert b[..|b| - |suffix|] == Text.IntToString(e);
      if a == b {
        Text.IntToStringInjective(d, e);
      }
    } else if d == 1 {
      var b := Text.IntToString(e) + suffix;
      assert b[0] != 'T' && b[0] != 'Y';
    } else {
      var a := Text.IntToString(d) + suffix;
      assert a[0] != 'T' && a[0] != 'Y';
    }
  }

  // ---------------------------------------------------------------------
  // header / subHeader
  // ---------------------------------------------------------------------

  /** The three formats the headers use: `"EEEE"`, `"MMMM d"`, `"MMMM d, yyyy"`. */
  datatype DateFormat = Weekday | MonthDay | MonthDayYear

  predicate InWeekAhead(daysFromToday: Option<int>) {
    0 <= daysFromToday.GetOr(0) <= 6
  }

  /** The written-out date, with the year only outside the current year. */
  function LongDate(sameYear: bool): (f: DateFormat)
    ensures f != Weekday && (f == MonthDayYear <==> !sameYear)
  {
    if sameYear then MonthDay else MonthDayYear
  }

  /** `header`: the weekday within the coming week (a missing difference counts as 0), the date otherwise. */
  function Header(daysFromToday: Option<int>, sameYear: bool): (f: DateFormat)
    ensures f == Weekday <==> InWeekAhead(daysFromToday)
    ensures f == MonthDayYear <==> !InWeekAhead(daysFromToday) && !sameYear
  {
    var d := daysFromToday.GetOr(0);
    if d >= 0 && d <= 6 then Weekday
    else if sameYear then MonthDay
    else MonthDayYear
  }

  /** `subHeader`: the date within the coming week, the weekday otherwise. */
  function SubHeader(daysFromToday: Option<int>, sameYear: bool): (f: DateFormat)
    ensures f == Weekday <==> !InWeekAhead(daysFromToday)
    ensures f == MonthDayYear <==> InWeekAhead(daysFromToday) && !sameYear
  {
    var d := daysFromToday.GetOr(0);
    if d >= 0 && d <= 6 then LongDate(sameYear) else Weekday
  }

  /**
   * The two lines are complementary: exactly one shows the weekday, and
   * the other shows the date, with the year only outside the current year.
   */
  lemma HeadersComplementary(daysFromToday: Option<int>, sameYear: bool)
    ensures (Header(daysFromToday, sameYear) == Weekday) != (SubHeader(daysFromToday, sameYear) == Weekday)
    ensures Header(daysFromToday, sameYear) == Weekday ==> SubHeader(daysFromToday, sameYear) == LongDate(sameYear)
    ensures SubHeader(daysFromToday, sameYear) == Weekday ==> Header(daysFromToday, sameYear) == LongDate(sameYear)
  {
  }
}
