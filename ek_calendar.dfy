/**
 * The icon of a calendar (Planner/Extensions/EKCalendar.swift): chosen by
 * words in the calendar's title, compared without regard to case.
 */
module CalendarIcon {
  import Text

  const BirthdayIcon: string := "birthday.cake.fill"
  const HolidayIcon: string := "globe.americas.fill"
  const DefaultIcon: string := "calendar"

  /** `EKCalendar.iconName` for a calendar titled `title`. */
  function IconName(title: string): (r: string)
    ensures r == BirthdayIcon <==> Text.Contains(Text.Lowercased(title), "birthday")
    ensures r == HolidayIcon <==>
      !Text.Contains(Text.Lowercased(title), "birthday") && Text.Contains(Text.Lowercased(title), "holiday")
    ensures r == DefaultIcon <==>
      !Text.Contains(Text.Lowercased(title), "birthday") && !Text.Contains(Text.Lowercased(title), "holiday")
  {
    var lower := Text.Lowercased(title);
    if Text.Contains(lower, "birthday") then BirthdayIcon
    else if Text.Contains(lower, "holiday") then HolidayIcon
    else DefaultIcon
  }

  /** Upper-casing a letter and lower-casing it again is lower-casing it. */
  lemma LowerOfUpper(s: string)
    ensures Text.Lowercased(Text.Uppercased(s)) == Text.Lowercased(s)
  {
    var a, b := Text.Lowercased(Text.Uppercased(s)), Text.Lowercased(s);
    forall i | 0 <= i < |s| ensures a[i] == b[i] {
      var c := s[i];
      if 'a' <= c <= 'z' {
        assert Text.ToUpperChar(c) == (c as int - 32) as char;
      }
    }
  }

  /** Titles that differ only in case get the same icon: "US Holidays" and "us holidays" alike. */
  lemma IconIgnoresCase(title: string)
    ensures IconName(Text.Uppercased(title)) == IconName(title)
    ensures IconName(Text.Lowercased(title)) == IconName(title)
  {
    LowerOfUpper(title);
    LowerIsIdempotent(title);
  }

  lemma LowerIsIdempotent(s: string)
    ensures Text.Lowercased(Text.Lowercased(s)) == Text.Lowercased(s)
  {
    var a, b := Text.Lowercased(Text.Lowercased(s)), Text.Lowercased(s);
    assert forall i :: 0 <= i < |s| ==> a[i] == b[i];
  }
}
