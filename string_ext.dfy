/**
 * The `String` extension of Planner/Extensions/String.swift: the time-string
 * order, the calendar symbol of a datestamp, and the recogniser that pulls a
 * spoken time ("9 AM", "12:05 pm") out of an event title.
 */
module StringExt {
  import opened Wrappers
  import opened Text

  // ---------------------------------------------------------------------
  // isEarlierOrEqual: Swift `<=` on strings, character by character
  // ---------------------------------------------------------------------

  predicate IsEarlierOrEqual(a: string, b: string) {
    a == [] || (b != [] && (a[0] < b[0] || (a[0] == b[0] && IsEarlierOrEqual(a[1..], b[1..]))))
  }

  /** The textbook lexicographic order: a prefix, or smaller at the first difference. */
  ghost predicate LexLeRef(a: string, b: string) {
    (|a| <= |b| && a == b[..|a|]) ||
    exists k :: 0 <= k < |a| && k < |b| && a[..k] == b[..k] && a[k] < b[k]
  }

  lemma IsEarlierOrEqualIsLexicographic(a: string, b: string)
    ensures IsEarlierOrEqual(a, b) <==> LexLeRef(a, b)
  {
    if IsEarlierOrEqual(a, b) {
      EarlierIsLex(a, b);
    }
    if LexLeRef(a, b) {
      LexIsEarlier(a, b);
    }
  }

  lemma {:induction false} EarlierIsLex(a: string, b: string)
    requires IsEarlierOrEqual(a, b)
    ensures LexLeRef(a, b)
    decreases |a|
  {
    if a == [] {
      assert a == b[..0];
    } else if a[0] < b[0] {
      assert a[..0] == b[..0];
    } else {
      var a', b' := a[1..], b[1..];
      EarlierIsLex(a', b');
      if |a'| <= |b'| && a' == b'[..|a'|] {
        assert a == [a[0]] + a' && b[..|a|] == [b[0]] + b'[..|a'|];
      } else {
        var k :| 0 <= k < |a'| && k < |b'| && a'[..k] == b'[..k] && a'[k] < b'[k];
        assert a[..k + 1] == [a[0]] + a'[..k] && b[..k + 1] == [b[0]] + b'[..k];
        assert a[k + 1] < b[k + 1];
      }
    }
  }

  lemma {:induction false} LexIsEarlier(a: string, b: string)
    requires LexLeRef(a, b)
    ensures IsEarlierOrEqual(a, b)
    decreases |a|
  {
    if a != [] {
      var a', b' := a[1..], b[1..];
      if |a| <= |b| && a == b[..|a|] {
        assert a[0] == b[0];
        assert a' == b'[..|a'|];
        LexIsEarlier(a', b');
      } else {
        var k :| 0 <= k < |a| && k < |b| && a[..k] == b[..k] && a[k] < b[k];
        if k > 0 {
          assert a[0] == a[..k][0] == b[..k][0] == b[0];
          assert a'[..k - 1] == a[..k][1..] && b'[..k - 1] == b[..k][1..];
          assert a'[k - 1] < b'[k - 1];
          LexIsEarlier(a', b');
        }
      }
    }
  }

  lemma {:induction false} IsEarlierOrEqualReflexive(a: string)
    ensures IsEarlierOrEqual(a, a)
    decreases |a|
  {
    if a != [] {
      IsEarlierOrEqualReflexive(a[1..]);
    }
  }

  lemma {:induction false} IsEarlierOrEqualTotal(a: string, b: string)
    ensures IsEarlierOrEqual(a, b) || IsEarlierOrEqual(b, a)
    decreases |a|
  {
    if a != [] && b != [] && a[0] == b[0] {
      IsEarlierOrEqualTotal(a[1..], b[1..]);
    }
  }

  lemma {:induction false} IsEarlierOrEqualTransitive(a: string, b: string, c: string)
    requires IsEarlierOrEqual(a, b) && IsEarlierOrEqual(b, c)
    ensures IsEarlierOrEqual(a, c)
    decreases |a|
  {
    if a != [] && a[0] == b[0] && b[0] == c[0] {
      IsEarlierOrEqualTransitive(a[1..], b[1..], c[1..]);
    }
  }

  lemma {:induction false} IsEarlierOrEqualAntisymmetric(a: string, b: string)
    requires IsEarlierOrEqual(a, b) && IsEarlierOrEqual(b, a)
    ensures a == b
    decreases |a|
  {
    if a != [] {
      IsEarlierOrEqualAntisymmetric(a[1..], b[1..]);
    }
  }

  // ---------------------------------------------------------------------
  // sorted(): arrays and sets of strings in ascending order
  // ---------------------------------------------------------------------

  predicate Ascending(s: seq<string>) {
    forall i, j :: 0 <= i < j < |s| ==> IsEarlierOrEqual(s[i], s[j])
  }

  predicate StrictlyAscending(s: seq<string>) {
    forall i, j :: 0 <= i < j < |s| ==> IsEarlierOrEqual(s[i], s[j]) && s[i] != s[j]
  }

  /** Places `x` after every element it is not earlier than. */
  function InsertString(s: seq<string>, x: string): (r: seq<string>)
    ensures multiset(r) == multiset(s) + multiset{x}
    ensures Ascending(s) ==> Ascending(r)
  {
    if s == [] then [x]
    else
      var init, last := s[..|s| - 1], s[|s| - 1];
      assert s == init + [last];
      if IsEarlierOrEqual(last, x) then
        AppendAscending(s, x);
        s + [x]
      else
        var r' := InsertString(init, x);
        if Ascending(s) then
          IsEarlierOrEqualTotal(last, x);
          BelowLast(s, x, r');
          AppendAscending(r', last);
          r' + [last]
        else
          r' + [last]
  }

  /** Appending an element no earlier than the last keeps an array ascending. */
  lemma AppendAscending(s: seq<string>, x: string)
    requires s != [] ==> IsEarlierOrEqual(s[|s| - 1], x)
    ensures Ascending(s) ==> Ascending(s + [x])
  {
    if Ascending(s) {
      forall i | 0 <= i < |s| ensures IsEarlierOrEqual(s[i], x) {
        if i < |s| - 1 {
          IsEarlierOrEqualTransitive(s[i], s[|s| - 1], x);
        }
      }
    }
  }

  /** Whatever holds `x` and the elements before the last is below the last. */
  lemma BelowLast(s: seq<string>, x: string, r: seq<string>)
    requires Ascending(s) && s != [] && IsEarlierOrEqual(x, s[|s| - 1])
    requires multiset(r) == multiset(s[..|s| - 1]) + multiset{x}
    ensures r == [] || IsEarlierOrEqual(r[|r| - 1], s[|s| - 1])
  {
    if r != [] {
      var y := r[|r| - 1];
      assert y in multiset(r);
      if y != x {
        assert y in multiset(s[..|s| - 1]);
        var i :| 0 <= i < |s| - 1 && s[..|s| - 1][i] == y;
        assert s[i] == y;
      }
    }
  }

  /** `sorted()` on an array of strings. */
  function SortStrings(s: seq<string>): (r: seq<string>)
    ensures Ascending(r) && multiset(r) == multiset(s)
  {
    if s == [] then []
    else
      assert s == s[..|s| - 1] + [s[|s| - 1]];
      InsertString(SortStrings(s[..|s| - 1]), s[|s| - 1])
  }

  /** Sorting leaves an ascending array as it is. */
  lemma {:induction false} SortAscendingIsIdentity(s: seq<string>)
    requires Ascending(s)
    ensures SortStrings(s) == s
  {
    if s != [] {
      var init, last := s[..|s| - 1], s[|s| - 1];
      assert Ascending(init);
      SortAscendingIsIdentity(init);
      assert s == init + [last];
      assert SortStrings(s) == InsertString(init, last);
      if init != [] {
        assert IsEarlierOrEqual(init[|init| - 1], last);
      }
    }
  }

  predicate IsLeast(s: set<string>, m: string) {
    m in s && forall x :: x in s ==> IsEarlierOrEqual(m, x)
  }

  /** A finite non-empty set of strings has exactly one least element. */
  lemma {:induction false} LeastExists(s: set<string>)
    requires s != {}
    ensures exists m :: IsLeast(s, m)
    ensures forall a, b :: IsLeast(s, a) && IsLeast(s, b) ==> a == b
    decreases |s|
  {
    var y :| y in s;
    if s == {y} {
      IsEarlierOrEqualReflexive(y);
      assert IsLeast(s, y);
    } else {
      var rest := s - {y};
      LeastExists(rest);
      var m :| IsLeast(rest, m);
      IsEarlierOrEqualTotal(y, m);
      if IsEarlierOrEqual(y, m) {
        IsEarlierOrEqualReflexive(y);
        forall x | x in s ensures IsEarlierOrEqual(y, x) {
          if x != y {
            IsEarlierOrEqualTransitive(y, m, x);
          }
        }
        assert IsLeast(s, y);
      } else {
        IsEarlierOrEqualReflexive(m);
        assert IsLeast(s, m);
      }
    }
    forall a, b | IsLeast(s, a) && IsLeast(s, b) ensures a == b {
      IsEarlierOrEqualAntisymmetric(a, b);
    }
  }

  /** `Array(s).sorted()`: the members of a set of strings in ascending order. */
  function SortedFromSet(s: set<string>): (r: seq<string>)
    ensures StrictlyAscending(r) && |r| == |s|
    ensures forall x :: x in r <==> x in s
    decreases |s|
  {
    if s == {} then []
    else
      LeastExists(s);
      var m :| IsLeast(s, m);
      var rest := SortedFromSet(s - {m});
      assert forall j :: 0 <= j < |rest| ==> rest[j] in s - {m};
      [m] + rest
  }

  // ---------------------------------------------------------------------
  // toCalendarSymbolName
  // ---------------------------------------------------------------------

  /** `suffix(2)`: the last two characters, or the whole text when shorter. */
  function Suffix2(s: string): (r: string)
    ensures |r| == if |s| < 2 then |s| else 2
    ensures s == s[..|s| - |r|] + r
  {
    if |s| < 2 then s else s[|s| - 2..]
  }

  /**
   * The SF Symbol for a `yyyy-MM-dd` datestamp: "dd.calendar" when the last
   * two characters parse as a day of the month, "note" otherwise.
   */
  function ToCalendarSymbolName(s: string): (r: string)
    ensures var day := ParseInt(Suffix2(s));
            r != "note" <==> day.Some? && 1 <= day.value <= 31
    ensures r != "note" ==> r == Suffix2(s) + ".calendar"
  {
    var dd := Suffix2(s);
    var day := ParseInt(dd);
    if day.None? || day.value < 1 || day.value > 31 then "note" else dd + ".calendar"
  }

  /** Every well-formed datestamp names its own day's calendar symbol. */
  lemma CalendarSymbolOfDatestamp(yearMonth: string, day: nat)
    requires 1 <= day <= 31
    ensures ToCalendarSymbolName(yearMonth + "-" + Pad2(day)) == Pad2(day) + ".calendar"
  {
    var s := yearMonth + "-" + Pad2(day);
    assert Suffix2(s) == Pad2(day);
    Pad2Value(day);
    assert ParseInt(Pad2(day)) == Some(day);
  }

  /** A datestamp whose day field is "00" shows the note symbol. */
  lemma CalendarSymbolOfDayZero(yearMonth: string)
    ensures ToCalendarSymbolName(yearMonth + "-00") == "note"
  {
    var s := yearMonth + "-00";
    assert Suffix2(s) == "00";
    assert DigitsValue("00") == 0 by {
      assert "00"[..1] == "0" && "0"[..0] == [];
    }
  }

  // ---------------------------------------------------------------------
  // separateTimeValue: the pattern \s+(1[0-2]|[1-9])(?::([0-5][0-9]))?\s?(AM|PM|am|pm)\b
  // ---------------------------------------------------------------------

  /** Characters `\w` matches, restricted to ASCII; `\b` after a letter needs a non-word character or the end. */
  predicate IsWordChar(c: char) {
    'a' <= c <= 'z' || 'A' <= c <= 'Z' || IsDigit(c) || c == '_'
  }

  predicate IsPeriod(p: string) {
    p == "AM" || p == "PM" || p == "am" || p == "pm"
  }

  /** One match of the pattern: its span and its three capture groups. */
  datatype TimeMatch = TimeMatch(start: nat, end: nat, hour: string, minute: Option<string>, period: string)

  function WhitespaceRunEnd(s: string, p: nat): (q: nat)
    requires p <= |s|
    ensures p <= q <= |s|
    ensures forall i :: p <= i < q ==> IsWhitespace(s[i])
    ensures q == |s| || !IsWhitespace(s[q])
    decreases |s| - p
  {
    if p < |s| && IsWhitespace(s[p]) then WhitespaceRunEnd(s, p + 1) else p
  }

  /**
   * Length of the hour group at `q`. The alternative `1[0-2]` is tried first;
   * when it matches, falling back to `[1-9]` would leave a digit where the
   * rest of the pattern needs ':', white space or a letter, so the first
   * choice is final.
   */
  function HourLength(s: string, q: nat): (n: nat)
    requires q <= |s|
    ensures n <= 2 && q + n <= |s|
  {
    if q + 2 <= |s| && s[q] == '1' && '0' <= s[q + 1] <= '2' then 2
    else if q < |s| && '1' <= s[q] <= '9' then 1
    else 0
  }

  function HasMinutes(s: string, r: nat): bool {
    r + 3 <= |s| && s[r] == ':' && '0' <= s[r + 1] <= '5' && IsDigit(s[r + 2])
  }

  /**
   * The match that starts at `p`, if any. Every optional part and every
   * quantifier is greedy, and giving any of them back leaves a character
   * that the next part of the pattern cannot take, so one left-to-right pass
   * decides the match.
   */
  function MatchAt(s: string, p: nat): (r: Option<TimeMatch>)
    requires p <= |s|
    ensures r.Some? ==> var m := r.value;
      m.start == p < m.end <= |s| && IsWhitespace(s[p]) &&
      AllDigits(m.hour) && 1 <= DigitsValue(m.hour) <= 12 &&
      (m.minute.Some? ==> |m.minute.value| == 2 && AllDigits(m.minute.value) && DigitsValue(m.minute.value) < 60) &&
      IsPeriod(m.period) &&
      (m.end == |s| || !IsWordChar(s[m.end]))
  {
    if p < |s| && IsWhitespace(s[p]) then
      var q := WhitespaceRunEnd(s, p);
      var hl := HourLength(s, q);
      if hl == 0 then None
      else
        var hour := s[q..q + hl];
        var r := q + hl;
        HourValue(s, q, hl);
        var minute := if HasMinutes(s, r) then Some(s[r + 1..r + 3]) else None;
        MinuteValue(s, r);
        var t := if minute.Some? then r + 3 else r;
        var u := if t < |s| && IsWhitespace(s[t]) then t + 1 else t;
        if u + 2 <= |s| && IsPeriod(s[u..u + 2]) && (u + 2 == |s| || !IsWordChar(s[u + 2])) then
          assert p < u + 2;
          Some(TimeMatch(p, u + 2, hour, minute, s[u..u + 2]))
        else None
    else None
  }

  /** The hour group reads as 1 through 12. */
  lemma HourValue(s: string, q: nat, hl: nat)
    requires q <= |s| && hl == HourLength(s, q) > 0
    ensures AllDigits(s[q..q + hl]) && 1 <= DigitsValue(s[q..q + hl]) <= 12
  {
    var hour := s[q..q + hl];
    if |hour| == 1 {
      DigitsValueOne(hour);
    } else {
      DigitsValueTwo(hour);
    }
  }

  /** The minute group reads as 0 through 59. */
  lemma MinuteValue(s: string, r: nat)
    ensures HasMinutes(s, r) ==>
      var minute := s[r + 1..r + 3];
      |minute| == 2 && AllDigits(minute) && DigitsValue(minute) < 60
  {
    if HasMinutes(s, r) {
      DigitsValueTwo(s[r + 1..r + 3]);
    }
  }

  /** `firstMatch(in:range:)` from position `p` on: the match with the smallest start. */
  function FirstMatch(s: string, p: nat): (r: Option<TimeMatch>)
    requires p <= |s|
    ensures r.Some? ==> p <= r.value.start <= |s| && MatchAt(s, r.value.start) == r
    ensures r.Some? ==> forall k :: p <= k < r.value.start ==> MatchAt(s, k).None?
    ensures r.None? ==> forall k :: p <= k <= |s| ==> MatchAt(s, k).None?
    decreases |s| - p
  {
    var m := MatchAt(s, p);
    if m.Some? then m
    else if p == |s| then None
    else FirstMatch(s, p + 1)
  }

  /**
   * `replacingOccurrences(of:with: "")`: scans left to right and drops every
   * non-overlapping occurrence of `pat`.
   */
  function RemoveOccurrences(s: string, pat: string): (r: string)
    requires pat != []
    ensures |r| <= |s|
  {
    if |s| < |pat| then s
    else if s[..|pat|] == pat then RemoveOccurrences(s[|pat|..], pat)
    else [s[0]] + RemoveOccurrences(s[1..], pat)
  }

  lemma {:induction false} RemoveAbsent(s: string, pat: string)
    requires pat != []
    requires forall k :: !OccursAt(s, pat, k)
    ensures RemoveOccurrences(s, pat) == s
    decreases |s|
  {
    if |s| >= |pat| {
      assert !OccursAt(s, pat, 0);
      var t := s[1..];
      forall k | 0 <= k <= |t| - |pat|
        ensures !OccursAt(t, pat, k)
      {
        assert !OccursAt(s, pat, k + 1);
        assert t[k..k + |pat|] == s[k + 1..k + 1 + |pat|];
      }
      RemoveAbsent(t, pat);
    }
  }

  /** When the first occurrence of `pat` starts after `a`, everything before it is kept. */
  lemma {:induction false} RemoveFirstOccurrence(a: string, pat: string, b: string)
    requires pat != []
    requires forall k :: 0 <= k < |a| ==> !OccursAt(a + pat + b, pat, k)
    ensures RemoveOccurrences(a + pat + b, pat) == a + RemoveOccurrences(b, pat)
    decreases |a|
  {
    var s := a + pat + b;
    if a == [] {
      assert s == pat + b;
      RemoveHere(pat, b);
    } else {
      var t := a[1..] + pat + b;
      ConsSplit(a, pat + b);
      assert s == [a[0]] + t;
      RemoveSkip(s, pat);
      NoEarlyOccurrenceInTail(a, pat, b);
      RemoveFirstOccurrence(a[1..], pat, b);
      ConsSplit(a, RemoveOccurrences(b, pat));
    }
  }

  /** A non-empty text followed by more text is its first character followed by the rest. */
  lemma ConsSplit(a: string, c: string)
    requires a != []
    ensures a + c == [a[0]] + (a[1..] + c)
  {
    assert a == [a[0]] + a[1..];
  }

  /** No occurrence starts in `a` after its first character: so none starts in `a[1..]` of the tail. */
  lemma NoEarlyOccurrenceInTail(a: string, pat: string, b: string)
    requires a != []
    requires forall k :: 0 <= k < |a| ==> !OccursAt(a + pat + b, pat, k)
    ensures forall k :: 0 <= k < |a[1..]| ==> !OccursAt(a[1..] + pat + b, pat, k)
  {
    var s, t := a + pat + b, a[1..] + pat + b;
    assert s[1..] == t by {
      ConsSplit(a, pat + b);
    }
    forall k | 0 <= k < |a[1..]|
      ensures !OccursAt(t, pat, k)
    {
      if OccursAt(t, pat, k) {
        OccursAtTail(s, pat, k);
      }
    }
  }

  /** An occurrence at the front is dropped. */
  lemma RemoveHere(pat: string, b: string)
    requires pat != []
    ensures RemoveOccurrences(pat + b, pat) == RemoveOccurrences(b, pat)
  {
    var s := pat + b;
    assert s[..|pat|] == pat && s[|pat|..] == b;
  }

  /** A front character that starts no occurrence is kept. */
  lemma RemoveSkip(s: string, pat: string)
    requires pat != [] && |s| >= |pat| && !OccursAt(s, pat, 0)
    ensures RemoveOccurrences(s, pat) == [s[0]] + RemoveOccurrences(s[1..], pat)
  {
  }

  /** Around the first occurrence of the matched words: the text before it is kept. */
  lemma RemoveAroundMatch(s: string, start: nat, end: nat)
    requires start < end <= |s|
    requires forall k :: 0 <= k < start ==> !OccursAt(s, s[start..end], k)
    ensures RemoveOccurrences(s, s[start..end]) == s[..start] + RemoveOccurrences(s[end..], s[start..end])
  {
    var a, pat, b := s[..start], s[start..end], s[end..];
    assert a + pat == s[..end];
    assert s == a + pat + b;
    RemoveFirstOccurrence(a, pat, b);
  }

  /** `toFormat("HH:mm")` of the date `"h:mm a"` parses to: the hour on the 24-hour clock. */
  function To24Hour(hour: nat, period: string): (h: nat)
    requires 1 <= hour <= 12
    ensures h < 24
    ensures h < 12 <==> period != "PM"
    ensures h % 12 == hour % 12
  {
    if period == "PM" then hour % 12 + 12 else hour % 12
  }

  datatype SeparatedTime = SeparatedTime(timeValue24Hour: string, updatedText: string)

  /** The text the match covers, including its leading white space. */
  function MatchedText(s: string, m: TimeMatch): string
    requires m.start < m.end <= |s|
  {
    s[m.start..m.end]
  }

  /**
   * `separateTimeValue`: the first time in the text as "HH:mm", and the text
   * with every occurrence of the matched words removed.
   */
  function SeparateTimeValue(s: string): (r: Option<SeparatedTime>)
    ensures r.None? <==> forall k :: 0 <= k <= |s| ==> MatchAt(s, k).None?
    ensures r.Some? ==> |r.value.timeValue24Hour| == 5 && r.value.timeValue24Hour[2] == ':'
    ensures r.Some? ==> |r.value.updatedText| < |s|
  {
    match FirstMatch(s, 0)
    case None => None
    case Some(m) =>
      MatchShape(s, m);
      var minutePart := m.minute.GetOr("00");
      var periodPart := Uppercased(m.period);
      var hour24 := To24Hour(DigitsValue(m.hour), periodPart);
      var matched := MatchedText(s, m);
      var updated := RemoveOccurrences(s, matched);
      RemoveShrinks(s, matched, m.start);
      var time := Pad2(hour24) + ":" + minutePart;
      assert |time| == 5 && time[2] == ':';
      Some(SeparatedTime(time, updated))
  }

  /** What the first match guarantees about its fields. */
  lemma MatchShape(s: string, m: TimeMatch)
    requires FirstMatch(s, 0) == Some(m)
    ensures m.start < m.end <= |s|
    ensures AllDigits(m.hour) && 1 <= DigitsValue(m.hour) <= 12
    ensures |m.minute.GetOr("00")| == 2
  {
    assert MatchAt(s, m.start) == Some(m);
  }

  lemma {:induction false} RemoveShrinks(s: string, pat: string, k: nat)
    requires pat != [] && k + |pat| <= |s| && s[k..k + |pat|] == pat
    ensures |RemoveOccurrences(s, pat)| < |s|
    decreases |s|
  {
    if s[..|pat|] == pat {
    } else {
      assert k > 0;
      assert s[1..][k - 1..k - 1 + |pat|] == s[k..k + |pat|];
      RemoveShrinks(s[1..], pat, k - 1);
    }
  }

  /**
   * The first match decides the result: its hour, its minutes or "00", and
   * its upper-cased period give the time; when no earlier copy of the
   * matched words occurs, the text before the match is kept as it is.
   */
  lemma SeparateUsesFirstMatch(s: string, m: TimeMatch)
    requires m.start <= |s| && MatchAt(s, m.start) == Some(m)
    requires forall k :: 0 <= k < m.start ==> MatchAt(s, k).None?
    requires forall k :: 0 <= k < m.start ==> !OccursAt(s, s[m.start..m.end], k)
    ensures var r := SeparateTimeValue(s);
      r.Some? &&
      r.value.timeValue24Hour ==
        Pad2(To24Hour(DigitsValue(m.hour), Uppercased(m.period))) + ":" + m.minute.GetOr("00") &&
      r.value.updatedText == s[..m.start] + RemoveOccurrences(s[m.end..], s[m.start..m.end])
  {
    FirstMatchIs(s, m);
    SeparateOfFirstMatch(s, m);
    RemoveAroundMatch(s, m.start, m.end);
  }

  /** A match with no match before it is the first match. */
  lemma FirstMatchIs(s: string, m: TimeMatch)
    requires m.start <= |s| && MatchAt(s, m.start) == Some(m)
    requires forall k :: 0 <= k < m.start ==> MatchAt(s, k).None?
    ensures FirstMatch(s, 0) == Some(m)
  {
    var f := FirstMatch(s, 0);
    assert f.Some?;
    assert f.value.start == m.start;
  }

  /** The result is read off the first match. */
  lemma SeparateOfFirstMatch(s: string, m: TimeMatch)
    requires FirstMatch(s, 0) == Some(m)
    ensures SeparateTimeValue(s) == Some(SeparatedTime(
      Pad2(To24Hour(DigitsValue(m.hour), Uppercased(m.period))) + ":" + m.minute.GetOr("00"),
      RemoveOccurrences(s, s[m.start..m.end])))
  {
  }

  /** A match after words without white space: nothing before it can match or repeat it. */
  lemma SeparateAfterPlainWords(s: string, m: TimeMatch)
    requires m.start <= |s| && MatchAt(s, m.start) == Some(m)
    requires forall k :: 0 <= k < m.start ==> !IsWhitespace(s[k])
    ensures var r := SeparateTimeValue(s);
      r.Some? &&
      r.value.timeValue24Hour ==
        Pad2(To24Hour(DigitsValue(m.hour), Uppercased(m.period))) + ":" + m.minute.GetOr("00") &&
      r.value.updatedText == s[..m.start] + RemoveOccurrences(s[m.end..], s[m.start..m.end])
  {
    var pat := s[m.start..m.end];
    forall k | 0 <= k < m.start
      ensures !OccursAt(s, pat, k)
    {
      assert IsWhitespace(pat[0]) && !IsWhitespace(s[k]);
    }
    SeparateUsesFirstMatch(s, m);
  }

  /** A time that ends the title: the words before it are what remains. */
  lemma SeparateWholeTail(s: string, m: TimeMatch)
    requires m.start <= |s| && MatchAt(s, m.start) == Some(m) && m.end == |s|
    requires forall k :: 0 <= k < m.start ==> !IsWhitespace(s[k])
    ensures SeparateTimeValue(s) == Some(SeparatedTime(
      Pad2(To24Hour(DigitsValue(m.hour), Uppercased(m.period))) + ":" + m.minute.GetOr("00"),
      s[..m.start]))
  {
    SeparateAfterPlainWords(s, m);
    var r := SeparateTimeValue(s);
    assert r.value.updatedText == s[..m.start] by {
      assert s[m.end..] == [];
    }
  }

  /** A lower-case period is read as its upper-case form: "9 pm" is 21:00. */
  lemma LowerCasePeriodIsUpperCased(hour: nat)
    requires 1 <= hour <= 12
    ensures To24Hour(hour, Uppercased("pm")) == To24Hour(hour, "PM")
    ensures To24Hour(hour, Uppercased("am")) == To24Hour(hour, "AM")
  {
    assert Uppercased("pm") == "PM";
    assert Uppercased("am") == "AM";
  }

  /**
   * "Nap 1:15 pm" matches at its space with hour 1, minutes 15 and a
   * lower-case period, after words with no white space; so the title left is
   * "Nap" and the time 13:15.
   */
  lemma NapMatch(s: string)
    requires s == "Nap 1:15 pm"
    ensures MatchAt(s, 3) == Some(TimeMatch(3, 11, "1", Some("15"), "pm"))
    ensures forall k :: 0 <= k < 3 ==> !IsWhitespace(s[k])
    ensures To24Hour(1, Uppercased("pm")) == 13
  {
    assert Uppercased("pm") == "PM";
    assert WhitespaceRunEnd(s, 3) == 4 by {
      assert WhitespaceRunEnd(s, 4) == 4;
    }
    assert s[4..5] == "1" && s[6..8] == "15" && s[9..11] == "pm";
    forall k | 0 <= k < 3 ensures !IsWhitespace(s[k]) {
      assert s[k] == s[..3][k] && s[..3] == "Nap";
    }
  }

  /**
   * "Gym 9am" matches at its space with hour 9 and no minutes, so the title
   * left is "Gym" and the time 09:00.
   */
  lemma GymMatch(s: string)
    requires s == "Gym 9am"
    ensures MatchAt(s, 3) == Some(TimeMatch(3, 7, "9", None, "am"))
    ensures forall k :: 0 <= k < 3 ==> !IsWhitespace(s[k])
    ensures Pad2(To24Hour(9, Uppercased("am"))) == "09"
  {
    assert Uppercased("am") == "AM";
    assert WhitespaceRunEnd(s, 3) == 4 by {
      assert WhitespaceRunEnd(s, 4) == 4;
    }
    assert s[4..5] == "9" && s[5..7] == "am";
    forall k | 0 <= k < 3 ensures !IsWhitespace(s[k]) {
      assert s[k] == s[..3][k] && s[..3] == "Gym";
    }
  }

  /** A period glued to a following letter is not a time: "Call 9 amy" holds none. */
  lemma SeparateExampleWordBoundary()
    ensures SeparateTimeValue("Call 9 amy") == None
  {
    var s := "Call 9 amy";
    forall k | 0 <= k <= |s| ensures MatchAt(s, k).None? {
    }
  }
}
