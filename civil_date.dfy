/**
 * Calendar days and their `yyyy-MM-dd` datestamps (ISO 8601:2004 section
 * 4.1.2.2, calendar date, extended format), as Foundation's Gregorian
 * calendar and SwiftDate produce them for `Date.datestamp`
 * (Planner/Extensions/Date.swift:64-67) and `toDate("yyyy-MM-dd")`.
 *
 * Days count from 0001-01-01 (day number 0). Datestamps exist for years
 * 1 through 9999, where the four-digit year keeps every stamp ten
 * characters long; on those, string order is calendar order.
 */
module CivilDate {
  import opened Wrappers
  import Text
  import StringExt

  datatype Date = Date(year: int, month: int, day: int)

  predicate IsLeapYear(y: int) {
    y % 4 == 0 && (y % 100 != 0 || y % 400 == 0)
  }

  function DaysInMonth(y: int, m: int): (n: int)
    requires 1 <= m <= 12
    ensures 28 <= n <= 31
  {
    if m == 2 then (if IsLeapYear(y) then 29 else 28)
    else if m == 4 || m == 6 || m == 9 || m == 11 then 30
    else 31
  }

  function YearLength(y: int): int {
    if IsLeapYear(y) then 366 else 365
  }

  predicate Valid(d: Date) {
    d.year >= 1 && 1 <= d.month <= 12 && 1 <= d.day <= DaysInMonth(d.year, d.month)
  }

  /** A date whose year has four digits, so that it has a datestamp. */
  predicate Stampable(d: Date) {
    Valid(d) && d.year <= 9999
  }

  /** Chronological order: by year, then month, then day. */
  predicate Before(a: Date, b: Date) {
    a.year < b.year || (a.year == b.year && (a.month < b.month || (a.month == b.month && a.day < b.day)))
  }

  /** `calendar.date(byAdding: .day, value: 1, to:)` */
  function NextDay(d: Date): (r: Date)
    requires Valid(d)
    ensures Valid(r) && Before(d, r)
  {
    if d.day < DaysInMonth(d.year, d.month) then Date(d.year, d.month, d.day + 1)
    else if d.month < 12 then Date(d.year, d.month + 1, 1)
    else Date(d.year + 1, 1, 1)
  }

  /** The day before; 0001-01-01 has none. */
  function PrevDay(d: Date): (r: Date)
    requires Valid(d) && d != Date(1, 1, 1)
    ensures Valid(r) && NextDay(r) == d
  {
    if d.day > 1 then Date(d.year, d.month, d.day - 1)
    else if d.month > 1 then Date(d.year, d.month - 1, DaysInMonth(d.year, d.month - 1))
    else Date(d.year - 1, 12, 31)
  }

  // ---------------------------------------------------------------------
  // Day numbers
  // ---------------------------------------------------------------------

  function DaysBeforeYear(y: int): nat
    requires y >= 1
    decreases y
  {
    if y == 1 then 0 else DaysBeforeYear(y - 1) + YearLength(y - 1)
  }

  function DaysBeforeMonth(y: int, m: int): nat
    requires 1 <= m <= 12
  {
    var leap := if IsLeapYear(y) then 1 else 0;
    match m
    case 1 => 0
    case 2 => 31
    case 3 => 59 + leap
    case 4 => 90 + leap
    case 5 => 120 + leap
    case 6 => 151 + leap
    case 7 => 181 + leap
    case 8 => 212 + leap
    case 9 => 243 + leap
    case 10 => 273 + leap
    case 11 => 304 + leap
    case _ => 334 + leap
  }

  /** Days since 0001-01-01. */
  function DayNumber(d: Date): nat
    requires Valid(d)
  {
    DaysBeforeYear(d.year) + DaysBeforeMonth(d.year, d.month) + d.day - 1
  }

  lemma {:induction false} DaysBeforeYearMonotone(y: int, z: int)
    requires 1 <= y <= z
    ensures DaysBeforeYear(y) + (z - y) * 365 <= DaysBeforeYear(z)
    decreases z - y
  {
    if y < z {
      DaysBeforeYearMonotone(y, z - 1);
    }
  }

  /** Each month starts where the one before it ends; December ends the year. */
  lemma MonthStep(y: int, m: int)
    requires 1 <= m <= 12
    ensures m < 12 ==> DaysBeforeMonth(y, m + 1) == DaysBeforeMonth(y, m) + DaysInMonth(y, m)
    ensures m == 12 ==> DaysBeforeMonth(y, m) + DaysInMonth(y, m) == YearLength(y)
  {
  }

  /** Every day of a year comes before the first day of the next. */
  lemma DayInYear(d: Date)
    requires Valid(d)
    ensures DaysBeforeMonth(d.year, d.month) + d.day <= YearLength(d.year)
    ensures d.month < 12 ==> DaysBeforeMonth(d.year, d.month) + d.day <= DaysBeforeMonth(d.year, d.month + 1)
  {
    MonthStep(d.year, d.month);
    if d.month < 12 {
      MonthsBeforeYearEnd(d.year, d.month + 1);
    }
  }

  lemma {:induction false} MonthsBeforeYearEnd(y: int, m: int)
    requires 1 <= m <= 12
    ensures DaysBeforeMonth(y, m) + DaysInMonth(y, m) <= YearLength(y)
    decreases 12 - m
  {
    MonthStep(y, m);
    if m < 12 {
      MonthsBeforeYearEnd(y, m + 1);
    }
  }

  /** Consecutive days have consecutive numbers. */
  lemma NextDayNumber(d: Date)
    requires Valid(d)
    ensures DayNumber(NextDay(d)) == DayNumber(d) + 1
  {
    MonthStep(d.year, d.month);
    if d.day == DaysInMonth(d.year, d.month) && d.month == 12 {
      assert DaysBeforeYear(d.year + 1) == DaysBeforeYear(d.year) + YearLength(d.year);
    }
  }

  /** Day numbers order dates chronologically. */
  lemma DayNumberOrder(a: Date, b: Date)
    requires Valid(a) && Valid(b)
    ensures Before(a, b) <==> DayNumber(a) < DayNumber(b)
    ensures a == b <==> DayNumber(a) == DayNumber(b)
  {
    if a.year < b.year {
      EarlierYearSmaller(a, b);
    } else if b.year < a.year {
      EarlierYearSmaller(b, a);
    } else if a.month < b.month {
      EarlierMonthSmaller(a, b);
    } else if b.month < a.month {
      EarlierMonthSmaller(b, a);
    }
  }

  lemma EarlierYearSmaller(x: Date, y: Date)
    requires Valid(x) && Valid(y) && x.year < y.year
    ensures DayNumber(x) < DayNumber(y)
  {
    DayInYear(x);
    DaysBeforeYearMonotone(x.year + 1, y.year);
    assert DaysBeforeYear(x.year + 1) == DaysBeforeYear(x.year) + YearLength(x.year);
  }

  lemma EarlierMonthSmaller(x: Date, y: Date)
    requires Valid(x) && Valid(y) && x.year == y.year && x.month < y.month
    ensures DayNumber(x) < DayNumber(y)
  {
    DayInYear(x);
    assert DaysBeforeMonth(x.year, x.month + 1) <= DaysBeforeMonth(x.year, y.month);
  }

  /** `n` days after `d`: `calendar.date(byAdding: .day, value: n, to:)` for `n >= 0`. */
  function AddDays(d: Date, n: nat): (r: Date)
    requires Valid(d)
    ensures Valid(r) && DayNumber(r) == DayNumber(d) + n
    decreases n
  {
    if n == 0 then d
    else
      var r := NextDay(AddDays(d, n - 1));
      NextDayNumber(AddDays(d, n - 1));
      r
  }

  /**
   * `dateByAdding(k, .year)`: the same month and day `k` years on, with
   * 29 February clamped to the 28th in a common year.
   */
  function AddYears(d: Date, k: nat): (r: Date)
    requires Valid(d)
    ensures Valid(r) && r.year == d.year + k && r.month == d.month
    ensures r.day == d.day || (d.month == 2 && d.day == 29 && r.day == 28 && !IsLeapYear(r.year))
  {
    var y := d.year + k;
    Date(y, d.month, if d.day <= DaysInMonth(y, d.month) then d.day else DaysInMonth(y, d.month))
  }

  // ---------------------------------------------------------------------
  // Datestamps
  // ---------------------------------------------------------------------

  /** `String(format: "%04d", n)` for `0 <= n < 10000`. */
  function Pad4(n: nat): (s: string)
    requires n < 10000
    ensures |s| == 4 && Text.AllDigits(s)
  {
    Text.Pad2(n / 100) + Text.Pad2(n % 100)
  }

  /** `toFormat("yyyy-MM-dd")` */
  function Datestamp(d: Date): (s: string)
    requires Stampable(d)
    ensures |s| == 10 && s[4] == '-' && s[7] == '-'
    ensures Text.AllDigits(s[..4]) && Text.AllDigits(s[5..7]) && Text.AllDigits(s[8..])
  {
    var s := Pad4(d.year) + ("-" + (Text.Pad2(d.month) + ("-" + Text.Pad2(d.day))));
    assert s[..4] == Pad4(d.year) && s[5..7] == Text.Pad2(d.month) && s[8..] == Text.Pad2(d.day);
    s
  }

  /**
   * `toDate("yyyy-MM-dd")`: four digits, a dash, two digits, a dash, two
   * digits, naming a real calendar day; anything else gives no date.
   */
  function ParseDatestamp(s: string): (r: Option<Date>)
    ensures r.Some? ==> Stampable(r.value)
  {
    if |s| == 10 && s[4] == '-' && s[7] == '-' &&
       Text.AllDigits(s[..4]) && Text.AllDigits(s[5..7]) && Text.AllDigits(s[8..])
    then
      var d := Date(Text.DigitsValue(s[..4]), Text.DigitsValue(s[5..7]), Text.DigitsValue(s[8..]));
      if Valid(d) && d.year <= 9999 then Some(d) else None
    else None
  }

  /** A later day is in the same year or a later one. */
  lemma YearMonotone(a: Date, b: Date)
    requires Valid(a) && Valid(b) && DayNumber(a) <= DayNumber(b)
    ensures a.year <= b.year
  {
    DayNumberOrder(b, a);
  }

  /** The datestamps of the `n` consecutive days starting at `d`. */
  function DatestampRun(d: Date, n: nat): (r: seq<string>)
    requires Valid(d) && (n > 0 ==> Stampable(AddDays(d, n - 1)))
    ensures |r| == n
  {
    seq(n, i requires 0 <= i < n => StampableBefore(d, i, n); Datestamp(AddDays(d, i)))
  }

  lemma DatestampRunAt(d: Date, n: nat, i: nat)
    requires Valid(d) && (n > 0 ==> Stampable(AddDays(d, n - 1))) && i < n
    ensures Stampable(AddDays(d, i)) && DatestampRun(d, n)[i] == Datestamp(AddDays(d, i))
  {
    StampableBefore(d, i, n);
  }

  /** A run one day longer is the run followed by the stamp of its last day. */
  lemma DatestampRunSnoc(d: Date, n: nat)
    requires Valid(d) && Stampable(AddDays(d, n))
    ensures n > 0 ==> Stampable(AddDays(d, n - 1))
    ensures DatestampRun(d, n + 1) == DatestampRun(d, n) + [Datestamp(AddDays(d, n))]
  {
    if n > 0 {
      StampableBefore(d, n - 1, n + 1);
    }
    var a, b := DatestampRun(d, n + 1), DatestampRun(d, n) + [Datestamp(AddDays(d, n))];
    forall i | 0 <= i < n + 1 ensures a[i] == b[i] {
      DatestampRunAt(d, n + 1, i);
      if i < n {
        DatestampRunAt(d, n, i);
      }
    }
  }

  /** Every day of a run ending on a stampable day is stampable. */
  lemma StampableBefore(d: Date, k: nat, n: nat)
    requires Valid(d) && k < n && Stampable(AddDays(d, n - 1))
    ensures Stampable(AddDays(d, k))
  {
    YearMonotone(AddDays(d, k), AddDays(d, n - 1));
  }

  /** A run of datestamps is strictly ascending in string order. */
  lemma DatestampRunAscending(d: Date, n: nat, i: nat, j: nat)
    requires Valid(d) && (n > 0 ==> Stampable(AddDays(d, n - 1))) && i < j < n
    ensures StringExt.IsEarlierOrEqual(DatestampRun(d, n)[i], DatestampRun(d, n)[j])
    ensures DatestampRun(d, n)[i] != DatestampRun(d, n)[j]
  {
    DatestampRunAt(d, n, i);
    DatestampRunAt(d, n, j);
    DatestampStrictOrder(AddDays(d, i), AddDays(d, j));
  }

  // ---------------------------------------------------------------------
  // Digit strings
  // ---------------------------------------------------------------------

  lemma DigitCharCode(d: nat)
    requires d < 10
    ensures Text.DigitChar(d) as int == '0' as int + d
  {
  }

  lemma DigitCharOfValue(c: char)
    requires Text.IsDigit(c)
    ensures Text.DigitChar(Text.DigitValue(c)) == c
  {
    var e := Text.DigitChar(Text.DigitValue(c));
    DigitCharCode(Text.DigitValue(c));
    assert e as int == c as int;
  }

  /** Two-digit strings compare as their numbers do. */
  lemma Pad2Order(x: nat, y: nat)
    requires x < 100 && y < 100
    ensures StringExt.IsEarlierOrEqual(Text.Pad2(x), Text.Pad2(y)) <==> x <= y
  {
    DigitCharCode(x / 10);
    DigitCharCode(y / 10);
    DigitCharCode(x % 10);
    DigitCharCode(y % 10);
    Text.DigitRoundTrip(x / 10);
    Text.DigitRoundTrip(y / 10);
    Text.DigitRoundTrip(x % 10);
    Text.DigitRoundTrip(y % 10);
    var a, b := Text.Pad2(x), Text.Pad2(y);
    assert a[1..][1..] == [] && b[1..][1..] == [];
    assert StringExt.IsEarlierOrEqual(a[1..], b[1..]) <==> x % 10 <= y % 10;
    assert a[0] == b[0] <==> x / 10 == y / 10;
    assert a[0] < b[0] <==> x / 10 < y / 10;
    assert x <= y <==> x / 10 < y / 10 || (x / 10 == y / 10 && x % 10 <= y % 10);
  }

  /** A two-digit string is the padding of its value. */
  lemma Pad2OfValue(s: string)
    requires |s| == 2 && Text.AllDigits(s)
    ensures Text.DigitsValue(s) < 100 && Text.Pad2(Text.DigitsValue(s)) == s
  {
    var a, b := Text.DigitValue(s[0]), Text.DigitValue(s[1]);
    Text.DigitsValueTwo(s);
    var v := a * 10 + b;
    assert v / 10 == a && v % 10 == b;
    DigitCharOfValue(s[0]);
    DigitCharOfValue(s[1]);
    assert Text.Pad2(v) == [Text.DigitChar(a), Text.DigitChar(b)];
    assert s == [s[0], s[1]];
  }

  /** Comparing equal-length heads first, then the tails. */
  lemma {:induction false} LexConcat(a1: string, a2: string, b1: string, b2: string)
    requires |a1| == |b1|
    ensures StringExt.IsEarlierOrEqual(a1 + a2, b1 + b2) <==>
      (a1 != b1 && StringExt.IsEarlierOrEqual(a1, b1)) || (a1 == b1 && StringExt.IsEarlierOrEqual(a2, b2))
    decreases |a1|
  {
    if a1 != [] {
      assert (a1 + a2)[0] == a1[0] && (b1 + b2)[0] == b1[0];
      assert (a1 + a2)[1..] == a1[1..] + a2 && (b1 + b2)[1..] == b1[1..] + b2;
      LexConcat(a1[1..], a2, b1[1..], b2);
      if a1[0] == b1[0] {
        assert a1 == b1 <==> a1[1..] == b1[1..] by {
          assert a1 == [a1[0]] + a1[1..] && b1 == [b1[0]] + b1[1..];
        }
      }
    } else {
      assert a1 + a2 == a2 && b1 + b2 == b2;
    }
  }

  lemma Pad4Order(x: nat, y: nat)
    requires x < 10000 && y < 10000
    ensures StringExt.IsEarlierOrEqual(Pad4(x), Pad4(y)) <==> x <= y
  {
    LexConcat(Text.Pad2(x / 100), Text.Pad2(x % 100), Text.Pad2(y / 100), Text.Pad2(y % 100));
    Pad2Order(x / 100, y / 100);
    Pad2Order(x % 100, y % 100);
    Text.Pad2Value(x / 100);
    Text.Pad2Value(y / 100);
    if Text.Pad2(x / 100) == Text.Pad2(y / 100) {
      assert x / 100 == y / 100;
    }
  }

  /**
   * The point of the format: comparing datestamps as strings compares the
   * days they name.
   */
  lemma DatestampOrder(a: Date, b: Date)
    requires Stampable(a) && Stampable(b)
    ensures StringExt.IsEarlierOrEqual(Datestamp(a), Datestamp(b)) <==> !Before(b, a)
  {
    var ya, yb := Pad4(a.year), Pad4(b.year);
    var am, bm := Text.Pad2(a.month), Text.Pad2(b.month);
    var ad, bd := Text.Pad2(a.day), Text.Pad2(b.day);
    LexConcat(ya, "-" + (am + ("-" + ad)), yb, "-" + (bm + ("-" + bd)));
    LexConcat("-", am + ("-" + ad), "-", bm + ("-" + bd));
    LexConcat(am, "-" + ad, bm, "-" + bd);
    LexConcat("-", ad, "-", bd);
    Pad4Order(a.year, b.year);
    Pad4Order(b.year, a.year);
    Pad2Order(a.month, b.month);
    Pad2Order(b.month, a.month);
    Pad2Order(a.day, b.day);
    if ya == yb {
      StringExt.IsEarlierOrEqualReflexive(ya);
    }
    if am == bm {
      StringExt.IsEarlierOrEqualReflexive(am);
    }
  }

  /** Different days have different datestamps. */
  lemma DatestampInjective(a: Date, b: Date)
    requires Stampable(a) && Stampable(b) && Datestamp(a) == Datestamp(b)
    ensures a == b
  {
    StringExt.IsEarlierOrEqualReflexive(Datestamp(a));
    DatestampOrder(a, b);
    DatestampOrder(b, a);
  }

  /** An earlier day has a different, string-earlier datestamp. */
  lemma DatestampStrictOrder(a: Date, b: Date)
    requires Stampable(a) && Stampable(b) && DayNumber(a) < DayNumber(b)
    ensures StringExt.IsEarlierOrEqual(Datestamp(a), Datestamp(b)) && Datestamp(a) != Datestamp(b)
  {
    DayNumberOrder(a, b);
    DatestampOrder(a, b);
    if Datestamp(a) == Datestamp(b) {
      DatestampInjective(a, b);
    }
  }

  /** Reading a datestamp gives back its day. */
  lemma ParseDatestampRoundTrip(d: Date)
    requires Stampable(d)
    ensures ParseDatestamp(Datestamp(d)) == Some(d)
  {
    var y, m, dd := Pad4(d.year), Text.Pad2(d.month), Text.Pad2(d.day);
    var s := Datestamp(d);
    assert s == y + ("-" + (m + ("-" + dd)));
    assert s[..4] == y && s[5..7] == m && s[8..] == dd;
    Pad4Value(d.year);
    Text.Pad2Value(d.month);
    Text.Pad2Value(d.day);
  }

  /** A padded four-digit number reads back as itself. */
  lemma Pad4Value(n: nat)
    requires n < 10000
    ensures Text.DigitsValue(Pad4(n)) == n
  {
    var s := Pad4(n);
    assert s[..2] == Text.Pad2(n / 100) && s[2..] == Text.Pad2(n % 100);
    DigitsValueFour(s);
    Text.Pad2Value(n / 100);
    Text.Pad2Value(n % 100);
  }

  /** A four-digit string is the padding of its value. */
  lemma Pad4OfValue(t: string)
    requires |t| == 4 && Text.AllDigits(t)
    ensures Text.DigitsValue(t) < 10000 && Pad4(Text.DigitsValue(t)) == t
  {
    var hi, lo := t[..2], t[2..];
    Pad2OfValue(hi);
    Pad2OfValue(lo);
    DigitsValueFour(t);
    var v := Text.DigitsValue(t);
    assert v / 100 == Text.DigitsValue(hi) && v % 100 == Text.DigitsValue(lo);
    assert t == hi + lo;
  }

  /** Only datestamps parse: a string that reads as a day is that day's stamp. */
  lemma ParseDatestampExact(s: string)
    requires ParseDatestamp(s).Some?
    ensures Datestamp(ParseDatestamp(s).value) == s
  {
    var d := ParseDatestamp(s).value;
    Pad2OfValue(s[5..7]);
    Pad2OfValue(s[8..]);
    Pad4OfValue(s[..4]);
    assert s == s[..4] + ("-" + (s[5..7] + ("-" + s[8..])));
  }

  lemma DigitsValueFour(s: string)
    requires |s| == 4 && Text.AllDigits(s)
    ensures Text.DigitsValue(s) == Text.DigitsValue(s[..2]) * 100 + Text.DigitsValue(s[2..])
  {
    assert s[..3][..2] == s[..2] && s[..2][..1] == s[..1] && s[..1][..0] == [];
    assert s[2..][..1] == [s[2]] && s[2..][..1][..0] == [];
    Text.DigitsValueTwo(s[..2]);
    Text.DigitsValueTwo(s[2..]);
  }
}
