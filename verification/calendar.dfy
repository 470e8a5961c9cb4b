/**
 * The proleptic Gregorian calendar as Python's datetime module implements it, restricted to
 * whole hours: validity of a date-hour, its ordinal, the one-hour step, the weekday and str().
 */
module Calendar {
  import opened Results
  import opened Text

  const MinYear := 1
  const MaxYear := 9999

  /** A datetime whose minutes and seconds are zero. */
  datatype DateHour = DateHour(year: int, month: int, day: int, hour: int)

  predicate IsLeapYear(y: int) {
    y % 4 == 0 && (y % 100 != 0 || y % 400 == 0)
  }

  function DaysInYear(y: int): int {
    if IsLeapYear(y) then 366 else 365
  }

  function DaysInMonth(y: int, m: int): (n: int)
    requires 1 <= m <= 12
    ensures 28 <= n <= 31
  {
    if m == 2 then (if IsLeapYear(y) then 29 else 28)
    else if m == 4 || m == 6 || m == 9 || m == 11 then 30
    else 31
  }

  /** Days in year y before the first of month m. */
  function DaysBeforeMonth(y: int, m: int): int
    requires 1 <= m <= 12
  {
    var common :=
      if m == 1 then 0 else if m == 2 then 31 else if m == 3 then 59 else if m == 4 then 90
      else if m == 5 then 120 else if m == 6 then 151 else if m == 7 then 181
      else if m == 8 then 212 else if m == 9 then 243 else if m == 10 then 273
      else if m == 11 then 304 else 334;
    common + (if m > 2 && IsLeapYear(y) then 1 else 0)
  }

  /** Days in the years 1 .. y-1. */
  function DaysBeforeYear(y: int): int
    requires y >= 1
  {
    if y == 1 then 0 else DaysBeforeYear(y - 1) + DaysInYear(y - 1)
  }

  predicate ValidDate(y: int, m: int, d: int) {
    MinYear <= y <= MaxYear && 1 <= m <= 12 && 1 <= d <= DaysInMonth(y, m)
  }

  predicate Valid(t: DateHour) {
    ValidDate(t.year, t.month, t.day) && 0 <= t.hour <= 23
  }

  /** The range of a C int: datetime converts each field to one before any other check. */
  const IntMin := -0x8000_0000
  const IntMax := 0x7FFF_FFFF

  predicate FitsCInt(x: int) {
    IntMin <= x <= IntMax
  }

  /**
   * The exception dt.date(y, m, d) raises, in the order CPython raises them: an OverflowError
   * when a field does not fit a C int, then a ValueError for the year, the month, the day.
   */
  function DateCheck(y: int, m: int, d: int): (r: Option<Error>)
    ensures r.None? <==> ValidDate(y, m, d)
    ensures !(FitsCInt(y) && FitsCInt(m) && FitsCInt(d)) ==> r == Some(DateOverflowError)
    ensures FitsCInt(y) && FitsCInt(m) && FitsCInt(d) ==>
      && (!(MinYear <= y <= MaxYear) ==> r == Some(DateValueError(YearOutOfRange)))
      && (MinYear <= y <= MaxYear && !(1 <= m <= 12) ==> r == Some(DateValueError(MonthOutOfRange)))
      && (MinYear <= y <= MaxYear && 1 <= m <= 12 && !(1 <= d <= DaysInMonth(y, m)) ==>
            r == Some(DateValueError(DayOutOfRange)))
  {
    if !(FitsCInt(y) && FitsCInt(m) && FitsCInt(d)) then Some(DateOverflowError)
    else if !(MinYear <= y <= MaxYear) then Some(DateValueError(YearOutOfRange))
    else if !(1 <= m <= 12) then Some(DateValueError(MonthOutOfRange))
    else if !(1 <= d <= DaysInMonth(y, m)) then Some(DateValueError(DayOutOfRange))
    else None
  }

  /**
   * The exception dt.datetime(y, m, d, h) raises: an OverflowError when any of the four fields
   * does not fit a C int, then the date's ValueError, then the hour's.
   */
  function DateHourCheck(t: DateHour): (r: Option<Error>)
    ensures r.None? <==> Valid(t)
    ensures !FitsCInt(t.hour) ==> r == Some(DateOverflowError)
    ensures FitsCInt(t.hour) && !ValidDate(t.year, t.month, t.day) ==> r == DateCheck(t.year, t.month, t.day)
    ensures FitsCInt(t.hour) && ValidDate(t.year, t.month, t.day) && !(0 <= t.hour <= 23) ==>
      r == Some(DateValueError(HourOutOfRange))
  {
    if !(FitsCInt(t.year) && FitsCInt(t.month) && FitsCInt(t.day) && FitsCInt(t.hour)) then
      Some(DateOverflowError)
    else
      match DateCheck(t.year, t.month, t.day)
      case Some(e) => Some(e)
      case None => if 0 <= t.hour <= 23 then None else Some(DateValueError(HourOutOfRange))
  }

  /** date.toordinal(): 0001-01-01 is day 1. */
  function Ordinal(y: int, m: int, d: int): int
    requires ValidDate(y, m, d)
  {
    DaysBeforeYear(y) + DaysBeforeMonth(y, m) + d
  }

  /** Whole hours since 0001-01-01 00:00. */
  function HourIndex(t: DateHour): int
    requires Valid(t)
  {
    (Ordinal(t.year, t.month, t.day) - 1) * 24 + t.hour
  }

  /** datetime's `<` on values with zero minutes: lexicographic on the fields. */
  predicate Less(a: DateHour, b: DateHour) {
    || a.year < b.year
    || (a.year == b.year && a.month < b.month)
    || (a.year == b.year && a.month == b.month && a.day < b.day)
    || (a.year == b.year && a.month == b.month && a.day == b.day && a.hour < b.hour)
  }

  /** The latest hour datetime can represent; adding an hour to it overflows. */
  const LastHour := DateHour(MaxYear, 12, 31, 23)

  /** t + timedelta(hours=1). */
  function NextHour(t: DateHour): (r: DateHour)
    requires Valid(t) && t != LastHour
    ensures Valid(r)
    ensures HourIndex(r) == HourIndex(t) + 1
    ensures Less(t, r)
  {
    if t.hour < 23 then DateHour(t.year, t.month, t.day, t.hour + 1)
    else if t.day < DaysInMonth(t.year, t.month) then DateHour(t.year, t.month, t.day + 1, 0)
    else if t.month < 12 then
      MonthStep(t.year, t.month);
      DateHour(t.year, t.month + 1, 1, 0)
    else
      MonthStep(t.year, 12);
      DateHour(t.year + 1, 1, 1, 0)
  }

  /** The month after m starts DaysInMonth(y, m) days later; December ends the year. */
  lemma MonthStep(y: int, m: int)
    requires 1 <= m <= 12
    ensures m < 12 ==> DaysBeforeMonth(y, m + 1) == DaysBeforeMonth(y, m) + DaysInMonth(y, m)
    ensures m == 12 ==> DaysBeforeMonth(y, m) + DaysInMonth(y, m) == DaysInYear(y)
  {
  }

  /**
   * The day count agrees with the closed form datetime uses to compute ordinals:
   * 365 days a year plus one for each multiple of 4, less the multiples of 100, plus those of 400.
   */
  lemma {:induction false} DaysBeforeYearClosedForm(y: int)
    requires y >= 1
    ensures var p := y - 1; DaysBeforeYear(y) == p * 365 + p / 4 - p / 100 + p / 400
  {
    if y > 1 {
      DaysBeforeYearClosedForm(y - 1);
      var p := y - 1;
      assert DaysBeforeYear(y) == DaysBeforeYear(p) + DaysInYear(p);
      LeapStep(p);
      LeapDays(p);
    }
  }

  /** A year has 365 days, one more if a multiple of 4, less if of 100, more again if of 400. */
  lemma LeapDays(p: int)
    ensures DaysInYear(p) == 365 + (if p % 4 == 0 then 1 else 0) - (if p % 100 == 0 then 1 else 0)
                                 + (if p % 400 == 0 then 1 else 0)
  {
    if p % 400 == 0 {
      var k := p / 400;
      assert p == 100 * (4 * k);
      assert p == 4 * (100 * k);
    } else if p % 100 == 0 {
      var k := p / 100;
      assert p == 4 * (25 * k);
    }
  }

  /**
   * Stepping p down by one lowers p / 4, p / 100 and p / 400 by one exactly when p is a
   * multiple of 4, 100 and 400 respectively.
   */
  lemma LeapStep(p: int)
    requires p >= 1
    ensures p / 4 - (p - 1) / 4 == (if p % 4 == 0 then 1 else 0)
    ensures p / 100 - (p - 1) / 100 == (if p % 100 == 0 then 1 else 0)
    ensures p / 400 - (p - 1) / 400 == (if p % 400 == 0 then 1 else 0)
  {
    Step4(p);
    Step100(p);
    Step400(p);
  }

  lemma Step4(p: int)
    requires p >= 1
    ensures p / 4 - (p - 1) / 4 == (if p % 4 == 0 then 1 else 0)
  {
  }

  lemma Step100(p: int)
    requires p >= 1
    ensures p / 100 - (p - 1) / 100 == (if p % 100 == 0 then 1 else 0)
  {
  }

  lemma Step400(p: int)
    requires p >= 1
    ensures p / 400 - (p - 1) / 400 == (if p % 400 == 0 then 1 else 0)
  {
  }

  /** Whole years before b, counted from a, add at least 365 days each. */
  lemma {:induction false} DaysBeforeYearGrows(a: int, b: int)
    requires 1 <= a <= b
    ensures DaysBeforeYear(b) >= DaysBeforeYear(a) + 365 * (b - a)
  {
    if a < b {
      DaysBeforeYearGrows(a, b - 1);
    }
  }

  /** A date lies within its year: its ordinal is below the ordinal of the next 1 January. */
  lemma WithinYear(y: int, m: int, d: int)
    requires ValidDate(y, m, d)
    ensures DaysBeforeYear(y) < Ordinal(y, m, d) <= DaysBeforeYear(y) + DaysInYear(y)
  {
  }

  /** Chronological order is the order of hour indices. */
  lemma LessIsIndexOrder(a: DateHour, b: DateHour)
    requires Valid(a) && Valid(b)
    ensures Less(a, b) <==> HourIndex(a) < HourIndex(b)
  {
    if a.year < b.year {
      WithinYear(a.year, a.month, a.day);
      WithinYear(b.year, b.month, b.day);
      DaysBeforeYearGrows(a.year + 1, b.year);
    } else if b.year < a.year {
      WithinYear(a.year, a.month, a.day);
      WithinYear(b.year, b.month, b.day);
      DaysBeforeYearGrows(b.year + 1, a.year);
    }
  }

  /** Distinct valid date-hours have distinct hour indices. */
  lemma IndexInjective(a: DateHour, b: DateHour)
    requires Valid(a) && Valid(b) && HourIndex(a) == HourIndex(b)
    ensures a == b
  {
    LessIsIndexOrder(a, b);
    LessIsIndexOrder(b, a);
  }

  /** date.weekday(): Monday is 0, and 0001-01-01 was a Monday. */
  function Weekday(y: int, m: int, d: int): (w: int)
    requires ValidDate(y, m, d)
    ensures 0 <= w < 7
  {
    (Ordinal(y, m, d) + 6) % 7
  }

  /** Crossing midnight moves the weekday on by one. */
  lemma WeekdayAfterMidnight(t: DateHour)
    requires Valid(t) && t != LastHour && t.hour == 23
    ensures var n := NextHour(t);
      Weekday(n.year, n.month, n.day) == (Weekday(t.year, t.month, t.day) + 1) % 7
  {
    var n := NextHour(t);
    var o := Ordinal(t.year, t.month, t.day);
    assert n.hour == 0;
    assert Ordinal(n.year, n.month, n.day) == o + 1;
    WeekdayStep(o);
  }

  /** The weekday of the day after is one more, Sunday wrapping to Monday. */
  lemma WeekdayStep(o: int)
    ensures (o + 1 + 6) % 7 == ((o + 6) % 7 + 1) % 7
  {
  }

  /** 1 January 2020 was a Wednesday. */
  lemma WeekdayOfNewYear2020()
    ensures Weekday(2020, 1, 1) == 2
  {
    DaysBeforeYearClosedForm(2020);
  }

  /** "%0*d": str(n) with zeros in front up to `width` characters. */
  function Pad(n: nat, width: nat): (s: string)
    ensures AllDigits(s) && DigitsValue(s) == n
    ensures |s| == if |NatToString(n)| >= width then |NatToString(n)| else width
    decreases width
  {
    if |NatToString(n)| >= width then NatToString(n)
    else
      var rest := Pad(n, width - 1);
      LeadingZero(rest);
      "0" + rest
  }

  /** str(dt.datetime(y, m, d, h)): "YYYY-MM-DD HH:00:00". */
  function DatetimeText(t: DateHour): (s: string)
    requires Valid(t)
    ensures |s| == 19
    ensures s[4] == '-' && s[7] == '-' && s[10] == ' ' && s[13..] == ":00:00"
    ensures AllDigits(s[..4]) && DigitsValue(s[..4]) == t.year
    ensures AllDigits(s[5..7]) && DigitsValue(s[5..7]) == t.month
    ensures AllDigits(s[8..10]) && DigitsValue(s[8..10]) == t.day
    ensures AllDigits(s[11..13]) && DigitsValue(s[11..13]) == t.hour
  {
    NatToStringShort(t.year, 4);
    NatToStringShort(t.month, 2);
    NatToStringShort(t.day, 2);
    NatToStringShort(t.hour, 2);
    var y, m, d, h := Pad(t.year, 4), Pad(t.month, 2), Pad(t.day, 2), Pad(t.hour, 2);
    DatetimeLayout(y, m, d, h);
    y + "-" + m + "-" + d + " " + h + ":00:00"
  }

  /** Where the four fields and the separators sit in "YYYY-MM-DD HH:00:00". */
  lemma DatetimeLayout(y: string, m: string, d: string, h: string)
    requires |y| == 4 && |m| == 2 && |d| == 2 && |h| == 2
    ensures var s := y + "-" + m + "-" + d + " " + h + ":00:00";
      && |s| == 19
      && s[4] == '-' && s[7] == '-' && s[10] == ' ' && s[13..] == ":00:00"
      && s[..4] == y && s[5..7] == m && s[8..10] == d && s[11..13] == h
  {
    var s := y + "-" + m + "-" + d + " " + h + ":00:00";
    assert s[..4] == y;
    assert s[5..7] == m;
    assert s[8..10] == d;
    assert s[11..13] == h;
  }
}
