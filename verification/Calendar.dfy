/** Dates, times of day and instants as QDate, QTime and QDateTime count them in UTC, from the
    year 1 on. */
module Calendar {
  datatype Date = Date(year: int, month: int, day: int)

  datatype Time = Time(hour: int, minute: int, second: int)

  /** A date with the milliseconds since its midnight. */
  datatype Instant = Instant(date: Date, ms: int)

  predicate IsLeap(year: int) {
    year % 4 == 0 && (year % 100 != 0 || year % 400 == 0)
  }

  function DaysInMonth(year: int, month: int): (n: int)
    ensures 28 <= n <= 31
  {
    if month == 2 then (if IsLeap(year) then 29 else 28)
    else if month == 4 || month == 6 || month == 9 || month == 11 then 30
    else 31
  }

  predicate IsDate(d: Date) {
    1 <= d.year && 1 <= d.month <= 12 && 1 <= d.day <= DaysInMonth(d.year, d.month)
  }

  predicate IsTime(t: Time) {
    0 <= t.hour < 24 && 0 <= t.minute < 60 && 0 <= t.second < 60
  }

  predicate IsInstant(x: Instant) {
    IsDate(x.date) && 0 <= x.ms < 86_400_000
  }

  /** The order of dates, which is lexicographic. */
  predicate AtMost(c: Date, d: Date) {
    c.year < d.year || (c.year == d.year && (c.month < d.month || (c.month == d.month && c.day <= d.day)))
  }

  predicate Before(x: Instant, y: Instant) {
    (x.date != y.date && AtMost(x.date, y.date)) || (x.date == y.date && x.ms < y.ms)
  }

  /** The days before a month in its year. */
  function DaysBeforeMonth(year: int, month: int): int
    requires 1 <= month <= 13
  {
    if month == 1 then 0 else DaysBeforeMonth(year, month - 1) + DaysInMonth(year, month - 1)
  }

  /** The days before a year, from the start of the year 1. */
  function DaysBeforeYear(year: int): int {
    var y := year - 1;
    365 * y + y / 4 - y / 100 + y / 400
  }

  /** The number of a day; 1 January of the year 1 is day 1. */
  function DayNumber(d: Date): int
    requires IsDate(d)
  {
    DaysBeforeYear(d.year) + DaysBeforeMonth(d.year, d.month) + d.day
  }

  /** From 1, Monday, to 7, Sunday. */
  function DayOfWeek(d: Date): (w: int)
    requires IsDate(d)
    ensures 1 <= w <= 7
  {
    (DayNumber(d) - 1) % 7 + 1
  }

  /** The milliseconds from the start of the year 1. */
  function Milliseconds(x: Instant): int
    requires IsDate(x.date)
  {
    86_400_000 * DayNumber(x.date) + x.ms
  }

  /** QDateTime::secsTo: the whole seconds from x to y, cut off toward zero. */
  function SecsTo(x: Instant, y: Instant): int
    requires IsDate(x.date) && IsDate(y.date)
  {
    var ms := Milliseconds(y) - Milliseconds(x);
    if 0 <= ms then ms / 1000 else -(-ms / 1000)
  }

  function SecondOfDay(t: Time): int {
    3600 * t.hour + 60 * t.minute + t.second
  }

  /** The time of an instant without its milliseconds. */
  function TimeOf(x: Instant): (t: Time)
    ensures IsInstant(x) ==> IsTime(t) && SecondOfDay(t) == x.ms / 1000
  {
    var s := x.ms / 1000;
    var m := s / 60;
    Time(m / 60, m % 60, s % 60)
  }

  function At(d: Date, t: Time): Instant {
    Instant(d, 1000 * SecondOfDay(t))
  }

  lemma {:induction false} TimeOfAt(d: Date, t: Time)
    requires IsTime(t)
    ensures TimeOf(At(d, t)) == t && 0 <= At(d, t).ms < 86_400_000
  {
    var m := 60 * t.hour + t.minute;
    var s := 60 * m + t.second;
    assert At(d, t).ms == 1000 * s && 1000 * s / 1000 == s && s / 60 == m;
  }

  lemma {:induction false} MonthsAreOrdered(year: int, m: int, n: int)
    requires 1 <= m <= n <= 13
    ensures DaysBeforeMonth(year, m) <= DaysBeforeMonth(year, n)
    ensures m < n ==> DaysBeforeMonth(year, m) + DaysInMonth(year, m) <= DaysBeforeMonth(year, n)
    decreases n - m
  {
    if m < n {
      MonthsAreOrdered(year, m + 1, n);
    }
  }

  lemma {:induction false} MonthsInYear(year: int)
    ensures DaysBeforeMonth(year, 13) == 365 + if IsLeap(year) then 1 else 0
  {
    hide IsLeap;
    var leap := if IsLeap(year) then 1 else 0;
    assert DaysBeforeMonth(year, 2) == 31;
    assert DaysBeforeMonth(year, 3) == 59 + leap;
    assert DaysBeforeMonth(year, 5) == 120 + leap;
    assert DaysBeforeMonth(year, 7) == 181 + leap;
    assert DaysBeforeMonth(year, 9) == 243 + leap;
    assert DaysBeforeMonth(year, 11) == 304 + leap;
  }

  /** The months add up to the length of the year, by which DaysBeforeYear steps. */
  lemma {:induction false} MonthsFillYear(year: int)
    ensures DaysBeforeYear(year) + DaysBeforeMonth(year, 13) == DaysBeforeYear(year + 1)
  {
    hide DaysBeforeMonth;
    MonthsInYear(year);
    var y := year - 1;
    assert year / 4 == y / 4 + if year % 4 == 0 then 1 else 0;
    assert year / 100 == y / 100 + if year % 100 == 0 then 1 else 0;
    assert year / 400 == y / 400 + if year % 400 == 0 then 1 else 0;
    assert year % 100 == 0 ==> year % 4 == 0;
    assert year % 400 == 0 ==> year % 100 == 0;
  }

  lemma {:induction false} YearsAreOrdered(y: int, z: int)
    requires y <= z
    ensures DaysBeforeYear(y) <= DaysBeforeYear(z)
    decreases z - y
  {
    if y < z {
      MonthsFillYear(y);
      MonthsAreOrdered(y, 1, 13);
      YearsAreOrdered(y + 1, z);
    }
  }

  /** The lexicographic order of dates is the order of their day numbers. */
  lemma {:induction false} DatesAreChronological(c: Date, d: Date)
    requires IsDate(c) && IsDate(d)
    ensures AtMost(c, d) <==> DayNumber(c) <= DayNumber(d)
    ensures DayNumber(c) == DayNumber(d) ==> c == d
  {
    hide DaysBeforeYear, DaysBeforeMonth, DaysInMonth;
    if c.year != d.year {
      var first, second := if c.year < d.year then c else d, if c.year < d.year then d else c;
      MonthsAreOrdered(first.year, first.month, 13);
      MonthsAreOrdered(second.year, 1, second.month);
      MonthsFillYear(first.year);
      YearsAreOrdered(first.year + 1, second.year);
      FirstMonth(second.year);
    } else if c.month < d.month {
      MonthsAreOrdered(c.year, c.month, d.month);
    } else if d.month < c.month {
      MonthsAreOrdered(c.year, d.month, c.month);
    }
  }

  lemma {:induction false} FirstMonth(year: int)
    ensures DaysBeforeMonth(year, 1) == 0
  {
  }

  /** So the order of instants is the order of their milliseconds. */
  lemma {:induction false} InstantsAreChronological(x: Instant, y: Instant)
    requires IsInstant(x) && IsInstant(y)
    ensures Before(x, y) <==> Milliseconds(x) < Milliseconds(y)
  {
    hide DayNumber, DaysInMonth;
    DatesAreChronological(x.date, y.date);
    DatesAreChronological(y.date, x.date);
  }

  /** The days of the week are right: 1 January 1970 was a Thursday. */
  lemma {:induction false} EpochIsThursday()
    ensures DayOfWeek(Date(1970, 1, 1)) == 4
  {
  }

  /** In every year these days of the twelve months fall on the same day of the week. */
  lemma {:induction false} SameDaysOfTheWeek(year: int)
    requires 1 <= year
    ensures var w, leap := DayOfWeek(Date(year, 4, 4)), year % 4 == 0 && (year % 100 != 0 || year % 400 == 0);
            && DayOfWeek(Date(year, 6, 6)) == w && DayOfWeek(Date(year, 8, 8)) == w
            && DayOfWeek(Date(year, 10, 10)) == w && DayOfWeek(Date(year, 12, 12)) == w
            && DayOfWeek(Date(year, 5, 9)) == w && DayOfWeek(Date(year, 9, 5)) == w
            && DayOfWeek(Date(year, 7, 11)) == w && DayOfWeek(Date(year, 11, 7)) == w
            && DayOfWeek(Date(year, 3, 7)) == w
            && DayOfWeek(Date(year, 2, if leap then 29 else 28)) == w
            && DayOfWeek(Date(year, 1, if leap then 4 else 3)) == w
  {
    hide DaysBeforeYear, DaysBeforeMonth, DayOfWeek;
    MonthsInOrder(year);
    FirstMonth(year);
    var april, leap := Date(year, 4, 4), if IsLeap(year) then 1 else 0;
    WeeksApart(april, Date(year, 6, 6), 9);
    WeeksApart(april, Date(year, 8, 8), 18);
    WeeksApart(april, Date(year, 10, 10), 27);
    WeeksApart(april, Date(year, 12, 12), 36);
    WeeksApart(april, Date(year, 5, 9), 5);
    WeeksApart(april, Date(year, 9, 5), 22);
    WeeksApart(april, Date(year, 7, 11), 14);
    WeeksApart(april, Date(year, 11, 7), 31);
    WeeksApart(april, Date(year, 3, 7), -4);
    WeeksApart(april, Date(year, 2, 28 + leap), -5);
    WeeksApart(april, Date(year, 1, 3 + leap), -13);
  }

  lemma {:induction false} WeeksApart(c: Date, d: Date, weeks: int)
    requires IsDate(c) && IsDate(d) && DayNumber(d) == DayNumber(c) + 7 * weeks
    ensures DayOfWeek(d) == DayOfWeek(c)
  {
    hide DayNumber, IsDate;
  }

  lemma {:induction false} MonthsInOrder(year: int)
    ensures var leap := if IsLeap(year) then 1 else 0;
            && DaysBeforeMonth(year, 2) == 31 && DaysBeforeMonth(year, 3) == 59 + leap
            && DaysBeforeMonth(year, 4) == 90 + leap && DaysBeforeMonth(year, 5) == 120 + leap
            && DaysBeforeMonth(year, 6) == 151 + leap && DaysBeforeMonth(year, 7) == 181 + leap
            && DaysBeforeMonth(year, 8) == 212 + leap && DaysBeforeMonth(year, 9) == 243 + leap
            && DaysBeforeMonth(year, 10) == 273 + leap && DaysBeforeMonth(year, 11) == 304 + leap
            && DaysBeforeMonth(year, 12) == 334 + leap
  {
  }

  /** A thousand million seconds after the start of 1970 it was 1:46:40 on 9 September 2001. */
  lemma {:induction false} ThousandMillionSeconds()
    ensures Milliseconds(At(Date(2001, 9, 9), Time(1, 46, 40))) - Milliseconds(Instant(Date(1970, 1, 1), 0))
            == 1_000_000_000_000
  {
    MonthsInOrder(2001);
    FirstMonth(1970);
    hide DaysBeforeMonth;
  }
}
