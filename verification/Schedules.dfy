/** What a calendar schedule lists, and which instant is due next. */
module Schedules {
  import opened MachineWords
  import opened Calendar

  datatype Schedule = Schedule(
    start: Option<Instant>, end: Option<Instant>, months: seq<int>, daysOfWeek: seq<int>,
    daysOfMonth: seq<int>, hours: seq<int>, minutes: seq<int>, seconds: seq<int>)

  predicate Sorted(xs: seq<int>) {
    forall i, j :: 0 <= i < j < |xs| ==> xs[i] <= xs[j]
  }

  predicate InRange(xs: seq<int>, end: int) {
    forall x <- xs :: 0 <= x < end
  }

  /** The lists of the times of day: not empty, sorted, with values that make times. */
  predicate TimesAreSound(s: Schedule) {
    && s.hours != [] && s.minutes != [] && s.seconds != []
    && Sorted(s.hours) && Sorted(s.minutes) && Sorted(s.seconds)
    && InRange(s.hours, 24) && InRange(s.minutes, 60) && InRange(s.seconds, 60)
  }

  /** The lists are sorted by the constructor; beyond that they must not be empty where isValid asks
      for it. Months and days outside the calendar are allowed. */
  predicate IsSound(s: Schedule) {
    && TimesAreSound(s)
    && s.months != [] && Sorted(s.months) && Sorted(s.daysOfMonth)
    && (s.start.Some? ==> IsInstant(s.start.value))
  }

  predicate ListedOnce(xs: seq<int>, x: int) {
    forall i, j :: 0 <= i < j < |xs| ==> !(xs[i] == x && xs[j] == x)
  }

  predicate ListsTime(s: Schedule, t: Time) {
    t.hour in s.hours && t.minute in s.minutes && t.second in s.seconds
  }

  predicate ListsDate(s: Schedule, d: Date) {
    IsDate(d) && d.month in s.months && d.day in s.daysOfMonth && DayOfWeek(d) in s.daysOfWeek
  }

  /** Month, day, day of the week, hour, minute and second are all listed, on the full second. */
  predicate Lists(s: Schedule, x: Instant) {
    IsInstant(x) && x.ms % 1000 == 0 && ListsDate(s, x.date) && ListsTime(s, TimeOf(x))
  }

  // ----- the time of day -----

  ghost predicate IsFirstTime(s: Schedule, from: Time, t: Time) {
    && ListsTime(s, t) && SecondOfDay(from) <= SecondOfDay(t)
    && forall u :: ListsTime(s, u) && SecondOfDay(from) <= SecondOfDay(u) ==> SecondOfDay(t) <= SecondOfDay(u)
  }

  /** No listed minute and second reach those of the reference. */
  ghost predicate NoneLeft(s: Schedule, from: Time) {
    forall m, sec :: m in s.minutes && sec in s.seconds ==> 60 * m + sec < 60 * from.minute + from.second
  }

  /** What findTime gets wrong: the hour asked for is listed twice, and in that hour no listed
      time is left. */
  ghost predicate StaysInHour(s: Schedule, from: Time) {
    !ListedOnce(s.hours, from.hour) && NoneLeft(s, from)
  }

  /** The first time of an hour. */
  function HourStart(s: Schedule, hour: int): Time
    requires TimesAreSound(s)
  {
    Time(hour, s.minutes[0], s.seconds[0])
  }

  /** The first time of a day. */
  function DayStart(s: Schedule): Time
    requires TimesAreSound(s)
  {
    HourStart(s, s.hours[0])
  }

  /** What findTime returns, if anything. */
  ghost predicate GivesTime(s: Schedule, from: Time, t: Time)
    requires TimesAreSound(s)
  {
    if StaysInHour(s, from) then t == HourStart(s, from.hour) else IsFirstTime(s, from, t)
  }

  lemma {:induction false} TimesAreOrdered(s: Schedule, t: Time, u: Time)
    requires TimesAreSound(s) && ListsTime(s, t) && ListsTime(s, u)
    ensures IsTime(t) && IsTime(u)
    ensures SecondOfDay(t) == SecondOfDay(u) ==> t == u
    ensures t.hour < u.hour ==> SecondOfDay(t) < SecondOfDay(u)
  {
  }

  // ----- the instant -----

  /** The earliest listed instant after a given date. */
  ghost predicate IsFirstAfter(s: Schedule, d: Date, x: Instant) {
    && Lists(s, x) && !AtMost(x.date, d)
    && forall z :: Lists(s, z) && !AtMost(z.date, d) ==> !Before(z, x)
  }

  /** An instant on the reference date counts as executed when it is at most a second after the
      last execution. */
  predicate Executed(from: Instant, last: Option<Instant>, x: Instant)
    requires IsDate(x.date)
  {
    && x.date == from.date && last.Some?
    && IsDate(last.value.date) && SecsTo(last.value, x) <= 1
  }

  /** A listed instant, not before the reference, that has not been executed. */
  ghost predicate IsLeft(s: Schedule, from: Instant, last: Option<Instant>, x: Instant) {
    Lists(s, x) && !Before(x, from) && !Executed(from, last, x)
  }

  /** The next run: the earliest instant that is left. */
  ghost predicate IsNext(s: Schedule, from: Instant, last: Option<Instant>, x: Instant) {
    IsLeft(s, from, last, x) && forall z :: IsLeft(s, from, last, z) ==> !Before(z, x)
  }

  /** What nextRun gets wrong after an execution: the time that findTime gives on the reference date has
      been executed, and another listed time there, not before the reference, has not. */
  ghost predicate DayIsGivenUp(s: Schedule, from: Instant, last: Option<Instant>)
    requires TimesAreSound(s)
  {
    && ListsDate(s, from.date)
    && (exists t :: GivesTime(s, TimeOf(from), t) && Executed(from, last, At(from.date, t)))
    && (exists u :: && ListsTime(s, u) && SecondOfDay(TimeOf(from)) <= SecondOfDay(u)
                    && !Executed(from, last, At(from.date, u)))
  }

  /** The later of now and the start. */
  function Later(s: Schedule, now: Instant): Instant {
    if s.start.Some? && Before(now, s.start.value) then s.start.value else now
  }

  /** Where a search starts: the later of now and the start, without milliseconds. */
  function Reference(s: Schedule, now: Instant): Instant {
    At(Later(s, now).date, TimeOf(Later(s, now)))
  }

  lemma {:induction false} ReferenceIsSound(s: Schedule, now: Instant)
    requires IsInstant(now) && (s.start.Some? ==> IsInstant(s.start.value))
    ensures var from, x := Reference(s, now), Later(s, now);
            IsInstant(from) && from.ms % 1000 == 0 && from.date == x.date && TimeOf(from) == TimeOf(x)
  {
    hide SecondOfDay, TimeOf;
    TimeOfAt(Later(s, now).date, TimeOf(Later(s, now)));
  }

  /** How far the search looks: through the second year after the reference year, but there not at
      the last entry of the list of months. */
  predicate WithinHorizon(s: Schedule, from: Instant, x: Instant)
    requires s.months != []
  {
    x.date.year <= from.date.year + 1
    || (x.date.year == from.date.year + 2 && x.date.month in s.months[..|s.months| - 1])
  }

  predicate NotAfterEnd(s: Schedule, x: Instant) {
    s.end.Some? ==> !Before(s.end.value, x)
  }

  // ----- what the definitions mean -----

  /** A next run is on schedule and not before the reference; on the reference date it is more
      than a second after the last execution. */
  lemma {:induction false} NextIsOnSchedule(s: Schedule, from: Instant, last: Option<Instant>, x: Instant)
    requires IsNext(s, from, last, x)
    ensures Lists(s, x) && !Before(x, from)
    ensures x.date == from.date && last.Some? && IsDate(last.value.date) ==> SecsTo(last.value, x) > 1
  {
    hide ListsDate, ListsTime, SecsTo;
  }

  /** What is listed between the reference and the next run has been executed. */
  lemma {:induction false} NothingIsSkipped(
    s: Schedule, from: Instant, last: Option<Instant>, x: Instant, z: Instant)
    requires IsNext(s, from, last, x) && Lists(s, z) && !Before(z, from) && Before(z, x)
    ensures last.Some? && z.date == from.date && SecsTo(last.value, z) <= 1
  {
    hide ListsDate, ListsTime, SecsTo;
  }

  /** In the one case that findTime gets wrong, what it returns is in the past. */
  lemma {:induction false} StayingInHourIsWrong(s: Schedule, from: Time)
    requires TimesAreSound(s) && StaysInHour(s, from)
    ensures ListsTime(s, HourStart(s, from.hour))
    ensures SecondOfDay(HourStart(s, from.hour)) < SecondOfDay(from)
  {
    assert s.minutes[0] in s.minutes && s.seconds[0] in s.seconds;
    var i, j :| 0 <= i < j < |s.hours| && s.hours[i] == from.hour && s.hours[j] == from.hour;
  }

  /** A run at eight on the first of every month, with the hour listed twice. */
  const HOUR_TWICE: Schedule :=
    Schedule(None, None, [1, 2, 3, 4, 5, 6, 7, 8, 9, 10, 11, 12], [1, 2, 3, 4, 5, 6, 7], [1], [8, 8], [0], [0])

  /** Such a schedule: asked at half past eight, findTime gives eight. */
  lemma {:induction false} HourTwiceFails()
    ensures TimesAreSound(HOUR_TWICE)
    ensures StaysInHour(HOUR_TWICE, Time(8, 30, 0)) && GivesTime(HOUR_TWICE, Time(8, 30, 0), Time(8, 0, 0))
  {
    assert HOUR_TWICE.hours[0] == 8 && HOUR_TWICE.hours[1] == 8;
  }

  /** A run every 29 February at midnight. */
  const LEAP_DAYS: Schedule := Schedule(None, None, [2], [1, 2, 3, 4, 5, 6, 7], [29], [0], [0], [0])

  lemma {:induction false} LeapDates(d: Date)
    ensures ListsDate(LEAP_DAYS, d) <==> IsDate(d) && d.month == 2 && d.day == 29
  {
    hide DayOfWeek, DaysInMonth;
    if IsDate(d) {
      assert LEAP_DAYS.daysOfWeek[DayOfWeek(d) - 1] == DayOfWeek(d);
    }
  }

  lemma {:induction false} LeapDayRuns(z: Instant)
    ensures Lists(LEAP_DAYS, z) <==> IsDate(z.date) && z.date.month == 2 && z.date.day == 29 && z.ms == 0
  {
    hide TimeOf, ListsDate, ListsTime, IsDate;
    LeapDates(z.date);
    MidnightOnly(TimeOf(z));
  }

  lemma {:induction false} MidnightOnly(t: Time)
    ensures ListsTime(LEAP_DAYS, t) <==> t == Time(0, 0, 0)
  {
  }

  /** The horizon matters: asked in 2022, the run of 2024 is the next one, yet it is not returned,
      since February is the last listed month. */
  lemma {:induction false} HorizonMatters()
    ensures IsSound(LEAP_DAYS)
    ensures var from, x := Instant(Date(2022, 1, 1), 0), Instant(Date(2024, 2, 29), 0);
            IsNext(LEAP_DAYS, from, None, x) && !WithinHorizon(LEAP_DAYS, from, x)
  {
    hide Lists;
    var from, x := Instant(Date(2022, 1, 1), 0), Instant(Date(2024, 2, 29), 0);
    LeapDayRuns(x);
    forall z | Lists(LEAP_DAYS, z) && !Before(z, from) ensures !Before(z, x) {
      LeapDayRuns(z);
      assert !IsLeap(2022) && !IsLeap(2023);
    }
    assert IsLeft(LEAP_DAYS, from, None, x);
  }
}
