/** What repeated entries in the lists of a schedule do to nextRun. */
module RepeatedEntries {
  import opened MachineWords
  import opened Calendar
  import opened Schedules
  import opened NextRuns

  /** The reference hour is used up and listed twice; or the reference day is listed twice and no time
      is left on it; or the reference month is listed twice, no run is left in it, and a date of it is
      not after the reference. */
  ghost predicate Repeats(s: Schedule, from: Instant)
    requires TimesAreSound(s)
  {
    || (ListsDate(s, from.date) && StaysInHour(s, TimeOf(from)))
    || (&& ListsDate(s, from.date) && !ListedOnce(s.daysOfMonth, from.date.day)
        && forall t :: !IsFirstTime(s, TimeOf(from), t))
    || (&& !ListedOnce(s.months, from.date.month)
        && (forall d :: ListsDate(s, d) && InReferenceMonth(from, d) ==>
              && AtMost(d, from.date)
              && (d == from.date ==> forall t :: !IsFirstTime(s, TimeOf(from), t)))
        && exists d :: ListsDate(s, d) && InReferenceMonth(from, d) && AtMost(d, from.date))
  }

  lemma {:induction false} LeastBackDate(s: Schedule, from: Instant, last: Option<Instant>, d: Date) returns (e: Date)
    requires TimesAreSound(s) && IsBackDate(s, from, last, d)
    ensures IsBackDate(s, from, last, e) && forall c :: IsBackDate(s, from, last, c) ==> AtMost(e, c)
    decreases d.day
  {
    hide ListsDate, TodayAgain;
    if c :| IsBackDate(s, from, last, c) && c.day < d.day {
      assert 1 <= c.day by { BackDateExists(s, from, last, c); }
      e := LeastBackDate(s, from, last, c);
    } else {
      e := d;
    }
  }

  lemma {:induction false} BackDateExists(s: Schedule, from: Instant, last: Option<Instant>, d: Date)
    requires TimesAreSound(s) && IsBackDate(s, from, last, d)
    ensures IsDate(d)
  {
  }

  lemma {:induction false} StayingMisleads(s: Schedule, from: Instant)
    requires IsSound(s) && IsReference(from) && s.end.None?
    requires ListsDate(s, from.date) && StaysInHour(s, TimeOf(from))
    ensures Misled(s, from, None)
  {
    hide ListsDate, TimeOf, StaysInHour, GoesBackTo;
    if d :| GoesBackTo(s, from, None, d) {
      assert Strays(s, from, None, At(d, DayStart(s)));
    } else {
      var t := HourStart(s, TimeOf(from).hour);
      assert GivesTime(s, TimeOf(from), t) && !Executed(from, None, At(from.date, t));
      assert Strays(s, from, None, At(from.date, t));
    }
  }

  lemma {:induction false} GoingBackMisleads(s: Schedule, from: Instant, d: Date)
    requires IsSound(s) && IsReference(from) && s.end.None? && GoesBackTo(s, from, None, d)
    ensures Misled(s, from, None)
  {
    hide GoesBackTo;
    assert Strays(s, from, None, At(d, DayStart(s)));
  }

  /** Without a last execution these are all the schedules that mislead nextRun, unless the end hides
      what it finds. */
  lemma {:induction false} RepeatsMislead(s: Schedule, from: Instant)
    requires IsSound(s) && IsReference(from)
    ensures Misled(s, from, None) ==> Repeats(s, from)
    ensures s.end.None? ==> (Misled(s, from, None) <==> Repeats(s, from))
  {
    hide ListsDate, TimeOf, StaysInHour, IsFirstTime, ListedOnce, DayStart;
    if ListsDate(s, from.date) && StaysInHour(s, TimeOf(from)) {
      if s.end.None? {
        StayingMisleads(s, from);
      }
    } else if Repeats(s, from) {
      if s.end.None? {
        if TakesTodayAgain(s, from, None) {
          GoingBackMisleads(s, from, from.date);
        } else {
          var d :| ListsDate(s, d) && InReferenceMonth(from, d) && AtMost(d, from.date);
          assert IsBackDate(s, from, None, d);
          var e := LeastBackDate(s, from, None, d);
          GoingBackMisleads(s, from, e);
        }
      }
    } else if d :| GoesBackTo(s, from, None, d) {
      assert forall t :: IsFirstTime(s, TimeOf(from), t) && ListsDate(s, from.date) ==> GivesTime(s, TimeOf(from), t);
      assert false;
    }
  }

  lemma {:induction false} ListedOnceDoesNotStray(s: Schedule, from: Instant, last: Option<Instant>)
    requires TimesAreSound(s) && ListedOnce(s.months, from.date.month)
    requires ListedOnce(s.daysOfMonth, from.date.day) && ListedOnce(s.hours, TimeOf(from).hour)
    ensures !StaysInHour(s, TimeOf(from)) && forall d :: !GoesBackTo(s, from, last, d)
  {
    hide ListedOnce, ListsDate, TimeOf, TodayAgain, TodayRuns, IsBackDate;
  }

  /** A schedule that lists the month, day and hour of the reference once misleads nextRun only by the
      reference date being given up, which takes a last execution. */
  lemma {:induction false} ListedOnceIsEnough(s: Schedule, from: Instant, last: Option<Instant>)
    requires TimesAreSound(s) && IsReference(from) && ListedOnce(s.months, from.date.month)
    requires ListedOnce(s.daysOfMonth, from.date.day) && ListedOnce(s.hours, TimeOf(from).hour)
    ensures Misled(s, from, last) ==> DayIsGivenUp(s, from, last) && last.Some?
    ensures s.end.None? ==> (Misled(s, from, last) <==> DayIsGivenUp(s, from, last))
  {
    hide ListedOnce, ListsDate, TimeOf, TodayRuns, GoesBackTo, StaysInHour, GivesTime, IsNext;
    ListedOnceDoesNotStray(s, from, last);
    if DayIsGivenUp(s, from, last) {
      var x := GivenUpIsLeft(s, from, last);
      assert Strays(s, from, last, x);
    }
  }

  // ----- two inputs that fail -----

  const WEEK := [1, 2, 3, 4, 5, 6, 7]

  /** A run on 1 March at midnight, with the month listed twice. */
  const MARCH_TWICE: Schedule := Schedule(None, None, [3, 3], WEEK, [1], [0], [0], [0])

  /** A run on every 15th at eight, with the day listed twice. */
  const DAY_TWICE: Schedule :=
    Schedule(None, None, [1, 2, 3, 4, 5, 6, 7, 8, 9, 10, 11, 12], WEEK, [15, 15], [8], [0], [0])

  lemma {:induction false} EveryDayOfTheWeek(d: Date)
    requires IsDate(d)
    ensures DayOfWeek(d) in WEEK
  {
    hide DayOfWeek;
    assert WEEK[DayOfWeek(d) - 1] == DayOfWeek(d);
  }

  lemma {:induction false} MarchTwice(d: Date)
    ensures IsSound(MARCH_TWICE) && TimesAreSound(MARCH_TWICE) && DayStart(MARCH_TWICE) == Time(0, 0, 0)
    ensures !ListedOnce(MARCH_TWICE.months, 3)
    ensures ListsDate(MARCH_TWICE, d) <==> IsDate(d) && d.month == 3 && d.day == 1
  {
    hide DayOfWeek;
    assert MARCH_TWICE.months[0] == 3 && MARCH_TWICE.months[1] == 3;
    if IsDate(d) {
      EveryDayOfTheWeek(d);
    }
  }

  lemma {:induction false} DayTwice()
    ensures IsSound(DAY_TWICE) && TimesAreSound(DAY_TWICE) && DayStart(DAY_TWICE) == Time(8, 0, 0)
    ensures !ListedOnce(DAY_TWICE.daysOfMonth, 15) && ListedOnce(DAY_TWICE.hours, 9)
    ensures forall t :: ListsTime(DAY_TWICE, t) <==> t == Time(8, 0, 0)
  {
    assert DAY_TWICE.daysOfMonth[0] == 15 && DAY_TWICE.daysOfMonth[1] == 15;
  }

  lemma {:induction false} EveryFifteenth(d: Date)
    requires IsDate(d) && d.day == 15
    ensures ListsDate(DAY_TWICE, d)
  {
    hide DayOfWeek;
    EveryDayOfTheWeek(d);
    assert DAY_TWICE.months[d.month - 1] == d.month && DAY_TWICE.daysOfMonth[0] == 15;
  }

  lemma {:induction false} BackIsReturned(s: Schedule, from: Instant, d: Date)
    requires IsSound(s) && IsReference(from) && s.end.None? && GoesBackTo(s, from, None, d)
    ensures Returns(s, from, None, At(d, DayStart(s))) && Misled(s, from, None)
  {
    hide GoesBackTo, DayStart;
    BackIsPast(s, from, None, d);
    GoingBackMisleads(s, from, d);
    assert At(d, DayStart(s)).date == d;
  }

  lemma {:induction false} OnlyDateIsBack(s: Schedule, from: Instant, d: Date)
    requires TimesAreSound(s) && !ListedOnce(s.months, from.date.month)
    requires ListsDate(s, d) && InReferenceMonth(from, d) && d.day < from.date.day
    requires forall e :: ListsDate(s, e) && InReferenceMonth(from, e) ==> e == d
    ensures GoesBackTo(s, from, None, d)
  {
    hide ListsDate, ListedOnce, GivesTime, TimesAreSound;
  }

  /** Asked on 15 March, nextRun returns 1 March of the same year. */
  lemma {:induction false} MonthTwiceFails(year: int)
    requires 1 <= year
    ensures IsSound(MARCH_TWICE)
    ensures var from := Instant(Date(year, 3, 15), 0);
            Returns(MARCH_TWICE, from, None, At(Date(year, 3, 1), Time(0, 0, 0))) && Misled(MARCH_TWICE, from, None)
  {
    hide DayStart, ListsDate, ListedOnce, IsSound, TimesAreSound, Returns, Misled, GoesBackTo;
    var from, d := Instant(Date(year, 3, 15), 0), Date(year, 3, 1);
    MarchTwice(d);
    forall e | ListsDate(MARCH_TWICE, e) && InReferenceMonth(from, e) ensures e == d {
      MarchTwice(e);
    }
    OnlyDateIsBack(MARCH_TWICE, from, d);
    BackIsReturned(MARCH_TWICE, from, d);
  }

  /** Asked on the 15th at nine, nextRun returns eight o'clock of the same day. */
  lemma {:induction false} DayTwiceFails(year: int, month: int)
    requires 1 <= year && 1 <= month <= 12
    ensures IsSound(DAY_TWICE)
    ensures var d := Date(year, month, 15);
            var from := At(d, Time(9, 0, 0));
            Returns(DAY_TWICE, from, None, At(d, Time(8, 0, 0))) && Misled(DAY_TWICE, from, None)
  {
    hide DayOfWeek, DayStart, ListsDate, ListsTime, ListedOnce, IsSound, TimesAreSound, Returns, TimeOf;
    var d := Date(year, month, 15);
    var from := At(d, Time(9, 0, 0));
    TimeOfAt(d, Time(9, 0, 0));
    DayTwice();
    EveryFifteenth(d);
    forall t ensures !GivesTime(DAY_TWICE, TimeOf(from), t) {
      assert ListsTime(DAY_TWICE, t) ==> t == Time(8, 0, 0);
    }
    assert TakesTodayAgain(DAY_TWICE, from, None);
    BackIsReturned(DAY_TWICE, from, d);
  }
}
