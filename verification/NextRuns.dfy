/** Which instant nextRun finds, on every sorted schedule, and when that is the next run. */
module NextRuns {
  import opened MachineWords
  import opened Calendar
  import opened Schedules

  lemma {:induction false} ListedInstants(s: Schedule, d: Date, t: Time)
    requires TimesAreSound(s) && ListsDate(s, d) && ListsTime(s, t)
    ensures Lists(s, At(d, t)) && TimeOf(At(d, t)) == t
  {
    TimesAreOrdered(s, t, t);
    TimeOfAt(d, t);
  }

  lemma {:induction false} ListedIsAt(s: Schedule, z: Instant)
    requires Lists(s, z)
    ensures z == At(z.date, TimeOf(z))
  {
  }

  lemma {:induction false} LeastTime(s: Schedule, from: Time, u: Time) returns (t: Time)
    requires TimesAreSound(s) && ListsTime(s, u) && SecondOfDay(from) <= SecondOfDay(u)
    ensures IsFirstTime(s, from, t)
    decreases SecondOfDay(u) - SecondOfDay(from)
  {
    if v :| ListsTime(s, v) && SecondOfDay(from) <= SecondOfDay(v) < SecondOfDay(u) {
      t := LeastTime(s, from, v);
    } else {
      t := u;
    }
  }

  lemma {:induction false} DayStartIsListed(s: Schedule)
    requires TimesAreSound(s)
    ensures ListsTime(s, DayStart(s))
  {
  }

  lemma {:induction false} DayStartIsFirst(s: Schedule, u: Time)
    requires TimesAreSound(s) && ListsTime(s, u)
    ensures SecondOfDay(DayStart(s)) <= SecondOfDay(u)
  {
    var i :| 0 <= i < |s.hours| && s.hours[i] == u.hour;
    var j :| 0 <= j < |s.minutes| && s.minutes[j] == u.minute;
    var k :| 0 <= k < |s.seconds| && s.seconds[k] == u.second;
  }

  lemma {:induction false} NextIsUnique(s: Schedule, from: Instant, last: Option<Instant>, x: Instant, y: Instant)
    requires IsNext(s, from, last, x) && IsNext(s, from, last, y)
    ensures x == y
  {
    hide IsLeft;
    InstantsAreTotal(x, y);
  }

  lemma {:induction false} InstantsAreTotal(x: Instant, y: Instant)
    ensures !Before(x, y) && !Before(y, x) ==> x == y
  {
  }

  // ----- what is found -----

  /** The reference date is listed and findTime gives a time on it that has not been executed. */
  ghost predicate TodayRuns(s: Schedule, from: Instant, last: Option<Instant>)
    requires TimesAreSound(s)
  {
    && ListsDate(s, from.date)
    && exists t :: GivesTime(s, TimeOf(from), t) && !Executed(from, last, At(from.date, t))
  }

  /** The reference date is listed and findTime gives no time on it, which leaves midnight to be asked
      for; should the search come by again, it takes the day's first time. */
  ghost predicate TodayAgain(s: Schedule, from: Instant, last: Option<Instant>)
    requires TimesAreSound(s)
  {
    && ListsDate(s, from.date) && (forall t :: !GivesTime(s, TimeOf(from), t))
    && !Executed(from, last, At(from.date, DayStart(s)))
  }

  predicate InReferenceMonth(from: Instant, d: Date) {
    d.year == from.date.year && d.month == from.date.month
  }

  /** A date that the search takes when it goes through the reference month again. */
  ghost predicate IsBackDate(s: Schedule, from: Instant, last: Option<Instant>, d: Date)
    requires TimesAreSound(s)
  {
    && ListsDate(s, d) && InReferenceMonth(from, d)
    && (d.day < from.date.day || (d == from.date && TodayAgain(s, from, last)))
  }

  /** The search comes by the reference date again, when its day is listed twice, and takes it. */
  ghost predicate TakesTodayAgain(s: Schedule, from: Instant, last: Option<Instant>)
    requires TimesAreSound(s)
  {
    TodayAgain(s, from, last) && !ListedOnce(s.daysOfMonth, from.date.day)
  }

  /** The search finds nothing in the reference month, and goes through it again when it is listed
      twice. */
  ghost predicate SearchesMonthAgain(s: Schedule, from: Instant, last: Option<Instant>)
    requires TimesAreSound(s)
  {
    && !ListedOnce(s.months, from.date.month)
    && !TodayRuns(s, from, last) && !TakesTodayAgain(s, from, last)
    && forall d :: ListsDate(s, d) && InReferenceMonth(from, d) ==> d.day <= from.date.day
  }

  /** The search goes back to a date it has passed, or to the reference date at midnight. */
  ghost predicate GoesBackTo(s: Schedule, from: Instant, last: Option<Instant>, d: Date)
    requires TimesAreSound(s)
  {
    || (TakesTodayAgain(s, from, last) && d == from.date)
    || (&& SearchesMonthAgain(s, from, last) && IsBackDate(s, from, last, d)
        && forall e :: IsBackDate(s, from, last, e) ==> AtMost(d, e))
  }

  /** What the search finds: where it goes back to, or a time on the reference date, or the first
      instant after it. */
  ghost predicate Finds(s: Schedule, from: Instant, last: Option<Instant>, x: Instant)
    requires TimesAreSound(s)
  {
    if exists d :: GoesBackTo(s, from, last, d) then
      GoesBackTo(s, from, last, x.date) && x == At(x.date, DayStart(s))
    else if TodayRuns(s, from, last) then
      exists t :: GivesTime(s, TimeOf(from), t) && x == At(from.date, t)
    else IsFirstAfter(s, from.date, x)
  }

  /** What it gets wrong: an instant in the past that it finds, or the next run, which it passes over
      because it gives up the reference date. */
  ghost predicate Strays(s: Schedule, from: Instant, last: Option<Instant>, x: Instant)
    requires TimesAreSound(s)
  {
    if exists d :: GoesBackTo(s, from, last, d) then
      GoesBackTo(s, from, last, x.date) && x == At(x.date, DayStart(s))
    else if TodayRuns(s, from, last) then
      StaysInHour(s, TimeOf(from)) && x == At(from.date, HourStart(s, TimeOf(from).hour))
    else DayIsGivenUp(s, from, last) && x.date == from.date && IsNext(s, from, last, x)
  }

  /** And the end of the schedule does not hide it. */
  ghost predicate Misled(s: Schedule, from: Instant, last: Option<Instant>)
    requires TimesAreSound(s)
  {
    exists x :: Strays(s, from, last, x) && NotAfterEnd(s, x)
  }

  predicate IsReference(from: Instant) {
    IsInstant(from) && from.ms % 1000 == 0
  }

  lemma {:induction false} GivenTimeIsUnique(s: Schedule, from: Time, t: Time, u: Time)
    requires TimesAreSound(s) && GivesTime(s, from, t) && GivesTime(s, from, u)
    ensures t == u && ListsTime(s, t)
  {
    if StaysInHour(s, from) {
      StayingInHourIsWrong(s, from);
    } else {
      TimesAreOrdered(s, t, u);
    }
  }

  lemma {:induction false} SomeTimeIsLeft(s: Schedule, from: Time, u: Time) returns (t: Time)
    requires TimesAreSound(s) && ListsTime(s, u) && SecondOfDay(from) <= SecondOfDay(u)
    ensures GivesTime(s, from, t)
  {
    t := HourStart(s, from.hour);
    if !StaysInHour(s, from) {
      t := LeastTime(s, from, u);
    }
  }

  lemma {:induction false} NoTimeIsLeft(s: Schedule, from: Time, u: Time)
    requires TimesAreSound(s) && ListsTime(s, u) && forall t :: !GivesTime(s, from, t)
    ensures SecondOfDay(u) < SecondOfDay(from)
  {
    hide ListsTime, GivesTime;
    if SecondOfDay(from) <= SecondOfDay(u) {
      var t := SomeTimeIsLeft(s, from, u);
      assert false;
    }
  }

  /** Where the search goes back to is in the past. */
  lemma {:induction false} BackIsPast(s: Schedule, from: Instant, last: Option<Instant>, d: Date)
    requires TimesAreSound(s) && IsReference(from) && GoesBackTo(s, from, last, d)
    ensures ListsDate(s, d) && AtMost(d, from.date) && Before(At(d, DayStart(s)), from)
  {
    hide ListsDate, TimeOf, SecondOfDay, ListsTime;
    if d == from.date {
      DayStartIsListed(s);
      NoTimeIsLeft(s, TimeOf(from), DayStart(s));
      assert from.ms == 1000 * SecondOfDay(TimeOf(from));
    }
  }

  lemma {:induction false} BackIsUnique(s: Schedule, from: Instant, last: Option<Instant>, d: Date, e: Date)
    requires TimesAreSound(s) && GoesBackTo(s, from, last, d) && GoesBackTo(s, from, last, e)
    ensures d == e
  {
    hide ListsDate, TodayAgain, TodayRuns;
  }

  lemma {:induction false} FindIsUnique(s: Schedule, from: Instant, last: Option<Instant>, x: Instant, y: Instant)
    requires TimesAreSound(s) && Finds(s, from, last, x) && Finds(s, from, last, y)
    ensures x == y
  {
    hide GoesBackTo, TodayRuns, GivesTime, Lists;
    if d :| GoesBackTo(s, from, last, d) {
      BackIsUnique(s, from, last, x.date, y.date);
    } else if TodayRuns(s, from, last) {
      var t :| GivesTime(s, TimeOf(from), t) && x == At(from.date, t);
      var u :| GivesTime(s, TimeOf(from), u) && y == At(from.date, u);
      GivenTimeIsUnique(s, TimeOf(from), t, u);
    } else {
      InstantsAreTotal(x, y);
    }
  }

  // ----- when it is the next run -----

  /** A time that is left on the reference date, as an instant. */
  lemma {:induction false} LeftToday(s: Schedule, from: Instant, last: Option<Instant>, u: Time)
    requires TimesAreSound(s) && IsReference(from) && ListsDate(s, from.date) && ListsTime(s, u)
    requires SecondOfDay(TimeOf(from)) <= SecondOfDay(u) && !Executed(from, last, At(from.date, u))
    ensures IsLeft(s, from, last, At(from.date, u))
  {
    hide ListsDate, ListsTime, SecsTo, TimeOf, SecondOfDay;
    ListedInstants(s, from.date, u);
    assert from.ms == 1000 * SecondOfDay(TimeOf(from));
  }

  /** And an instant that is left there has such a time. */
  lemma {:induction false} LeftIsToday(s: Schedule, from: Instant, last: Option<Instant>, z: Instant)
    requires IsReference(from) && IsLeft(s, from, last, z) && z.date == from.date
    ensures ListsDate(s, from.date) && ListsTime(s, TimeOf(z)) && z == At(from.date, TimeOf(z))
    ensures SecondOfDay(TimeOf(from)) <= SecondOfDay(TimeOf(z))
  {
    hide ListsDate, ListsTime, SecsTo, TimeOf, SecondOfDay;
    ListedIsAt(s, z);
    assert from.ms == 1000 * SecondOfDay(TimeOf(from));
  }

  /** When something is left on the reference date, the next run is there. */
  lemma {:induction false} NextIsToday(s: Schedule, from: Instant, last: Option<Instant>, z: Instant)
    returns (x: Instant)
    requires IsLeft(s, from, last, z) && z.date == from.date
    ensures IsNext(s, from, last, x) && x.date == from.date
    decreases z.ms
  {
    hide ListsDate, ListsTime, SecsTo;
    if w :| IsLeft(s, from, last, w) && Before(w, z) {
      x := NextIsToday(s, from, last, w);
    } else {
      x := z;
    }
  }

  /** When nothing is, it is the first instant after that date. */
  lemma {:induction false} NextIsLater(s: Schedule, from: Instant, last: Option<Instant>, x: Instant)
    requires forall z :: IsLeft(s, from, last, z) ==> z.date != from.date
    ensures IsNext(s, from, last, x) <==> IsFirstAfter(s, from.date, x)
  {
    hide ListsDate, ListsTime, SecsTo, Lists;
    assert forall z :: IsLeft(s, from, last, z) <==> Lists(s, z) && !AtMost(z.date, from.date);
  }

  /** The first time on the reference date is next if it has not been executed. */
  lemma {:induction false} FirstTimeIsNext(s: Schedule, from: Instant, last: Option<Instant>, t: Time)
    requires TimesAreSound(s) && IsReference(from) && ListsDate(s, from.date)
    requires IsFirstTime(s, TimeOf(from), t) && !Executed(from, last, At(from.date, t))
    ensures IsNext(s, from, last, At(from.date, t))
  {
    hide ListsDate, ListsTime, SecsTo, TimeOf, SecondOfDay, IsLeft;
    LeftToday(s, from, last, t);
    forall z | IsLeft(s, from, last, z) ensures !Before(z, At(from.date, t)) {
      LeftIsNotBefore(s, from, last, z);
      if z.date == from.date {
        LeftIsToday(s, from, last, z);
      }
    }
  }

  lemma {:induction false} LeftIsNotBefore(s: Schedule, from: Instant, last: Option<Instant>, z: Instant)
    requires IsLeft(s, from, last, z)
    ensures !Before(z, from)
  {
  }

  /** When the search finds nothing on a reference date with something left, it gives that date up. */
  lemma {:induction false} LeftIsGivenUp(s: Schedule, from: Instant, last: Option<Instant>, z: Instant)
    requires TimesAreSound(s) && IsReference(from) && IsLeft(s, from, last, z) && z.date == from.date
    requires !TodayRuns(s, from, last)
    ensures DayIsGivenUp(s, from, last)
  {
    hide ListsDate, ListsTime, SecsTo, TimeOf, SecondOfDay, GivesTime;
    LeftIsToday(s, from, last, z);
    var t := SomeTimeIsLeft(s, TimeOf(from), TimeOf(z));
  }

  /** And a date that is given up has something left, and no run. */
  lemma {:induction false} GivenUpIsLeft(s: Schedule, from: Instant, last: Option<Instant>) returns (x: Instant)
    requires TimesAreSound(s) && IsReference(from) && DayIsGivenUp(s, from, last)
    ensures IsNext(s, from, last, x) && x.date == from.date && !TodayRuns(s, from, last)
  {
    hide ListsDate, ListsTime, SecsTo, TimeOf, SecondOfDay, GivesTime, Executed;
    var t :| GivesTime(s, TimeOf(from), t) && Executed(from, last, At(from.date, t));
    forall r | GivesTime(s, TimeOf(from), r) ensures r == t {
      GivenTimeIsUnique(s, TimeOf(from), r, t);
    }
    var u :| && ListsTime(s, u) && SecondOfDay(TimeOf(from)) <= SecondOfDay(u)
             && !Executed(from, last, At(from.date, u));
    LeftToday(s, from, last, u);
    x := NextIsToday(s, from, last, At(from.date, u));
  }

  /** Where the search neither goes back nor stays in an hour, what it finds is the next run, unless it
      gives up the reference date. */
  lemma {:induction false} FindIsNext(s: Schedule, from: Instant, last: Option<Instant>, x: Instant)
    requires TimesAreSound(s) && IsReference(from) && forall d :: !GoesBackTo(s, from, last, d)
    requires !(TodayRuns(s, from, last) && StaysInHour(s, TimeOf(from))) && !DayIsGivenUp(s, from, last)
    ensures Finds(s, from, last, x) <==> IsNext(s, from, last, x)
  {
    hide ListsDate, TimeOf, IsFirstTime, Executed, StaysInHour, IsFirstAfter, GoesBackTo, IsNext, IsLeft;
    if TodayRuns(s, from, last) {
      var t :| GivesTime(s, TimeOf(from), t) && !Executed(from, last, At(from.date, t));
      FirstTimeIsNext(s, from, last, t);
      assert Finds(s, from, last, At(from.date, t));
      if Finds(s, from, last, x) { FindIsUnique(s, from, last, x, At(from.date, t)); }
      if IsNext(s, from, last, x) { NextIsUnique(s, from, last, x, At(from.date, t)); }
    } else {
      forall z | IsLeft(s, from, last, z) ensures z.date != from.date {
        if z.date == from.date {
          LeftIsGivenUp(s, from, last, z);
          assert false;
        }
      }
      NextIsLater(s, from, last, x);
    }
  }

  /** Without repeated entries in the way, giving up the reference date is all that the search gets
      wrong. */
  lemma {:induction false} GivingUpIsExact(s: Schedule, from: Instant, last: Option<Instant>)
    requires TimesAreSound(s) && IsReference(from) && forall d :: !GoesBackTo(s, from, last, d)
    requires !(TodayRuns(s, from, last) && StaysInHour(s, TimeOf(from)))
    ensures (forall x :: Finds(s, from, last, x) <==> IsNext(s, from, last, x)) <==> !DayIsGivenUp(s, from, last)
  {
    hide ListsDate, TimeOf, StaysInHour, GoesBackTo, IsNext, DayIsGivenUp, Lists, TodayRuns;
    if DayIsGivenUp(s, from, last) {
      var x := GivenUpIsLeft(s, from, last);
      assert !Finds(s, from, last, x);
    } else {
      forall x ensures Finds(s, from, last, x) <==> IsNext(s, from, last, x) {
        FindIsNext(s, from, last, x);
      }
    }
  }

  lemma {:induction false} EndHidesLater(s: Schedule, x: Instant, y: Instant)
    requires !NotAfterEnd(s, x) && !Before(y, x)
    ensures !NotAfterEnd(s, y)
  {
  }

  /** What nextRun returns, and what it should return. */
  ghost predicate Returns(s: Schedule, from: Instant, last: Option<Instant>, x: Instant)
    requires IsSound(s)
  {
    Finds(s, from, last, x) && WithinHorizon(s, from, x) && NotAfterEnd(s, x)
  }

  ghost predicate ShouldReturn(s: Schedule, from: Instant, last: Option<Instant>, x: Instant)
    requires IsSound(s)
  {
    IsNext(s, from, last, x) && WithinHorizon(s, from, x) && NotAfterEnd(s, x)
  }

  /** A stray instant is returned and should not be, or should be returned and is not. */
  lemma {:induction false} StrayIsWrong(s: Schedule, from: Instant, last: Option<Instant>, x: Instant)
    requires IsSound(s) && IsReference(from) && Strays(s, from, last, x)
    ensures x.date.year == from.date.year
    ensures Finds(s, from, last, x) <==> !IsNext(s, from, last, x)
    ensures Finds(s, from, last, x) ==> Before(x, from)
  {
    hide ListsDate, ListsTime, SecondOfDay, TimeOf, IsFirstTime, SecsTo, StaysInHour, DayIsGivenUp;
    if d :| GoesBackTo(s, from, last, d) {
      BackIsPast(s, from, last, x.date);
      assert Finds(s, from, last, x);
    } else if TodayRuns(s, from, last) {
      var t :| GivesTime(s, TimeOf(from), t) && !Executed(from, last, At(from.date, t));
      assert Finds(s, from, last, x);
      StayedIsPast(s, from);
    }
  }

  lemma {:induction false} StayedIsPast(s: Schedule, from: Instant)
    requires TimesAreSound(s) && IsReference(from) && StaysInHour(s, TimeOf(from))
    ensures Before(At(from.date, HourStart(s, TimeOf(from).hour)), from)
  {
    hide StaysInHour, TimeOf, SecondOfDay;
    StayingInHourIsWrong(s, TimeOf(from));
    assert from.ms == 1000 * SecondOfDay(TimeOf(from));
  }

  /** When what is found is in the past and hidden by the end, nothing is returned, and rightly. */
  lemma {:induction false} HiddenPast(s: Schedule, from: Instant, last: Option<Instant>, p: Instant, x: Instant)
    requires IsSound(s) && Finds(s, from, last, p) && Before(p, from) && !NotAfterEnd(s, p)
    ensures !Returns(s, from, last, x) && !ShouldReturn(s, from, last, x)
  {
    hide Finds, WithinHorizon, Lists;
    if Finds(s, from, last, x) { FindIsUnique(s, from, last, p, x); }
    if IsNext(s, from, last, x) {
      NextIsOnSchedule(s, from, last, x);
      EndHidesLater(s, p, x);
    }
  }

  /** When the reference date is given up and the end hides its next run, it hides what is found too. */
  lemma {:induction false} HiddenToday(s: Schedule, from: Instant, last: Option<Instant>, z: Instant, x: Instant)
    requires IsSound(s) && forall d :: !GoesBackTo(s, from, last, d)
    requires !TodayRuns(s, from, last) && IsNext(s, from, last, z) && z.date == from.date && !NotAfterEnd(s, z)
    ensures !Returns(s, from, last, x) && !ShouldReturn(s, from, last, x)
  {
    hide GoesBackTo, TodayRuns, WithinHorizon, Lists, NotAfterEnd, IsNext;
    if Finds(s, from, last, x) {
      EndHidesLater(s, z, x);
    }
    if IsNext(s, from, last, x) { NextIsUnique(s, from, last, z, x); }
  }

  /** nextRun returns what it should exactly if it is not misled: no input fails but these, and all of
      these do. */
  lemma {:induction false} MisledIsExact(s: Schedule, from: Instant, last: Option<Instant>)
    requires IsSound(s) && IsReference(from)
    ensures (forall x :: Returns(s, from, last, x) <==> ShouldReturn(s, from, last, x)) <==> !Misled(s, from, last)
  {
    hide ListsDate, ListsTime, SecondOfDay, TimeOf, SecsTo, StaysInHour, GoesBackTo, NotAfterEnd, IsNext, Finds, Strays;
    if Misled(s, from, last) {
      var x :| Strays(s, from, last, x) && NotAfterEnd(s, x);
      StrayIsWrong(s, from, last, x);
      assert Returns(s, from, last, x) != ShouldReturn(s, from, last, x);
    } else {
      forall x ensures Returns(s, from, last, x) <==> ShouldReturn(s, from, last, x) {
        NotMisled(s, from, last, x);
      }
    }
  }

  lemma {:induction false} NotMisled(s: Schedule, from: Instant, last: Option<Instant>, x: Instant)
    requires IsSound(s) && IsReference(from) && !Misled(s, from, last)
    ensures Returns(s, from, last, x) <==> ShouldReturn(s, from, last, x)
  {
    hide ListsTime, SecondOfDay, TimeOf, SecsTo, StaysInHour, GoesBackTo, NotAfterEnd, IsNext, TodayAgain, ListsDate;
    hide Returns, ShouldReturn, WithinHorizon, DayIsGivenUp;
    if d :| GoesBackTo(s, from, last, d) {
      BackIsPast(s, from, last, d);
      var p := At(d, DayStart(s));
      assert Strays(s, from, last, p) && Finds(s, from, last, p);
      HiddenPast(s, from, last, p, x);
    } else if TodayRuns(s, from, last) && StaysInHour(s, TimeOf(from)) {
      var t :| GivesTime(s, TimeOf(from), t) && !Executed(from, last, At(from.date, t));
      var p := At(from.date, t);
      assert Strays(s, from, last, p) && Finds(s, from, last, p);
      StayedIsPast(s, from);
      HiddenPast(s, from, last, p, x);
    } else if DayIsGivenUp(s, from, last) {
      var z := GivenUpIsLeft(s, from, last);
      assert Strays(s, from, last, z);
      HiddenToday(s, from, last, z, x);
    } else {
      FindIsNext(s, from, last, x);
      SameWhenSame(s, from, last, x);
    }
  }

  lemma {:induction false} SameWhenSame(s: Schedule, from: Instant, last: Option<Instant>, x: Instant)
    requires IsSound(s) && (Finds(s, from, last, x) <==> IsNext(s, from, last, x))
    ensures Returns(s, from, last, x) <==> ShouldReturn(s, from, last, x)
  {
    hide Finds, IsNext;
  }
}
