/** What a caller gets from nextRun, said in milliseconds and list entries alone. */
module DueRuns {
  import opened MachineWords
  import opened Calendar
  import opened Schedules
  import opened NextRuns

  /** A full second whose month, day, day of the week, hour, minute and second are listed. */
  predicate IsListed(s: Schedule, z: Instant) {
    && IsInstant(z) && z.ms % 1000 == 0
    && z.date.month in s.months && z.date.day in s.daysOfMonth && DayOfWeek(z.date) in s.daysOfWeek
    && z.ms / 3_600_000 in s.hours && z.ms / 60_000 % 60 in s.minutes && z.ms / 1000 % 60 in s.seconds
  }

  /** Not before now and not before the start, both without their milliseconds. */
  predicate IsReached(s: Schedule, now: Instant, z: Instant)
    requires IsDate(now.date) && IsDate(z.date) && (s.start.Some? ==> IsDate(s.start.value.date))
  {
    && Milliseconds(now) - 1000 < Milliseconds(z)
    && (s.start.Some? ==> Milliseconds(s.start.value) - 1000 < Milliseconds(z))
  }

  /** Less than two seconds after the last execution, or before it. */
  predicate IsTaken(last: Option<Instant>, z: Instant)
    requires IsDate(z.date) && (last.Some? ==> IsDate(last.value.date))
  {
    last.Some? && Milliseconds(z) < Milliseconds(last.value) + 2000
  }

  /** The date of now, or of the start if that is later. */
  predicate IsFirstDate(s: Schedule, now: Instant, d: Date)
    requires IsDate(now.date) && (s.start.Some? ==> IsDate(s.start.value.date))
  {
    if s.start.Some? && Milliseconds(now) < Milliseconds(s.start.value) then d == s.start.value.date
    else d == now.date
  }

  /** The earliest listed instant from now and the start on that is not taken, if it is not after the end;
      none only if there is no such instant up to the end and the end of the year after the first date's. */
  ghost predicate IsRight(s: Schedule, now: Instant, last: Option<Instant>, r: Option<Instant>)
    requires IsInstant(now) && (s.start.Some? ==> IsInstant(s.start.value)) && (last.Some? ==> IsInstant(last.value))
    requires s.end.Some? ==> IsInstant(s.end.value)
  {
    match r
    case Some(x) =>
      && IsListed(s, x) && IsReached(s, now, x) && (IsFirstDate(s, now, x.date) ==> !IsTaken(last, x))
      && (s.end.Some? ==> Milliseconds(x) <= Milliseconds(s.end.value))
      && (forall z :: IsListed(s, z) && IsReached(s, now, z) && !IsTaken(last, z) ==>
                        Milliseconds(x) <= Milliseconds(z))
      && exists d: Date :: IsFirstDate(s, now, d) && x.date.year <= d.year + 2
    case None =>
      forall z, d: Date ::
        && IsListed(s, z) && IsReached(s, now, z) && !IsTaken(last, z) && IsFirstDate(s, now, d)
        && (s.end.Some? ==> Milliseconds(z) <= Milliseconds(s.end.value))
        ==> z.date.year > d.year + 1
  }

  // ----- the definitions in these terms -----

  lemma {:induction false} HoursAndMinutes(z: Instant)
    requires 0 <= z.ms < 86_400_000
    ensures TimeOf(z) == Time(z.ms / 3_600_000, z.ms / 60_000 % 60, z.ms / 1000 % 60)
  {
    var s := z.ms / 1000;
    assert s / 60 == z.ms / 60_000 && s / 60 / 60 == z.ms / 3_600_000;
  }

  lemma {:induction false} ListsIsListed(s: Schedule, z: Instant)
    ensures Lists(s, z) <==> IsListed(s, z)
  {
    hide TimeOf, DayOfWeek, DaysInMonth;
    if IsInstant(z) {
      HoursAndMinutes(z);
    }
  }

  lemma {:induction false} ExecutedIsTaken(from: Instant, last: Option<Instant>, z: Instant)
    requires IsDate(z.date) && (last.Some? ==> IsInstant(last.value))
    ensures Executed(from, last, z) <==> z.date == from.date && IsTaken(last, z)
  {
    hide Milliseconds, IsDate;
  }

  lemma {:induction false} FullSeconds(x: Instant, z: Instant)
    requires IsInstant(x) && IsInstant(z) && z.ms % 1000 == 0
    ensures var from := At(x.date, TimeOf(x));
            IsInstant(from) && (!Before(z, from) <==> Milliseconds(x) - 1000 < Milliseconds(z))
  {
    hide TimeOf, DayNumber, DaysInMonth, SecondOfDay;
    var from := At(x.date, TimeOf(x));
    assert from.ms == 1000 * (x.ms / 1000);
    InstantsAreChronological(z, from);
    Thousands(DayNumber(z.date), z.ms, DayNumber(x.date), x.ms);
  }

  lemma {:induction false} Thousands(d: int, a: int, e: int, b: int)
    requires a % 1000 == 0
    ensures 86_400_000 * d + a < 86_400_000 * e + 1000 * (b / 1000)
            <==> 86_400_000 * d + a <= 86_400_000 * e + b - 1000
  {
    var m, n := 86_400 * d + a / 1000, 86_400 * e + b / 1000;
    assert 86_400_000 * d + a == 1000 * m && 86_400_000 * e + b == 1000 * n + b % 1000;
  }

  /** The reference is the later of now and the start, cut to seconds. */
  lemma {:induction false} ReferenceIsReached(s: Schedule, now: Instant, z: Instant)
    requires IsInstant(now) && (s.start.Some? ==> IsInstant(s.start.value)) && IsInstant(z) && z.ms % 1000 == 0
    ensures !Before(z, Reference(s, now)) <==> IsReached(s, now, z)
    ensures forall d :: IsFirstDate(s, now, d) <==> d == Reference(s, now).date
  {
    hide TimeOf, Milliseconds, Before, DaysInMonth;
    FullSeconds(Later(s, now), z);
    if s.start.Some? {
      InstantsAreChronological(now, s.start.value);
    }
  }

  lemma {:induction false} LeftIsDue(s: Schedule, now: Instant, last: Option<Instant>, z: Instant)
    requires IsInstant(now) && (s.start.Some? ==> IsInstant(s.start.value)) && (last.Some? ==> IsInstant(last.value))
    ensures IsLeft(s, Reference(s, now), last, z)
            <==> IsListed(s, z) && IsReached(s, now, z) && !(IsFirstDate(s, now, z.date) && IsTaken(last, z))
  {
    hide Lists, Executed, Before, IsReached, IsTaken, IsFirstDate, Reference, DayOfWeek, DaysInMonth;
    ListsIsListed(s, z);
    if IsListed(s, z) {
      ReferenceIsReached(s, now, z);
      ExecutedIsTaken(Reference(s, now), last, z);
    }
  }

  /** When something is left there is a next run. */
  lemma {:induction false} SomethingIsNext(s: Schedule, from: Instant, last: Option<Instant>, z: Instant)
    returns (x: Instant)
    requires IsInstant(from) && IsLeft(s, from, last, z)
    ensures IsNext(s, from, last, x)
    decreases if IsInstant(z) then Milliseconds(z) - Milliseconds(from) else 0
  {
    hide ListsDate, ListsTime, Executed, Milliseconds, DaysInMonth, Before;
    InstantsAreChronological(z, from);
    if w :| IsLeft(s, from, last, w) && Before(w, z) {
      InstantsAreChronological(w, z);
      InstantsAreChronological(w, from);
      x := SomethingIsNext(s, from, last, w);
    } else {
      x := z;
    }
  }

  // ----- the answer -----

  lemma {:induction false} EndInMilliseconds(s: Schedule, x: Instant)
    requires IsInstant(x) && (s.end.Some? ==> IsInstant(s.end.value))
    ensures NotAfterEnd(s, x) <==> (s.end.Some? ==> Milliseconds(x) <= Milliseconds(s.end.value))
  {
    hide Milliseconds;
    if s.end.Some? {
      InstantsAreChronological(s.end.value, x);
    }
  }

  lemma {:induction false} EarliestIsRight(s: Schedule, now: Instant, last: Option<Instant>, x: Instant)
    requires IsSound(s) && IsInstant(now) && (last.Some? ==> IsInstant(last.value))
    requires s.end.Some? ==> IsInstant(s.end.value)
    requires ShouldReturn(s, Reference(s, now), last, x)
    ensures IsRight(s, now, last, Some(x))
  {
    hide IsLeft, IsReached, IsTaken, Reference, Milliseconds, IsFirstDate, DayOfWeek, DaysInMonth;
    var from := Reference(s, now);
    LeftIsDue(s, now, last, x);
    ListedIsInstant(s, x);
    ReferenceIsReached(s, now, x);
    EndInMilliseconds(s, x);
    forall z | IsListed(s, z) && IsReached(s, now, z) && !IsTaken(last, z)
      ensures Milliseconds(x) <= Milliseconds(z)
    {
      LeftIsDue(s, now, last, z);
      ListedIsInstant(s, z);
      InstantsAreChronological(z, x);
    }
    assert IsFirstDate(s, now, from.date);
  }

  lemma {:induction false} ListedIsInstant(s: Schedule, z: Instant)
    requires IsListed(s, z)
    ensures IsInstant(z) && z.ms % 1000 == 0
  {
  }

  lemma {:induction false} NoneIsRight(s: Schedule, now: Instant, last: Option<Instant>)
    requires IsSound(s) && IsInstant(now) && (last.Some? ==> IsInstant(last.value))
    requires s.end.Some? ==> IsInstant(s.end.value)
    requires forall x :: !ShouldReturn(s, Reference(s, now), last, x)
    ensures IsRight(s, now, last, None)
  {
    hide IsReached, IsTaken, Reference, Milliseconds, IsFirstDate, DayOfWeek, DaysInMonth, ShouldReturn;
    forall z, d: Date |
      && IsListed(s, z) && IsReached(s, now, z) && !IsTaken(last, z) && IsFirstDate(s, now, d)
      && (s.end.Some? ==> Milliseconds(z) <= Milliseconds(s.end.value))
      ensures z.date.year > d.year + 1
    {
      NoneIsFarAway(s, now, last, z, d);
    }
  }

  lemma {:induction false} NoneIsFarAway(s: Schedule, now: Instant, last: Option<Instant>, z: Instant, d: Date)
    requires IsSound(s) && IsInstant(now) && (last.Some? ==> IsInstant(last.value))
    requires s.end.Some? ==> IsInstant(s.end.value)
    requires forall x :: !ShouldReturn(s, Reference(s, now), last, x)
    requires IsListed(s, z) && IsReached(s, now, z) && !IsTaken(last, z) && IsFirstDate(s, now, d)
    requires s.end.Some? ==> Milliseconds(z) <= Milliseconds(s.end.value)
    ensures z.date.year > d.year + 1
  {
    hide IsLeft, IsListed, IsReached, IsTaken, Reference, Milliseconds, IsFirstDate, NotAfterEnd, IsSound, Before;
    var from := Reference(s, now);
    StartIsInstant(s);
    ReferenceIsSound(s, now);
    LeftIsDue(s, now, last, z);
    ListedIsInstant(s, z);
    ReferenceIsReached(s, now, z);
    var x := SomethingIsNext(s, from, last, z);
    EndInMilliseconds(s, z);
    NotBeforeIsNotLater(s, x, z);
    assert !ShouldReturn(s, from, last, x);
  }

  lemma {:induction false} StartIsInstant(s: Schedule)
    requires IsSound(s)
    ensures s.start.Some? ==> IsInstant(s.start.value)
    ensures s.months != []
  {
  }

  lemma {:induction false} NotBeforeIsNotLater(s: Schedule, x: Instant, z: Instant)
    requires !Before(z, x)
    ensures x.date.year <= z.date.year && (NotAfterEnd(s, z) ==> NotAfterEnd(s, x))
  {
  }

  /** What nextRun returns is right, unless the search is misled. */
  lemma {:induction false} RightUnlessMisled(s: Schedule, now: Instant, last: Option<Instant>)
    requires IsSound(s) && IsInstant(now) && (last.Some? ==> IsInstant(last.value))
    ensures !Misled(s, Reference(s, now), last) && (s.end.Some? ==> IsInstant(s.end.value)) ==>
              forall r :: (forall x :: r == Some(x) <==> Returns(s, Reference(s, now), last, x)) ==>
                            IsRight(s, now, last, r)
  {
    hide IsRight, ShouldReturn, Returns, Misled, Reference;
    var from := Reference(s, now);
    if !Misled(s, from, last) && (s.end.Some? ==> IsInstant(s.end.value)) {
      ReferenceIsSound(s, now);
      MisledIsExact(s, from, last);
      forall r: Option<Instant> | forall x :: r == Some(x) <==> Returns(s, from, last, x)
        ensures IsRight(s, now, last, r)
      {
        match r
        case Some(x) => EarliestIsRight(s, now, last, x);
        case None => NoneIsRight(s, now, last);
      }
    }
  }
}
