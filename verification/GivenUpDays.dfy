/** What an execution on time does to nextRun, with no entry listed twice: it gives up the day. */
module GivenUpDays {
  import opened MachineWords
  import opened Calendar
  import opened Schedules
  import opened NextRuns
  import opened RepeatedEntries

  const MONTHS := seq(12, i => i + 1)
  const DAYS := seq(31, i => i + 1)

  /** Two runs every day, at eight o'clock and a minute later. */
  const TWICE_A_DAY: Schedule := Schedule(None, None, MONTHS, WEEK, DAYS, [8], [0, 1], [0])

  const EIGHT := Time(8, 0, 0)
  const ONE_PAST_EIGHT := Time(8, 1, 0)

  lemma {:induction false} TwiceADayIsSound()
    ensures IsSound(TWICE_A_DAY) && TimesAreSound(TWICE_A_DAY) && DayStart(TWICE_A_DAY) == EIGHT
    ensures forall t :: ListsTime(TWICE_A_DAY, t) <==> t == EIGHT || t == ONE_PAST_EIGHT
  {
    hide ListedOnce;
    assert TWICE_A_DAY.minutes[1] == 1;
  }

  lemma {:induction false} NothingIsListedTwice(x: int)
    ensures ListedOnce(MONTHS, x) && ListedOnce(DAYS, x) && ListedOnce([8], x)
  {
  }

  lemma {:induction false} EveryDayIsListed(d: Date)
    ensures ListsDate(TWICE_A_DAY, d) <==> IsDate(d)
  {
    hide DayOfWeek;
    if IsDate(d) {
      EveryDayOfTheWeek(d);
      assert MONTHS[d.month - 1] == d.month && DAYS[d.day - 1] == d.day;
    }
  }

  /** Fifty milliseconds after eight the run at eight has been executed, and the next one has not. */
  lemma {:induction false} OneIsExecuted(d: Date)
    requires IsDate(d)
    ensures var from, last := At(d, EIGHT), Some(Instant(d, 28_800_050));
            Executed(from, last, At(d, EIGHT)) && !Executed(from, last, At(d, ONE_PAST_EIGHT))
  {
    hide DayNumber;
  }

  /** What findTime gives at eight, with the reference date not found again. */
  lemma {:induction false} EightIsGiven(d: Date, last: Option<Instant>)
    requires IsDate(d)
    ensures var from := At(d, EIGHT);
            && IsReference(from) && TimeOf(from) == EIGHT && TimesAreSound(TWICE_A_DAY)
            && !StaysInHour(TWICE_A_DAY, EIGHT) && (forall e :: !GoesBackTo(TWICE_A_DAY, from, last, e))
            && forall t :: GivesTime(TWICE_A_DAY, EIGHT, t) <==> t == EIGHT
  {
    hide ListedOnce, StaysInHour, GoesBackTo, ListsTime, TimesAreSound, TimeOf, IsSound;
    TwiceADayIsSound();
    TimeOfAt(d, EIGHT);
    NothingIsListedTwice(d.month);
    NothingIsListedTwice(d.day);
    NothingIsListedTwice(8);
    ListedOnceDoesNotStray(TWICE_A_DAY, At(d, EIGHT), last);
  }

  /** Asked after the run at eight, as reset asks, nextRun skips the one a minute later. */
  lemma {:induction false} RestOfDayIsSkipped(d: Date)
    requires IsDate(d)
    ensures IsSound(TWICE_A_DAY)
    ensures var from, last := At(d, EIGHT), Instant(d, 28_800_050);
            && Reference(TWICE_A_DAY, last) == from
            && DayIsGivenUp(TWICE_A_DAY, from, Some(last)) && Misled(TWICE_A_DAY, from, Some(last))
            && ShouldReturn(TWICE_A_DAY, from, Some(last), At(d, ONE_PAST_EIGHT))
            && forall x :: Returns(TWICE_A_DAY, from, Some(last), x) ==> x.date != d
  {
    hide StaysInHour, GoesBackTo, GivesTime, ListsTime, ListsDate, TimesAreSound, TimeOf, IsSound, Executed, IsNext;
    var from, last := At(d, EIGHT), Some(Instant(d, 28_800_050));
    TwiceADayIsSound();
    EveryDayIsListed(d);
    OneIsExecuted(d);
    EightIsGiven(d, last);
    EightIsReference(d);
    assert GivesTime(TWICE_A_DAY, EIGHT, EIGHT) && ListsTime(TWICE_A_DAY, ONE_PAST_EIGHT);
    assert DayIsGivenUp(TWICE_A_DAY, from, last);
    var x := GivenUpIsLeft(TWICE_A_DAY, from, last);
    NextIsAtOne(d, x);
    assert Strays(TWICE_A_DAY, from, last, x);
  }

  lemma {:induction false} EightIsReference(d: Date)
    requires IsDate(d)
    ensures Reference(TWICE_A_DAY, Instant(d, 28_800_050)) == At(d, EIGHT)
  {
  }

  lemma {:induction false} NextIsAtOne(d: Date, x: Instant)
    requires IsDate(d) && x.date == d
    requires IsNext(TWICE_A_DAY, At(d, EIGHT), Some(Instant(d, 28_800_050)), x)
    ensures x == At(d, ONE_PAST_EIGHT)
  {
    hide ListsDate, ListsTime, Executed, TimeOf;
    TwiceADayIsSound();
    OneIsExecuted(d);
    ListedIsAt(TWICE_A_DAY, x);
  }

  /** It returns eight o'clock of the next day instead. */
  lemma {:induction false} NextDayIsReturned(d: Date)
    requires IsDate(d) && d.day < DaysInMonth(d.year, d.month)
    ensures IsSound(TWICE_A_DAY)
    ensures var from, last, next := At(d, EIGHT), Some(Instant(d, 28_800_050)), d.(day := d.day + 1);
            Returns(TWICE_A_DAY, from, last, At(next, EIGHT))
  {
    hide StaysInHour, GoesBackTo, GivesTime, ListsTime, ListsDate, TimesAreSound, TimeOf, IsSound, Executed, Lists;
    var from, last, next := At(d, EIGHT), Some(Instant(d, 28_800_050)), d.(day := d.day + 1);
    TwiceADayIsSound();
    EveryDayIsListed(next);
    OneIsExecuted(d);
    EightIsGiven(d, last);
    ListedInstants(TWICE_A_DAY, next, EIGHT);
    forall z | Lists(TWICE_A_DAY, z) && !AtMost(z.date, d) ensures !Before(z, At(next, EIGHT)) {
      NotBeforeEight(z);
    }
    assert IsFirstAfter(TWICE_A_DAY, d, At(next, EIGHT));
  }

  lemma {:induction false} NotBeforeEight(z: Instant)
    requires Lists(TWICE_A_DAY, z)
    ensures 28_800_000 <= z.ms
  {
    hide ListsDate, ListsTime, TimeOf;
    TwiceADayIsSound();
    ListedIsAt(TWICE_A_DAY, z);
  }
}
