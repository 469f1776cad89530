/** Why the loops of nextRun find what NextRuns says. A position is a year with an index into the list
    of months and one into the list of days; the loops go through the positions in order. */
module DateSearch {
  import opened MachineWords
  import opened Calendar
  import opened Schedules
  import opened TimeSearch
  import opened NextRuns

  /** A comparison of a date that may not exist with one that does. */
  predicate NotBefore(c: Date, d: Date) {
    IsDate(c) && AtMost(d, c)
  }

  /** The date a year's search starts to compare with. */
  function FirstDate(from: Instant, year: int): Date {
    if year == from.date.year then from.date else Date(year, 1, 1)
  }

  /** Month i of the list is looked at. */
  predicate InMonth(s: Schedule, from: Instant, year: int, i: nat)
    requires i < |s.months|
  {
    NotBefore(Date(year, s.months[i], 1), Date(year, FirstDate(from, year).month, 1))
  }

  /** The date compared with in month i: once a month has been looked at, the first of its month. */
  ghost function Comparator(s: Schedule, from: Instant, year: int, i: nat): Date
    requires i <= |s.months|
  {
    if s.daysOfMonth != [] && exists k :: 0 <= k < i && InMonth(s, from, year, k)
    then Date(year, FirstDate(from, year).month, 1) else FirstDate(from, year)
  }

  /** The reference date has come up before a position. */
  predicate CameUp(s: Schedule, from: Instant, year: int, i: nat, j: nat)
    requires i <= |s.months| && j <= |s.daysOfMonth|
  {
    || from.date.year < year
    || (from.date.year == year && from.date.month in s.months[..i])
    || (&& from.date.year == year && i < |s.months| && s.months[i] == from.date.month
        && from.date.day in s.daysOfMonth[..j])
  }

  function DateAt(s: Schedule, year: int, i: nat, j: nat): Date
    requires i < |s.months| && j < |s.daysOfMonth|
  {
    Date(year, s.months[i], s.daysOfMonth[j])
  }

  /** The search, if it comes to this position, finds something there. */
  ghost predicate Hit(s: Schedule, from: Instant, last: Option<Instant>, year: int, i: nat, j: nat)
    requires TimesAreSound(s) && i < |s.months| && j < |s.daysOfMonth|
  {
    var c := DateAt(s, year, i, j);
    && InMonth(s, from, year, i) && NotBefore(c, Comparator(s, from, year, i)) && DayOfWeek(c) in s.daysOfWeek
    && (c == from.date ==>
          if CameUp(s, from, year, i, j) then TodayAgain(s, from, last) else TodayRuns(s, from, last))
  }

  predicate IsEarlier(y: int, k: nat, l: nat, year: int, i: nat, j: nat) {
    y < year || (y == year && (k < i || (k == i && l < j)))
  }

  ghost predicate NothingHit(s: Schedule, from: Instant, last: Option<Instant>, year: int, i: nat, j: nat)
    requires TimesAreSound(s)
  {
    forall y: int, k: nat, l: nat ::
      from.date.year <= y && k < |s.months| && l < |s.daysOfMonth| && IsEarlier(y, k, l, year, i, j) ==>
        !Hit(s, from, last, y, k, l)
  }

  // ----- where there is something to find -----

  lemma {:induction false} FirstIndex(xs: seq<int>, x: int) returns (k: nat)
    requires x in xs
    ensures k < |xs| && xs[k] == x && x !in xs[..k]
  {
    k := 0;
    while xs[k] != x
      invariant k < |xs| && x !in xs[..k] && x in xs[k..]
      decreases |xs| - k
    {
      k := k + 1;
    }
  }

  lemma {:induction false} SecondIndex(xs: seq<int>, x: int) returns (k: nat)
    requires !ListedOnce(xs, x)
    ensures k < |xs| && xs[k] == x && x in xs[..k]
  {
    var i, j :| 0 <= i < j < |xs| && xs[i] == x && xs[j] == x;
    assert xs[..j][i] == x;
    k := j;
  }

  /** At the first entry for the reference month the search compares with the reference date. */
  lemma {:induction false} FirstPass(s: Schedule, from: Instant, i: nat)
    requires IsSound(s) && IsReference(from) && i < |s.months|
    requires s.months[i] == from.date.month && from.date.month !in s.months[..i]
    ensures InMonth(s, from, from.date.year, i) && Comparator(s, from, from.date.year, i) == from.date
  {
    forall k | 0 <= k < i ensures !InMonth(s, from, from.date.year, k) {
      assert s.months[..i][k] == s.months[k];
    }
  }

  /** At a further entry it compares with the first of the month. */
  lemma {:induction false} FurtherPass(s: Schedule, from: Instant, i: nat)
    requires IsSound(s) && IsReference(from) && i < |s.months| && s.daysOfMonth != []
    requires s.months[i] == from.date.month && from.date.month in s.months[..i]
    ensures InMonth(s, from, from.date.year, i)
    ensures Comparator(s, from, from.date.year, i) == Date(from.date.year, from.date.month, 1)
  {
    var k :| 0 <= k < i && s.months[..i][k] == from.date.month;
    assert InMonth(s, from, from.date.year, k);
  }

  /** Everywhere later it compares with a date that is early enough. */
  lemma {:induction false} LaterPass(s: Schedule, from: Instant, year: int, i: nat)
    requires IsSound(s) && IsReference(from) && i < |s.months| && 1 <= s.months[i] <= 12
    requires year > from.date.year || (year == from.date.year && s.months[i] > from.date.month)
    ensures InMonth(s, from, year, i)
    ensures forall d: int :: 1 <= d ==> AtMost(Comparator(s, from, year, i), Date(year, s.months[i], d))
    ensures year > from.date.year ==> Comparator(s, from, year, i) == Date(year, 1, 1)
  {
  }

  lemma {:induction false} TodayIsHit(s: Schedule, from: Instant, last: Option<Instant>)
    returns (i: nat, j: nat)
    requires IsSound(s) && IsReference(from) && TodayRuns(s, from, last)
    ensures i < |s.months| && j < |s.daysOfMonth| && DateAt(s, from.date.year, i, j) == from.date
    ensures from.date.month !in s.months[..i] && Hit(s, from, last, from.date.year, i, j)
  {
    i := FirstIndex(s.months, from.date.month);
    j := FirstIndex(s.daysOfMonth, from.date.day);
    FirstPass(s, from, i);
  }

  lemma {:induction false} TodayAgainIsHit(s: Schedule, from: Instant, last: Option<Instant>)
    returns (i: nat, j: nat)
    requires IsSound(s) && IsReference(from) && TakesTodayAgain(s, from, last)
    ensures i < |s.months| && j < |s.daysOfMonth| && DateAt(s, from.date.year, i, j) == from.date
    ensures from.date.month !in s.months[..i] && Hit(s, from, last, from.date.year, i, j)
  {
    i := FirstIndex(s.months, from.date.month);
    j := SecondIndex(s.daysOfMonth, from.date.day);
    FirstPass(s, from, i);
  }

  /** A listed date after the reference date. */
  lemma {:induction false} LaterIsHit(s: Schedule, from: Instant, last: Option<Instant>, d: Date)
    returns (i: nat, j: nat)
    requires IsSound(s) && IsReference(from) && ListsDate(s, d) && !AtMost(d, from.date)
    ensures i < |s.months| && j < |s.daysOfMonth| && DateAt(s, d.year, i, j) == d
    ensures d.month !in s.months[..i] && Hit(s, from, last, d.year, i, j)
  {
    i := FirstIndex(s.months, d.month);
    j := FirstIndex(s.daysOfMonth, d.day);
    if InReferenceMonth(from, d) {
      FirstPass(s, from, i);
    } else {
      LaterPass(s, from, d.year, i);
    }
  }

  /** A date to go back to. */
  lemma {:induction false} BackIsHit(s: Schedule, from: Instant, last: Option<Instant>, d: Date, i: nat)
    returns (j: nat)
    requires IsSound(s) && IsReference(from) && IsBackDate(s, from, last, d)
    requires i < |s.months| && s.months[i] == from.date.month && from.date.month in s.months[..i]
    ensures j < |s.daysOfMonth| && DateAt(s, d.year, i, j) == d && Hit(s, from, last, d.year, i, j)
  {
    j := FirstIndex(s.daysOfMonth, d.day);
    FurtherPass(s, from, i);
  }

  /** Whatever there is to find is found at some position of its year. */
  lemma {:induction false} FindHasHit(s: Schedule, from: Instant, last: Option<Instant>, x: Instant)
    returns (i: nat, j: nat)
    requires IsSound(s) && IsReference(from) && Finds(s, from, last, x)
    ensures from.date.year <= x.date.year && i < |s.months| && j < |s.daysOfMonth|
    ensures Hit(s, from, last, x.date.year, i, j)
  {
    hide Hit, TodayAgain, TodayRuns, ListsDate;
    if d :| GoesBackTo(s, from, last, d) {
      if TakesTodayAgain(s, from, last) && x.date == from.date {
        i, j := TodayAgainIsHit(s, from, last);
      } else {
        i := SecondIndex(s.months, from.date.month);
        j := BackIsHit(s, from, last, x.date, i);
      }
    } else if TodayRuns(s, from, last) {
      i, j := TodayIsHit(s, from, last);
    } else {
      i, j := LaterIsHit(s, from, last, x.date);
    }
  }

  // ----- the first position with something to find -----

  /** The time taken at a position: findTime's on the reference date when it comes up first, and the
      first of the day otherwise. */
  ghost predicate TakesTime(s: Schedule, from: Instant, last: Option<Instant>, year: int, i: nat, j: nat, t: Time)
    requires TimesAreSound(s) && i < |s.months| && j < |s.daysOfMonth|
  {
    if DateAt(s, year, i, j) == from.date && !CameUp(s, from, year, i, j) then
      GivesTime(s, TimeOf(from), t) && (IsDate(from.date) ==> !Executed(from, last, At(from.date, t)))
    else t == DayStart(s)
  }

  lemma {:induction false} EarlierIndex(xs: seq<int>, k: nat, i: nat)
    requires Sorted(xs) && k < |xs| && i < |xs|
    ensures xs[k] < xs[i] ==> k < i
    ensures xs[k] == xs[i] && xs[k] !in xs[..k] ==> k <= i
  {
    if i < k {
      assert xs[..k][i] == xs[i];
    }
  }

  /** A hit after the reference date with nothing hit before it is at the first instant after that
      date. */
  lemma {:induction false} LaterHitIsFirst(s: Schedule, from: Instant, last: Option<Instant>, year: int, i: nat, j: nat)
    requires IsSound(s) && IsReference(from) && i < |s.months| && j < |s.daysOfMonth|
    requires Hit(s, from, last, year, i, j) && NothingHit(s, from, last, year, i, j)
    requires !AtMost(DateAt(s, year, i, j), from.date)
    ensures IsFirstAfter(s, from.date, At(DateAt(s, year, i, j), DayStart(s)))
  {
    hide TimeOf, SecondOfDay, TodayAgain, TodayRuns, Sorted;
    var c := DateAt(s, year, i, j);
    DayStartIsListed(s);
    ListedInstants(s, c, DayStart(s));
    forall z | Lists(s, z) && !AtMost(z.date, from.date) ensures !Before(z, At(c, DayStart(s))) {
      var k, l := LaterIsHit(s, from, last, z.date);
      assert !IsEarlier(z.date.year, k, l, year, i, j);
      EarlierIndex(s.months, k, i);
      EarlierIndex(s.months, i, k);
      EarlierIndex(s.daysOfMonth, l, j);
      assert AtMost(c, z.date);
      DayStartIsFirst(s, TimeOf(z));
      ListedIsAt(s, z);
    }
  }

  /** Nothing to find is passed unseen: at a position after the first pass through the reference month
      there was no run on the reference date, and nothing to go back to in that pass. */
  lemma {:induction false} PassedPositions(s: Schedule, from: Instant, last: Option<Instant>, year: int, i: nat, j: nat)
    requires IsSound(s) && IsReference(from) && i < |s.months| && NothingHit(s, from, last, year, i, j)
    requires from.date.year < year || (from.date.year == year && from.date.month in s.months[..i])
    ensures !TodayRuns(s, from, last) && !TakesTodayAgain(s, from, last)
    ensures forall d :: ListsDate(s, d) && InReferenceMonth(from, d) ==> d.day <= from.date.day
  {
    hide Hit, TodayRuns, TakesTodayAgain, ListsDate;
    if TodayRuns(s, from, last) {
      var k, l := TodayIsHit(s, from, last);
      BeforeEntry(s, from, k, i);
    }
    if TakesTodayAgain(s, from, last) {
      var k, l := TodayAgainIsHit(s, from, last);
      BeforeEntry(s, from, k, i);
    }
    forall d | ListsDate(s, d) && InReferenceMonth(from, d) ensures d.day <= from.date.day {
      if d.day > from.date.day {
        var k, l := LaterIsHit(s, from, last, d);
        BeforeEntry(s, from, k, i);
      }
    }
  }

  lemma {:induction false} BeforeEntry(s: Schedule, from: Instant, k: nat, i: nat)
    requires k < |s.months| && i <= |s.months| && s.months[k] == from.date.month && s.months[k] !in s.months[..k]
    ensures from.date.month in s.months[..i] ==> k < i
  {
    if from.date.month in s.months[..i] {
      var m :| 0 <= m < i && s.months[..i][m] == from.date.month;
      EarlierThanFirst(s.months, m, k);
    }
  }

  lemma {:induction false} EarlierThanFirst(xs: seq<int>, m: nat, k: nat)
    requires m < |xs| && k < |xs| && xs[m] == xs[k] && xs[k] !in xs[..k]
    ensures k <= m
  {
    assert forall i :: 0 <= i < k ==> xs[i] in xs[..k];
  }

  /** A hit when the reference month comes up again is where the search goes back to. */
  lemma {:induction false} FurtherHitGoesBack(s: Schedule, from: Instant, last: Option<Instant>, i: nat, j: nat)
    requires IsSound(s) && IsReference(from) && i < |s.months| && j < |s.daysOfMonth|
    requires Hit(s, from, last, from.date.year, i, j) && NothingHit(s, from, last, from.date.year, i, j)
    requires s.months[i] == from.date.month && from.date.month in s.months[..i]
    ensures GoesBackTo(s, from, last, DateAt(s, from.date.year, i, j))
  {
    hide TodayAgain, TodayRuns, TakesTodayAgain, Sorted, DayOfWeek;
    var c := DateAt(s, from.date.year, i, j);
    PassedPositions(s, from, last, from.date.year, i, j);
    assert ListsDate(s, c) && InReferenceMonth(from, c);
    assert IsBackDate(s, from, last, c);
    forall e | IsBackDate(s, from, last, e) ensures AtMost(c, e) {
      var l := BackIsHit(s, from, last, e, i);
      EarlierIndex(s.daysOfMonth, l, j);
    }
  }

  /** A hit after the reference date on the first pass through its month, or later, is found: nothing
      is there to go back to, nor a run on the reference date. */
  lemma {:induction false} LaterHitIsAhead(s: Schedule, from: Instant, last: Option<Instant>, year: int, i: nat, j: nat)
    requires IsSound(s) && IsReference(from) && i < |s.months| && j < |s.daysOfMonth| && from.date.year <= year
    requires Hit(s, from, last, year, i, j) && NothingHit(s, from, last, year, i, j)
    requires !AtMost(DateAt(s, year, i, j), from.date)
    ensures !TodayRuns(s, from, last) && forall d :: !GoesBackTo(s, from, last, d)
  {
    hide TodayAgain, TodayRuns, TakesTodayAgain, Sorted, DayOfWeek, ListsDate, ListedOnce, Hit;
    var c := DateAt(s, year, i, j);
    if TodayRuns(s, from, last) {
      var k, l := TodayIsHit(s, from, last);
      NotEarlier(s, from, last, year, i, j, k, l);
    }
    if TakesTodayAgain(s, from, last) {
      var k, l := TodayAgainIsHit(s, from, last);
      NotEarlier(s, from, last, year, i, j, k, l);
    }
    forall d ensures !GoesBackTo(s, from, last, d) {
      if GoesBackTo(s, from, last, d) {
        HitIsListed(s, from, last, year, i, j);
        var k := SecondIndex(s.months, from.date.month);
        var l := BackIsHit(s, from, last, d, k);
        EarlierIndex(s.months, k, i);
      }
    }
  }

  lemma {:induction false} HitIsListed(s: Schedule, from: Instant, last: Option<Instant>, year: int, i: nat, j: nat)
    requires TimesAreSound(s) && i < |s.months| && j < |s.daysOfMonth| && Hit(s, from, last, year, i, j)
    ensures ListsDate(s, DateAt(s, year, i, j))
  {
  }

  /** A hit on the reference date is not at an earlier position. */
  lemma {:induction false} NotEarlier(s: Schedule, from: Instant, last: Option<Instant>, year: int, i: nat, j: nat,
                                      k: nat, l: nat)
    requires IsSound(s) && i < |s.months| && j < |s.daysOfMonth| && k < |s.months| && l < |s.daysOfMonth|
    requires NothingHit(s, from, last, year, i, j) && Hit(s, from, last, from.date.year, k, l)
    requires DateAt(s, from.date.year, k, l) == from.date && from.date.month !in s.months[..k]
    ensures AtMost(DateAt(s, year, i, j), from.date)
  {
    hide Hit, Sorted;
    EarlierIndex(s.months, k, i);
    EarlierIndex(s.daysOfMonth, l, j);
  }

  /** The first hit is what the search finds. */
  lemma {:induction false} HitIsFind(s: Schedule, from: Instant, last: Option<Instant>, year: int, i: nat, j: nat,
                                     t: Time)
    requires IsSound(s) && IsReference(from) && i < |s.months| && j < |s.daysOfMonth| && from.date.year <= year
    requires Hit(s, from, last, year, i, j) && NothingHit(s, from, last, year, i, j)
    requires TakesTime(s, from, last, year, i, j, t)
    ensures Finds(s, from, last, At(DateAt(s, year, i, j), t))
  {
    hide GoesBackTo, GivesTime, IsFirstAfter, Executed, Sorted, DayOfWeek;
    var c := DateAt(s, year, i, j);
    if !AtMost(c, from.date) {
      LaterHitIsAhead(s, from, last, year, i, j);
      LaterHitIsFirst(s, from, last, year, i, j);
    } else if from.date.month in s.months[..i] {
      FurtherHitGoesBack(s, from, last, i, j);
    } else {
      FirstPass(s, from, i);
      assert c == from.date;
      if CameUp(s, from, year, i, j) {
        TodayGoesBack(s, from, last, i, j);
      } else {
        TodayDoesNotGoBack(s, from, last);
      }
    }
  }

  lemma {:induction false} TodayGoesBack(s: Schedule, from: Instant, last: Option<Instant>, i: nat, j: nat)
    requires TimesAreSound(s) && i < |s.months| && j < |s.daysOfMonth|
    requires TodayAgain(s, from, last)
    requires DateAt(s, from.date.year, i, j) == from.date && from.date.day in s.daysOfMonth[..j]
    ensures GoesBackTo(s, from, last, from.date)
  {
    hide TodayAgain;
    var k :| 0 <= k < j && s.daysOfMonth[..j][k] == from.date.day;
    assert s.daysOfMonth[k] == s.daysOfMonth[j];
  }

  lemma {:induction false} TodayDoesNotGoBack(s: Schedule, from: Instant, last: Option<Instant>)
    requires TimesAreSound(s) && TodayRuns(s, from, last)
    ensures forall d :: !GoesBackTo(s, from, last, d)
  {
  }

  /** In a year after the reference year an entry that repeats one before it has no first hit. */
  lemma {:induction false} RepeatedMonthIsEmpty(s: Schedule, from: Instant, last: Option<Instant>,
                                                year: int, i: nat, j: nat)
    requires IsSound(s) && IsReference(from) && i < |s.months| && j < |s.daysOfMonth| && from.date.year < year
    requires Hit(s, from, last, year, i, j) && NothingHit(s, from, last, year, i, j)
    ensures s.months[i] !in s.months[..i]
  {
    hide TodayAgain, TodayRuns, Sorted, DayOfWeek;
    if k :| 0 <= k < i && s.months[..i][k] == s.months[i] {
      RepeatedHit(s, from, last, year, i, j, k);
    }
  }

  lemma {:induction false} RepeatedHit(s: Schedule, from: Instant, last: Option<Instant>, year: int, i: nat, j: nat,
                                       k: nat)
    requires IsSound(s) && IsReference(from) && i < |s.months| && j < |s.daysOfMonth| && from.date.year < year
    requires Hit(s, from, last, year, i, j) && k < |s.months| && s.months[k] == s.months[i]
    ensures Hit(s, from, last, year, k, j)
  {
    hide TodayAgain, TodayRuns, Sorted, DayOfWeek;
    LaterPass(s, from, year, k);
    LaterPass(s, from, year, i);
  }

  // ----- the loops -----

  /** The search goes through the months from the first on. */
  lemma {:induction false} SearchStarts(s: Schedule, from: Instant, last: Option<Instant>)
    requires TimesAreSound(s)
    ensures NothingHit(s, from, last, from.date.year, 0, 0) && Comparator(s, from, from.date.year, 0) == from.date
    ensures TimeIs(s, from, last, from.date.year, 0, 0, TimeOf(from))
  {
  }

  lemma {:induction false} DayDone(s: Schedule, from: Instant, last: Option<Instant>, year: int, i: nat, j: nat)
    requires TimesAreSound(s) && i < |s.months| && j < |s.daysOfMonth|
    requires NothingHit(s, from, last, year, i, j) && !Hit(s, from, last, year, i, j)
    ensures NothingHit(s, from, last, year, i, j + 1)
  {
    hide Hit;
  }

  lemma {:induction false} MonthSkipped(s: Schedule, from: Instant, last: Option<Instant>, year: int, i: nat,
                                        time: Time)
    requires TimesAreSound(s) && IsReference(from) && i < |s.months| && NothingHit(s, from, last, year, i, 0)
    requires !InMonth(s, from, year, i) && TimeIs(s, from, last, year, i, 0, time)
    ensures NothingHit(s, from, last, year, i + 1, 0)
    ensures Comparator(s, from, year, i + 1) == Comparator(s, from, year, i)
    ensures TimeIs(s, from, last, year, i + 1, 0, time)
  {
    hide TodayAgain, TodayRuns, TimeAfter, DayOfWeek;
  }

  lemma {:induction false} MonthDone(s: Schedule, from: Instant, last: Option<Instant>, year: int, i: nat, time: Time)
    requires TimesAreSound(s) && IsReference(from) && i < |s.months|
    requires NothingHit(s, from, last, year, i, |s.daysOfMonth|)
    requires InMonth(s, from, year, i) && TimeIs(s, from, last, year, i, |s.daysOfMonth|, time)
    ensures NothingHit(s, from, last, year, i + 1, 0)
    ensures TimeIs(s, from, last, year, i + 1, 0, time)
  {
    hide Hit, TimeAfter, DayOfWeek;
    assert s.daysOfMonth[..|s.daysOfMonth|] == s.daysOfMonth;
    assert s.months[..i + 1] == s.months[..i] + [s.months[i]];
  }

  /** The comparison is with a date of the same year and month throughout a year. */
  lemma {:induction false} ComparatorSteps(s: Schedule, from: Instant, year: int, i: nat)
    requires i < |s.months|
    ensures var d := Comparator(s, from, year, i);
            && (InMonth(s, from, year, i) <==> NotBefore(Date(year, s.months[i], 1), Date(d.year, d.month, 1)))
            && (InMonth(s, from, year, i) ==>
                  Comparator(s, from, year, i + 1) == if s.daysOfMonth == [] then d else Date(d.year, d.month, 1))
  {
    hide IsDate;
    if !InMonth(s, from, year, i) {
      return;
    }
    assert exists k :: 0 <= k < i + 1 && InMonth(s, from, year, k);
  }

  lemma {:induction false} YearDone(s: Schedule, from: Instant, last: Option<Instant>, year: int, time: Time)
    requires TimesAreSound(s) && from.date.year <= year && NothingHit(s, from, last, year, |s.months|, 0)
    requires TimeIs(s, from, last, year, |s.months|, 0, time)
    ensures NothingHit(s, from, last, year + 1, 0, 0) && Comparator(s, from, year + 1, 0) == Date(year + 1, 1, 1)
    ensures TimeIs(s, from, last, year + 1, 0, 0, time)
  {
    hide Hit, TimeAfter, DayOfWeek;
    assert s.months[..|s.months|] == s.months;
  }

  // ----- the time asked for -----

  /** The time to ask for after the reference date has come up: midnight when nothing is left, and
      otherwise one that gives nothing but what has been executed. */
  ghost predicate TimeAfter(s: Schedule, from: Instant, last: Option<Instant>, time: Time)
    requires TimesAreSound(s) && IsDate(from.date)
  {
    if exists t :: GivesTime(s, TimeOf(from), t) then
      && (time == TimeOf(from)
          || (time == Time(TimeOf(from).hour, 0, 0) && time.hour in s.hours && NoneLeft(s, TimeOf(from))))
      && forall t :: GivesTime(s, TimeOf(from), t) ==> Executed(from, last, At(from.date, t))
    else time == Time(0, 0, 0)
  }

  ghost predicate TimeIs(s: Schedule, from: Instant, last: Option<Instant>, year: int, i: nat, j: nat, time: Time)
    requires TimesAreSound(s) && i <= |s.months| && j <= |s.daysOfMonth|
  {
    if ListsDate(s, from.date) && CameUp(s, from, year, i, j) then TimeAfter(s, from, last, time)
    else time == TimeOf(from)
  }

  lemma {:induction false} HourStartIsFirst(s: Schedule, hour: int, u: Time)
    requires TimesAreSound(s) && hour in s.hours && ListsTime(s, u) && 3600 * hour <= SecondOfDay(u)
    ensures SecondOfDay(HourStart(s, hour)) <= SecondOfDay(u)
  {
    var j :| 0 <= j < |s.minutes| && s.minutes[j] == u.minute;
    var k :| 0 <= k < |s.seconds| && s.seconds[k] == u.second;
    if u.hour != hour {
      TimesAreOrdered(s, u, HourStart(s, hour));
    }
  }

  /** What findTime gives at a full hour that is listed. */
  lemma {:induction false} FullHourGives(s: Schedule, hour: int, t: Time)
    requires TimesAreSound(s) && hour in s.hours
    ensures !NoneLeft(s, Time(hour, 0, 0))
    ensures GivesTime(s, Time(hour, 0, 0), t) <==> t == HourStart(s, hour)
  {
    hide Sorted;
    var u, from := HourStart(s, hour), Time(hour, 0, 0);
    SomeIsLeft(s, hour);
    assert ListsTime(s, u);
    forall v | ListsTime(s, v) && SecondOfDay(from) <= SecondOfDay(v) ensures SecondOfDay(u) <= SecondOfDay(v) {
      HourStartIsFirst(s, hour, v);
    }
    OnlyFirst(s, from, u, t);
  }

  lemma {:induction false} MidnightGives(s: Schedule, from: Time, t: Time)
    requires TimesAreSound(s) && from == Time(0, 0, 0)
    ensures !NoneLeft(s, from)
    ensures GivesTime(s, from, t) <==> t == DayStart(s)
  {
    hide IsFirstTime, NoneLeft, ListedOnce, DayStart, HourStart;
    SomeIsLeft(s, 0);
    DayStartIsFirstTime(s, from);
    OnlyFirst(s, from, DayStart(s), t);
  }

  lemma {:induction false} DayStartIsFirstTime(s: Schedule, from: Time)
    requires TimesAreSound(s) && from == Time(0, 0, 0)
    ensures IsFirstTime(s, from, DayStart(s))
  {
    hide ListsTime;
    DayStartIsListed(s);
    TimesAreOrdered(s, DayStart(s), DayStart(s));
    forall v | ListsTime(s, v) ensures SecondOfDay(DayStart(s)) <= SecondOfDay(v) {
      DayStartIsFirst(s, v);
    }
  }

  lemma {:induction false} SomeIsLeft(s: Schedule, hour: int)
    requires TimesAreSound(s)
    ensures !NoneLeft(s, Time(hour, 0, 0))
  {
    assert s.minutes[0] in s.minutes && s.seconds[0] in s.seconds;
    assert 0 <= 60 * s.minutes[0] + s.seconds[0];
  }

  lemma {:induction false} OnlyFirst(s: Schedule, from: Time, u: Time, t: Time)
    requires TimesAreSound(s) && IsFirstTime(s, from, u)
    ensures IsFirstTime(s, from, t) <==> t == u
  {
    if IsFirstTime(s, from, t) {
      TimesAreOrdered(s, t, u);
    }
  }

  lemma {:induction false} SoonerIsExecuted(from: Instant, last: Option<Instant>, t: Time, u: Time)
    requires IsDate(from.date) && Executed(from, last, At(from.date, u)) && SecondOfDay(t) <= SecondOfDay(u)
    ensures Executed(from, last, At(from.date, t))
  {
    hide DayNumber, SecondOfDay;
  }

  /** The first time the reference date comes up. */
  lemma {:induction false} FirstVisit(s: Schedule, from: Instant, last: Option<Instant>, t: Option<Time>,
                                      reference: Time)
    requires TimesAreSound(s) && IsReference(from) && ListsDate(s, from.date)
    requires FindsTime(s, TimeOf(from), t, reference)
    ensures TodayRuns(s, from, last) <==> t.Some? && !Executed(from, last, At(from.date, t.value))
    ensures !TodayRuns(s, from, last) ==> TimeAfter(s, from, last, reference)
  {
    hide GivesTime, ListsDate, NoneLeft, TimeOf, Executed, TimesAreSound, SecondOfDay;
    if t.Some? {
      assert GivesTime(s, TimeOf(from), t.value);
      assert forall u :: GivesTime(s, TimeOf(from), u) ==> Some(u) == t;
    } else {
      assert forall u :: GivesTime(s, TimeOf(from), u) ==> Some(u) == t;
    }
  }

  /** And any further time. */
  lemma {:induction false} FurtherVisit(s: Schedule, from: Instant, last: Option<Instant>, time: Time,
                                        t: Option<Time>, reference: Time)
    requires TimesAreSound(s) && IsReference(from) && ListsDate(s, from.date)
    requires TimeAfter(s, from, last, time) && FindsTime(s, time, t, reference)
    ensures TimeAfter(s, from, last, reference)
    ensures TodayAgain(s, from, last) <==> t.Some? && !Executed(from, last, At(from.date, t.value))
    ensures TodayAgain(s, from, last) ==> t == Some(DayStart(s))
  {
    hide GivesTime, ListsDate, NoneLeft, TimeOf, Executed, TimesAreSound, SecondOfDay, DayStart;
    if u :| GivesTime(s, TimeOf(from), u) {
      if time == TimeOf(from) {
        assert t == Some(u);
      } else {
        HourIsExecuted(s, from, last, u);
        var v := HourStart(s, time.hour);
        FullHourGives(s, time.hour, v);
        assert t == Some(v);
      }
    } else {
      MidnightGives(s, time, DayStart(s));
      assert t == Some(DayStart(s));
    }
  }

  /** Once its hour is used up, a time that gives something executed gives nothing later at its full
      hour. */
  lemma {:induction false} HourIsExecuted(s: Schedule, from: Instant, last: Option<Instant>, u: Time)
    requires TimesAreSound(s) && IsReference(from) && GivesTime(s, TimeOf(from), u)
    requires TimeOf(from).hour in s.hours && Executed(from, last, At(from.date, u))
    ensures Executed(from, last, At(from.date, HourStart(s, TimeOf(from).hour)))
  {
    hide TimeOf, Executed;
    var hour := TimeOf(from).hour;
    if !StaysInHour(s, TimeOf(from)) {
      HourStartIsFirst(s, hour, u);
      SoonerIsExecuted(from, last, HourStart(s, hour), u);
    }
  }

  lemma {:induction false} AskedIsTime(s: Schedule, from: Instant, last: Option<Instant>,
                                       year: int, i: nat, j: nat, time: Time)
    requires TimesAreSound(s) && IsReference(from) && i <= |s.months| && j <= |s.daysOfMonth|
    requires TimeIs(s, from, last, year, i, j, time)
    ensures IsTime(time)
  {
    hide GivesTime, ListsDate, NoneLeft, TimeOf, Executed, TimesAreSound;
  }

  /** A position on the reference date that is looked at. */
  lemma {:induction false} Visit(s: Schedule, from: Instant, last: Option<Instant>, year: int, i: nat, j: nat,
                                 time: Time, t: Option<Time>, reference: Time)
    requires IsSound(s) && IsReference(from) && i < |s.months| && j < |s.daysOfMonth|
    requires InMonth(s, from, year, i) && NotBefore(DateAt(s, year, i, j), Comparator(s, from, year, i))
    requires DateAt(s, year, i, j) == from.date && DayOfWeek(from.date) in s.daysOfWeek
    requires TimeIs(s, from, last, year, i, j, time) && FindsTime(s, time, t, reference)
    ensures Hit(s, from, last, year, i, j) <==> t.Some? && !Executed(from, last, At(from.date, t.value))
    ensures Hit(s, from, last, year, i, j) ==> TakesTime(s, from, last, year, i, j, t.value)
    ensures !Hit(s, from, last, year, i, j) ==> TimeIs(s, from, last, year, i, j + 1, reference)
  {
    hide GivesTime, DayOfWeek, Executed, Comparator, InMonth, TimeAfter, TodayAgain, TodayRuns;
    if CameUp(s, from, year, i, j) {
      FurtherVisit(s, from, last, time, t, reference);
    } else {
      FirstVisit(s, from, last, t, reference);
    }
    assert s.daysOfMonth[..j + 1] == s.daysOfMonth[..j] + [s.daysOfMonth[j]];
  }

  /** A day that is not the reference date, or is not looked at, leaves the time as it is. */
  lemma {:induction false} NoVisit(s: Schedule, from: Instant, last: Option<Instant>, year: int, i: nat, j: nat,
                                   time: Time)
    requires IsSound(s) && IsReference(from) && i < |s.months| && j < |s.daysOfMonth|
    requires TimeIs(s, from, last, year, i, j, time)
    requires var c := DateAt(s, year, i, j);
             c == from.date ==> !NotBefore(c, Comparator(s, from, year, i)) || DayOfWeek(c) !in s.daysOfWeek
    ensures TimeIs(s, from, last, year, i, j + 1, time)
  {
    hide DayOfWeek, TimeAfter, Sorted, TimeOf;
    assert s.daysOfMonth[..j + 1] == s.daysOfMonth[..j] + [s.daysOfMonth[j]];
    if DateAt(s, year, i, j) == from.date && ListsDate(s, from.date) && !CameUp(s, from, year, i, j) {
      FirstPass(s, from, i);
      assert false;
    }
  }

  // ----- what is returned -----

  /** Something was found in month i. */
  ghost predicate Found(s: Schedule, from: Instant, last: Option<Instant>, year: int, i: nat, r: Option<Instant>)
    requires TimesAreSound(s) && i < |s.months|
  {
    && r.Some? && Finds(s, from, last, r.value) && r.value.date.year == year && r.value.date.month == s.months[i]
    && (from.date.year < year ==> s.months[i] !in s.months[..i])
  }

  /** Something was found and the search stopped, which it may do in time or not. */
  ghost predicate FoundBy(s: Schedule, from: Instant, last: Option<Instant>, year: int, r: Option<Instant>)
    requires IsSound(s)
  {
    && r.Some? && Finds(s, from, last, r.value)
    && (WithinHorizon(s, from, r.value) <==> year <= from.date.year + 2)
  }

  lemma {:induction false} FoundIt(s: Schedule, from: Instant, last: Option<Instant>, year: int, i: nat, j: nat,
                                   t: Time)
    requires IsSound(s) && IsReference(from) && i < |s.months| && j < |s.daysOfMonth| && from.date.year <= year
    requires Hit(s, from, last, year, i, j) && NothingHit(s, from, last, year, i, j)
    requires TakesTime(s, from, last, year, i, j, t)
    ensures Found(s, from, last, year, i, Some(At(DateAt(s, year, i, j), t)))
  {
    hide Finds, Hit, NothingHit, TakesTime, Sorted;
    HitIsFind(s, from, last, year, i, j, t);
    if from.date.year < year {
      RepeatedMonthIsEmpty(s, from, last, year, i, j);
    }
  }

  /** In the last month of the list the year has gone up before the search stops. */
  lemma {:induction false} FoundInMonth(s: Schedule, from: Instant, last: Option<Instant>, year: int, i: nat,
                                        r: Option<Instant>)
    requires IsSound(s) && i < |s.months| && year <= from.date.year + 2 && Found(s, from, last, year, i, r)
    ensures FoundBy(s, from, last, if i + 1 == |s.months| then year + 1 else year, r)
  {
    hide Finds, Sorted;
    if i + 1 < |s.months| {
      assert s.months[..|s.months| - 1][i] == s.months[i];
    }
  }

  lemma {:induction false} NothingInTime(s: Schedule, from: Instant, last: Option<Instant>, x: Instant)
    requires IsSound(s) && IsReference(from) && NothingHit(s, from, last, from.date.year + 3, 0, 0)
    ensures !Returns(s, from, last, x)
  {
    hide Hit, NotAfterEnd;
    if Finds(s, from, last, x) {
      var i, j := FindHasHit(s, from, last, x);
    }
  }

  lemma {:induction false} FoundInTime(s: Schedule, from: Instant, last: Option<Instant>, year: int,
                                       found: bool, r: Option<Instant>)
    requires IsSound(s) && IsReference(from) && year <= from.date.year + 3
    requires if found then FoundBy(s, from, last, year, r) else NothingHit(s, from, last, year, 0, 0)
    ensures found ==> r.Some?
    ensures year == from.date.year + 3 ==> forall x :: !Returns(s, from, last, x)
    ensures found && year <= from.date.year + 2 ==>
              forall x :: Returns(s, from, last, x) <==> r == Some(x) && NotAfterEnd(s, x)
  {
    hide Finds, NothingHit, WithinHorizon, NotAfterEnd;
    forall x ensures found && Finds(s, from, last, x) ==> r == Some(x) {
      if found && Finds(s, from, last, x) {
        FindIsUnique(s, from, last, x, r.value);
      }
    }
    if !found && year == from.date.year + 3 {
      forall x ensures !Returns(s, from, last, x) {
        NothingInTime(s, from, last, x);
      }
    }
  }
}
