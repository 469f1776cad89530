/** The search for the next run in calendartiming.cpp. */
module CalendarTiming {
  import opened MachineWords
  import opened Sorting
  import opened Calendar
  import opened Schedules
  import opened TimeSearch
  import opened NextRuns
  import opened DueRuns
  import opened DateSearch

  ghost predicate IsSorting(xs: seq<int>, r: seq<int>) {
    Sorted(r) && multiset(r) == multiset(xs)
  }

  method SortInts(xs: seq<int>) returns (r: seq<int>)
    ensures IsSorting(xs, r)
  {
    r := Sort(xs, (x: int) => x);
  }

  class CalendarTiming {
    const schedule: Schedule
    var lastExecution: Option<Instant>

    ghost predicate Valid()
      reads this
    {
      IsSound(schedule) && (lastExecution.Some? ==> IsInstant(lastExecution.value))
    }

    /** The constructor sorts the lists. */
    constructor (start: Option<Instant>, end: Option<Instant>, months: seq<int>, daysOfWeek: seq<int>,
                 daysOfMonth: seq<int>, hours: seq<int>, minutes: seq<int>, seconds: seq<int>)
      ensures schedule.start == start && schedule.end == end && lastExecution == None
      ensures IsSorting(months, schedule.months) && IsSorting(daysOfWeek, schedule.daysOfWeek)
      ensures IsSorting(daysOfMonth, schedule.daysOfMonth) && IsSorting(hours, schedule.hours)
      ensures IsSorting(minutes, schedule.minutes) && IsSorting(seconds, schedule.seconds)
    {
      var m := SortInts(months);
      var w := SortInts(daysOfWeek);
      var d := SortInts(daysOfMonth);
      var h := SortInts(hours);
      var min := SortInts(minutes);
      var sec := SortInts(seconds);
      schedule := Schedule(start, end, m, w, d, h, min, sec);
      lastExecution := None;
    }

    /** The first listed time of day from the reference on, with one exception. The reference is changed
        on the way: to midnight when nothing is found, and to its full hour when its hour is used up. */
    method FindTime(from: Time) returns (t: Option<Time>, reference: Time)
      requires TimesAreSound(schedule) && IsTime(from)
      ensures FindsTime(schedule, from, t, reference)
    {
      hide IsFirstTime, StaysInHour, NoneLeft, HoursDone, MinutesDone, SecondsDone, SecondOfDay, Sorted;
      var s := schedule;
      var hours, minutes, seconds := 0, 0, 0;
      reference := from;
      NothingDone(s, 0, 0, from, reference);
      while hours < |s.hours|
        invariant 0 <= hours <= |s.hours| && minutes == 0 && seconds == 0
        invariant HoursDone(s, from, hours, reference)
      {
        HourSkipped(s, from, hours, reference);
        var hour := s.hours[hours];
        hours := hours + 1;
        if hour >= reference.hour {
          NothingDone(s, hour, 0, from, reference);
          while minutes < |s.minutes|
            invariant 0 <= minutes < |s.minutes| && seconds == 0
            invariant SecondOfDay(reference) <= 3600 * hour ==> minutes == 0
            invariant MinutesDone(s, hour, minutes, reference)
          {
            var minute := s.minutes[minutes];
            minutes := minutes + 1;
            assert minute in s.minutes;
            NothingDone(s, hour, minute, from, reference);
            while seconds < |s.seconds|
              invariant 0 <= seconds < |s.seconds|
              invariant SecondOfDay(reference) <= 3600 * hour ==> minutes == 1 && seconds == 0
              invariant SecondsDone(s, hour, minute, seconds, reference)
            {
              var second := s.seconds[seconds];
              seconds := seconds + 1;
              if SecondOfDay(Time(hour, minute, second)) >= SecondOfDay(reference) {
                ghost var found := Time(hour, minute, second);
                if StaysInHour(s, from) {
                  FoundInHour(s, from, hours - 1, minutes - 1, seconds - 1, reference);
                } else {
                  TimeFound(s, from, hours - 1, minutes - 1, seconds - 1, reference);
                  forall u | IsFirstTime(s, from, u) ensures u == found {
                    FirstTimeIsUnique(s, from, found, u);
                  }
                }
                ReferenceAfter(s, from, hours - 1, reference);
                return Some(Time(hour, minute, second)), reference;
              }
              SecondDone(s, hour, minute, seconds - 1, reference);
              if seconds == |s.seconds| {
                seconds := 0;
                break;
              }
            }
            MinuteDone(s, hour, minutes - 1, reference);
            if minutes == |s.minutes| {
              HourReached(s, from, hours - 1, reference);
              HourDone(s, from, hours - 1, reference);
              minutes := 0;
              reference := Time(reference.hour, 0, 0);
              break;
            }
          }
        }
      }
      NoTimeFound(s, from, reference);
      return None, Time(0, 0, 0);
    }

    /** The body of nextRun's loop over the days: looks at day j of month i. */
    method TryDay(before: Option<Instant>, today: Date, date: Date, time: Time, year: int, month: int, day: int,
                  ghost from: Instant, ghost i: nat, ghost j: nat)
      returns (nextRun: Option<Instant>, found: bool, time': Time)
      requires Valid() && IsReference(from) && today == from.date && from.date.year <= year
      requires i < |schedule.months| && schedule.months[i] == month && InMonth(schedule, from, year, i)
      requires j < |schedule.daysOfMonth| && schedule.daysOfMonth[j] == day
      requires date == Comparator(schedule, from, year, i)
      requires NothingHit(schedule, from, lastExecution, year, i, j)
      requires TimeIs(schedule, from, lastExecution, year, i, j, time)
      ensures found <==> Hit(schedule, from, lastExecution, year, i, j)
      ensures found ==> Found(schedule, from, lastExecution, year, i, nextRun)
                        && nextRun.value.date == Date(year, month, day)
      ensures !found ==> NothingHit(schedule, from, lastExecution, year, i, j + 1)
                         && TimeIs(schedule, from, lastExecution, year, i, j + 1, time')
    {
      hide NothingHit, TimeIs, Comparator, InMonth, AtMost, SecsTo, TimeOf, DayOfWeek, TodayAgain, TodayRuns, Finds;
      hide Sorted, InRange, GivesTime, CameUp;
      var s := schedule;
      ghost var last := lastExecution;
      var c := Date(year, month, day);
      nextRun, found, time' := before, false, time;
      if NotBefore(c, date) && DayOfWeek(c) in s.daysOfWeek {
        if c != today {
          nextRun := Some(At(c, Time(s.hours[0], s.minutes[0], s.seconds[0])));
          found := true;
          FoundIt(s, from, last, year, i, j, DayStart(s));
        } else {
          AskedIsTime(s, from, last, year, i, j, time);
          var t;
          t, time' := FindTime(time);
          Visit(s, from, last, year, i, j, time, t, time');
          if t.Some? {
            nextRun := Some(At(c, t.value));
            if lastExecution.None? || SecsTo(lastExecution.value, nextRun.value) > 1 {
              found := true;
              FoundIt(s, from, last, year, i, j, t.value);
            }
          }
        }
      } else {
        NoVisit(s, from, last, year, i, j, time);
      }
      if !found {
        DayDone(s, from, last, year, i, j);
      }
    }

    /** What it returns for every schedule, and that this is the earliest run from now or the start on
        that has not been executed, within the horizon and not after the end, exactly if the search is
        not misled: by entries listed twice, or by giving up a day after its first run. */
    method NextRun(now0: Instant) returns (r: Option<Instant>)
      requires Valid() && IsInstant(now0)
      ensures forall x :: r == Some(x) <==> Returns(schedule, Reference(schedule, now0), lastExecution, x)
      ensures (forall x :: r == Some(x) <==> ShouldReturn(schedule, Reference(schedule, now0), lastExecution, x))
              <==> !Misled(schedule, Reference(schedule, now0), lastExecution)
      ensures !Misled(schedule, Reference(schedule, now0), lastExecution)
              && (schedule.end.Some? ==> IsInstant(schedule.end.value)) ==>
                IsRight(schedule, now0, lastExecution, r)
    {
      hide Hit, NothingHit, TimeIs, Comparator, InMonth, Found, FoundBy, AtMost, Before, Returns, ShouldReturn, Misled;
      hide WithinHorizon, SecsTo, TimeOf, Milliseconds, DayOfWeek, Sorted, InRange, IsRight;
      var s := schedule;
      ghost var from, last := Reference(s, now0), lastExecution;
      ReferenceIsSound(s, now0);
      MisledIsExact(s, from, last);
      RightUnlessMisled(s, now0, last);
      var nextRun: Option<Instant> := None;
      var now, date, time := now0, now0.date, TimeOf(now0);
      if s.start.Some? && Before(now, s.start.value) {
        date, time := s.start.value.date, TimeOf(s.start.value);
        now := At(date, time);
      }
      var year, month, day, found := date.year, date.month, date.day, false;
      var months, days := 0, 0;
      SearchStarts(s, from, last);
      while !found
        invariant from.date.year <= year <= from.date.year + 2
        invariant !found ==> months == 0 && NothingHit(s, from, last, year, 0, 0)
                             && date == Comparator(s, from, year, 0) && TimeIs(s, from, last, year, 0, 0, time)
        invariant found ==> FoundBy(s, from, last, year, nextRun)
        decreases !found, from.date.year + 2 - year
      {
        ghost var thisYear := year;
        while months < |s.months| && !found
          invariant 0 <= months < |s.months| && year == thisYear
          invariant !found ==> NothingHit(s, from, last, year, months, 0) && date == Comparator(s, from, year, months)
                               && TimeIs(s, from, last, year, months, 0, time)
          invariant found ==> FoundBy(s, from, last, year, nextRun)
        {
          month := s.months[months];
          months := months + 1;
          ghost var i := months - 1;
          ComparatorSteps(s, from, year, i);
          if NotBefore(Date(year, month, 1), Date(date.year, date.month, 1)) {
            days := 0;
            while days < |s.daysOfMonth| && !found
              invariant 0 <= days <= |s.daysOfMonth| && (days == |s.daysOfMonth| ==> days == 0)
              invariant date == Comparator(s, from, year, i)
              invariant !found ==> NothingHit(s, from, last, year, i, days)
                                   && TimeIs(s, from, last, year, i, days, time)
              invariant found ==> Found(s, from, last, year, i, nextRun)
            {
              day := s.daysOfMonth[days];
              days := days + 1;
              nextRun, found, time :=
                TryDay(nextRun, now.date, date, time, year, month, day, from, i, days - 1);
              if days == |s.daysOfMonth| {
                date := Date(date.year, date.month, 1);
                break;
              }
            }
            if !found {
              MonthDone(s, from, last, year, i, time);
            }
          } else {
            MonthSkipped(s, from, last, year, i, time);
          }
          if found {
            FoundInMonth(s, from, last, year, i, nextRun);
          }
          if months == |s.months| {
            if !found {
              YearDone(s, from, last, year, time);
            }
            months := 0;
            year := year + 1;
            date := Date(year, 1, 1);
            break;
          }
        }
        if year > now.date.year + 2 {
          FoundInTime(s, from, last, year, found, nextRun);
          return None;
        }
      }
      FoundInTime(s, from, last, year, found, nextRun);
      if s.end.Some? && Before(s.end.value, nextRun.value) {
        return None;
      }
      return nextRun;
    }

    /** Records an execution, and says whether there is another run. */
    method Reset(now: Instant, later: Instant) returns (again: bool)
      requires Valid() && IsInstant(now) && IsInstant(later)
      modifies this`lastExecution
      ensures Valid() && lastExecution == Some(now)
      ensures var from := Reference(schedule, later);
              && (again <==> exists x :: Returns(schedule, from, Some(now), x))
              && (!Misled(schedule, from, Some(now)) ==>
                    (again <==> exists x :: ShouldReturn(schedule, from, Some(now), x)))
              && (!Misled(schedule, from, Some(now)) && (schedule.end.Some? ==> IsInstant(schedule.end.value)) ==>
                    exists r :: IsRight(schedule, later, Some(now), r) && again == r.Some?)
    {
      hide Returns, ShouldReturn, Misled, Reference, IsRight;
      lastExecution := Some(now);
      var next := NextRun(later);
      again := next.Some?;
      if next.Some? {
        assert Returns(schedule, Reference(schedule, later), Some(now), next.value);
      }
    }
  }
}
