/** Why the loops of findTime find the first listed time. */
module TimeSearch {
  import opened MachineWords
  import opened Calendar
  import opened Schedules

  /** The hours already looked at: none of them offers a time, and the reference was moved back
      to its full hour when that hour was among them. */
  ghost predicate HoursDone(s: Schedule, from: Time, n: nat, reference: Time)
    requires n <= |s.hours|
  {
    && (forall k :: 0 <= k < n ==> s.hours[k] <= from.hour)
    && (from.hour in s.hours[..n] ==> NoneLeft(s, from) && reference == Time(from.hour, 0, 0))
    && (from.hour !in s.hours[..n] ==> reference == from)
    && (forall i, j :: 0 <= i < j < n ==> !(s.hours[i] == from.hour == s.hours[j]))
  }

  /** No time of the hour's first m minutes reaches the reference. */
  ghost predicate MinutesDone(s: Schedule, hour: int, m: nat, reference: Time)
    requires m <= |s.minutes|
  {
    forall i :: 0 <= i < m ==> SecondsDone(s, hour, s.minutes[i], |s.seconds|, reference)
  }

  ghost predicate SecondsDone(s: Schedule, hour: int, minute: int, k: nat, reference: Time)
    requires k <= |s.seconds|
  {
    forall j :: 0 <= j < k ==> SecondOfDay(Time(hour, minute, s.seconds[j])) < SecondOfDay(reference)
  }

  lemma {:induction false} NothingDone(s: Schedule, hour: int, minute: int, from: Time, reference: Time)
    ensures HoursDone(s, from, 0, from)
    ensures MinutesDone(s, hour, 0, reference)
    ensures SecondsDone(s, hour, minute, 0, reference)
  {
  }

  lemma {:induction false} SecondDone(s: Schedule, hour: int, minute: int, k: nat, reference: Time)
    requires TimesAreSound(s) && k < |s.seconds| && SecondsDone(s, hour, minute, k, reference) && 0 <= minute
    requires SecondOfDay(Time(hour, minute, s.seconds[k])) < SecondOfDay(reference)
    ensures SecondsDone(s, hour, minute, k + 1, reference) && 3600 * hour < SecondOfDay(reference)
  {
    assert s.seconds[k] in s.seconds;
  }

  lemma {:induction false} MinuteDone(s: Schedule, hour: int, m: nat, reference: Time)
    requires m < |s.minutes| && MinutesDone(s, hour, m, reference)
    requires SecondsDone(s, hour, s.minutes[m], |s.seconds|, reference)
    ensures MinutesDone(s, hour, m + 1, reference)
  {
  }

  lemma {:induction false} HourSkipped(s: Schedule, from: Time, n: nat, reference: Time)
    requires n < |s.hours| && HoursDone(s, from, n, reference)
    ensures reference.hour == from.hour
    ensures s.hours[n] < from.hour ==> HoursDone(s, from, n + 1, reference)
  {
  }

  lemma {:induction false} FirstOfHour(s: Schedule, hour: int, m: nat, k: nat, reference: Time, u: Time)
    requires TimesAreSound(s) && m < |s.minutes| && k < |s.seconds|
    requires MinutesDone(s, hour, m, reference) && SecondsDone(s, hour, s.minutes[m], k, reference)
    requires ListsTime(s, u) && u.hour == hour && SecondOfDay(reference) <= SecondOfDay(u)
    ensures SecondOfDay(Time(hour, s.minutes[m], s.seconds[k])) <= SecondOfDay(u)
  {
    var i :| 0 <= i < |s.minutes| && s.minutes[i] == u.minute;
    var j :| 0 <= j < |s.seconds| && s.seconds[j] == u.second;
    assert m <= i && s.minutes[m] <= s.minutes[i];
    assert s.seconds[k] in s.seconds && s.seconds[k] < 60;
    if s.minutes[i] == s.minutes[m] {
      assert k <= j;
    }
  }

  lemma {:induction false} ReferenceKept(s: Schedule, from: Time, n: nat, reference: Time)
    requires n < |s.hours| && HoursDone(s, from, n, reference) && s.hours[n] == from.hour && !StaysInHour(s, from)
    ensures reference == from
  {
  }

  lemma {:induction false} TimeFound(s: Schedule, from: Time, n: nat, m: nat, k: nat, reference: Time)
    requires TimesAreSound(s) && IsTime(from) && n < |s.hours| && m < |s.minutes| && k < |s.seconds|
    requires HoursDone(s, from, n, reference) && from.hour <= s.hours[n]
    requires SecondOfDay(reference) <= SecondOfDay(Time(s.hours[n], s.minutes[m], s.seconds[k]))
    requires MinutesDone(s, s.hours[n], m, reference) && SecondsDone(s, s.hours[n], s.minutes[m], k, reference)
    requires !StaysInHour(s, from)
    ensures IsFirstTime(s, from, Time(s.hours[n], s.minutes[m], s.seconds[k]))
  {
    var t := Time(s.hours[n], s.minutes[m], s.seconds[k]);
    if s.hours[n] == from.hour {
      ReferenceKept(s, from, n, reference);
    }
    forall u | ListsTime(s, u) && SecondOfDay(from) <= SecondOfDay(u) ensures SecondOfDay(t) <= SecondOfDay(u) {
      var i :| 0 <= i < |s.hours| && s.hours[i] == u.hour;
      assert s.hours[n] in s.hours && s.minutes[m] in s.minutes && s.seconds[k] in s.seconds;
      if u.hour == t.hour {
        FirstOfHour(s, t.hour, m, k, reference, u);
      } else if i < n {
        assert false;
      }
    }
  }

  /** When the hour is listed twice and nothing is left in it, its first time comes out. */
  lemma {:induction false} FoundInHour(s: Schedule, from: Time, n: nat, m: nat, k: nat, reference: Time)
    requires TimesAreSound(s) && IsTime(from) && n < |s.hours| && m < |s.minutes| && k < |s.seconds|
    requires HoursDone(s, from, n, reference) && from.hour <= s.hours[n]
    requires SecondOfDay(reference) <= SecondOfDay(Time(s.hours[n], s.minutes[m], s.seconds[k]))
    requires SecondOfDay(reference) <= 3600 * s.hours[n] ==> m == 0 && k == 0
    requires StaysInHour(s, from)
    ensures s.hours[n] == from.hour && m == 0 && k == 0
  {
    var i, j :| 0 <= i < j < |s.hours| && s.hours[i] == from.hour && s.hours[j] == from.hour;
    if s.hours[n] != from.hour {
      assert false;
    }
    assert s.minutes[m] in s.minutes && s.seconds[k] in s.seconds;
  }

  lemma {:induction false} HourDone(s: Schedule, from: Time, n: nat, reference: Time)
    requires TimesAreSound(s) && IsTime(from) && n < |s.hours|
    requires HoursDone(s, from, n, reference) && s.hours[n] == from.hour
    requires MinutesDone(s, from.hour, |s.minutes|, reference)
    ensures HoursDone(s, from, n + 1, Time(from.hour, 0, 0))
  {
    assert SecondsDone(s, from.hour, s.minutes[0], |s.seconds|, reference);
    assert SecondOfDay(Time(from.hour, s.minutes[0], s.seconds[0])) < SecondOfDay(reference);
    assert s.minutes[0] in s.minutes && s.seconds[0] in s.seconds;
    assert reference == from && from.hour !in s.hours[..n];
    forall m, sec | m in s.minutes && sec in s.seconds ensures 60 * m + sec < 60 * from.minute + from.second {
      var i :| 0 <= i < |s.minutes| && s.minutes[i] == m;
      var j :| 0 <= j < |s.seconds| && s.seconds[j] == sec;
      assert SecondsDone(s, from.hour, s.minutes[i], |s.seconds|, reference);
    }
  }

  /** An hour whose times all lie before the reference is the reference's hour. */
  lemma {:induction false} HourReached(s: Schedule, from: Time, n: nat, reference: Time)
    requires TimesAreSound(s) && IsTime(from) && n < |s.hours| && HoursDone(s, from, n, reference)
    requires from.hour <= s.hours[n] && 3600 * s.hours[n] < SecondOfDay(reference)
    ensures s.hours[n] == from.hour
  {
  }

  lemma {:induction false} ReferenceAfter(s: Schedule, from: Time, n: nat, reference: Time)
    requires n <= |s.hours| && HoursDone(s, from, n, reference)
    ensures reference != from ==>
              reference == Time(from.hour, 0, 0) && from.hour in s.hours && NoneLeft(s, from)
  {
  }

  /** After all hours no listed time reaches the reference, and none comes out. */
  lemma {:induction false} NoTimeFound(s: Schedule, from: Time, reference: Time)
    requires TimesAreSound(s) && IsTime(from) && HoursDone(s, from, |s.hours|, reference)
    ensures !StaysInHour(s, from)
    ensures forall u :: !IsFirstTime(s, from, u)
  {
    forall u | ListsTime(s, u) ensures SecondOfDay(u) < SecondOfDay(from) {
      var i :| 0 <= i < |s.hours| && s.hours[i] == u.hour;
    }
  }

  lemma {:induction false} FirstTimeIsUnique(s: Schedule, from: Time, t: Time, u: Time)
    requires TimesAreSound(s) && IsFirstTime(s, from, t) && IsFirstTime(s, from, u)
    ensures t == u
  {
    TimesAreOrdered(s, t, u);
  }

  /** What findTime gives, and what it leaves in the reference. */
  ghost predicate FindsTime(s: Schedule, from: Time, t: Option<Time>, reference: Time)
    requires TimesAreSound(s)
  {
    && (forall u :: t == Some(u) <==> GivesTime(s, from, u))
    && (t.None? ==> reference == Time(0, 0, 0))
    && (t.Some? && reference != from ==>
          reference == Time(from.hour, 0, 0) && from.hour in s.hours && NoneLeft(s, from))
  }
}
