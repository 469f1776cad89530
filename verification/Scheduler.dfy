/** The queue of timed tests in scheduler.cpp, its set of ids and its single-shot timer. */
module Scheduler {
  import opened MachineWords

  /** A schedule definition: equality in the source is equality of ids. The timing stands for the
      state of the timing object. */
  datatype Test = Test(id: int, timing: int)

  /** What the timing objects answer during one operation. */
  datatype Timings = Timings(timeLeft: Test -> int, hasNextRun: Test -> bool)

  /** A started timer, with the test it was started for, the time asked for and the interval. */
  datatype Timer = Stopped | Started(id: int, asked: int, interval: int)

  /** The queue and what goes with it. Each entry has a serial number, by arrival. */
  datatype Fields = Fields(tests: seq<Test>, serials: seq<nat>, arrivals: nat, testIds: set<int>, timer: Timer)

  const EMPTY: Fields := Fields([], [], 0, {}, Stopped)

  type State = s: Fields | |s.serials| == |s.tests| witness EMPTY

  /** A 64-bit number as QTimer::start takes it, an int of 32 bits. */
  function ToInt(ms: int): (r: int)
    ensures -TWO_31 <= r < TWO_31
  {
    var low := ms % TWO_32;
    if low < TWO_31 then low else low - TWO_32
  }

  function StartedFor(head: Test, timeLeft: int): Timer {
    var asked := if timeLeft > 0 then timeLeft else 100;
    Started(head.id, asked, ToInt(asked))
  }

  function WithTimer(s: State, timings: Timings): State {
    s.(timer := if s.tests == [] then Stopped else StartedFor(s.tests[0], timings.timeLeft(s.tests[0])))
  }

  /** Where a test goes: before the first one that is due later. */
  function Place(tests: seq<Test>, t: Test, timings: Timings): (i: nat)
    ensures i <= |tests|
  {
    if tests == [] || timings.timeLeft(t) < timings.timeLeft(tests[0]) then 0
    else 1 + Place(tests[1..], t, timings)
  }

  function Refused(s: State, t: Test, timings: Timings): bool {
    t.id in s.testIds || !timings.hasNextRun(t)
  }

  function AfterEnqueue(s: State, t: Test, timings: Timings): State
  {
    if Refused(s, t, timings) then s
    else
      var i := Place(s.tests, t, timings);
      var u: State := Fields(s.tests[..i] + [t] + s.tests[i..], s.serials[..i] + [s.arrivals] + s.serials[i..],
                     s.arrivals + 1, s.testIds + {t.id}, s.timer);
      if i == 0 then WithTimer(u, timings) else u
  }

  /** The position that enqueue returns. */
  function EnqueuedAt(s: State, t: Test, timings: Timings): int {
    if Refused(s, t, timings) then -1 else Place(s.tests, t, timings)
  }

  function IndexOf(tests: seq<Test>, id: int): (i: int)
    ensures -1 <= i < |tests|
    ensures if i == -1 then forall t <- tests :: t.id != id
            else tests[i].id == id && forall j :: 0 <= j < i ==> tests[j].id != id
  {
    if tests == [] then -1
    else if tests[0].id == id then 0
    else
      var i := IndexOf(tests[1..], id);
      assert tests == [tests[0]] + tests[1..];
      if i == -1 then -1 else i + 1
  }

  function Without(s: State, i: int): State
    requires -1 <= i < |s.tests|
  {
    if i == -1 then s else s.(tests := s.tests[..i] + s.tests[i + 1..], serials := s.serials[..i] + s.serials[i + 1..])
  }

  function AfterDequeue(s: State, id: int, timings: Timings): State
  {
    var i := IndexOf(s.tests, id);
    var t := Without(s, i).(testIds := s.testIds - {id});
    if i == 0 then WithTimer(t, timings) else t
  }

  /** The timeout: the timer, which is single-shot, has stopped. The head is left alone when it
      was executed in the last 1.5 s; otherwise it is executed, and comes back, with its timing
      reset, when there is another run. */
  function AfterTimeout(s: State, sinceLast: Option<int>, again: bool, timing: int, timings: Timings): State
    requires s.tests != []
  {
    var td := s.tests[0];
    var stopped := s.(timer := Stopped);
    if sinceLast.Some? && sinceLast.value < 1500 then WithTimer(stopped, timings)
    else
      var t := Without(stopped, 0).(testIds := s.testIds - {td.id});
      var back := td.(timing := timing);
      if !again then WithTimer(t, timings)
      else if EnqueuedAt(t, back, timings) == 0 then AfterEnqueue(t, back, timings)
      else WithTimer(AfterEnqueue(t, back, timings), timings)
  }

  /** Every id is queued once, and the set holds exactly the queued ids. */
  ghost predicate IdsAre(tests: seq<Test>, ids: set<int>) {
    && (forall i, j :: 0 <= i < j < |tests| ==> tests[i].id != tests[j].id)
    && (forall t <- tests :: t.id in ids)
    && (forall id <- ids :: exists t :: t in tests && t.id == id)
  }

  /** The timer is started if and only if there is a queue, and for its head, with the interval that
      QTimer makes of the time asked for. */
  predicate TimerAgrees(s: State) {
    if s.tests == [] then s.timer.Stopped?
    else
      && s.timer.Started? && s.timer.id == s.tests[0].id
      && s.timer.asked > 0 && s.timer.interval == ToInt(s.timer.asked)
  }

  // ----- the scheduler itself -----

  class Scheduler {
    var tests: seq<Test>
    var testIds: set<int>
    var timer: Timer
    var executed: seq<Test>
    ghost var serials: seq<nat>
    ghost var arrivals: nat

    ghost function Now(): State
      requires |serials| == |tests|
      reads this
    {
      Fields(tests, serials, arrivals, testIds, timer)
    }

    constructor ()
      ensures |serials| == |tests| && Now() == EMPTY && executed == []
    {
      tests, testIds, timer, executed := [], {}, Stopped, [];
      serials, arrivals := [], 0;
    }

    method UpdateTimer(timings: Timings)
      requires |serials| == |tests|
      modifies this`timer
      ensures |serials| == |tests| && Now() == WithTimer(old(Now()), timings)
      ensures tests == [] ==> timer == Stopped
      ensures tests != [] ==>
                var ms := timings.timeLeft(tests[0]);
                timer == Started(tests[0].id, if ms > 0 then ms else 100, ToInt(if ms > 0 then ms else 100))
    {
      if tests == [] {
        timer := Stopped;
      } else {
        var td := tests[0];
        var ms := timings.timeLeft(td);
        if ms > 0 {
          timer := Started(td.id, ms, ToInt(ms));
        } else {
          timer := Started(td.id, 100, 100);
        }
      }
    }

    ghost method Arrive(i: nat)
      requires i <= |serials|
      modifies this`serials, this`arrivals
      ensures serials == old(serials[..i] + [arrivals] + serials[i..]) && arrivals == old(arrivals) + 1
    {
      serials := serials[..i] + [arrivals] + serials[i..];
      arrivals := arrivals + 1;
    }

    method Enqueue(t: Test, timings: Timings) returns (position: int)
      requires |serials| == |tests|
      modifies this`tests, this`testIds, this`timer, this`serials, this`arrivals
      ensures |serials| == |tests| && Now() == AfterEnqueue(old(Now()), t, timings)
      ensures position == EnqueuedAt(old(Now()), t, timings)
      ensures position == -1 <==> t.id in old(testIds) || !timings.hasNextRun(t)
      ensures position == -1 ==> Now() == old(Now())
      ensures position != -1 ==>
                && 0 <= position <= |old(tests)| && testIds == old(testIds) + {t.id}
                && tests == old(tests)[..position] + [t] + old(tests)[position..]
    {
      if t.id in testIds || !timings.hasNextRun(t) {
        return -1;
      }
      var timeLeft := timings.timeLeft(t);
      for i := 0 to |tests|
        invariant |serials| == |tests| && Now() == old(Now())
        invariant Place(tests, t, timings) == i + Place(tests[i..], t, timings)
      {
        var td := tests[i];
        if timeLeft < timings.timeLeft(td) {
          tests := tests[..i] + [t] + tests[i..];
          testIds := testIds + {t.id};
          Arrive(i);
          if i == 0 {
            UpdateTimer(timings);
          }
          return i;
        }
        assert tests[i..][1..] == tests[i + 1..];
      }
      Arrive(|tests|);
      assert tests[..|tests|] == tests && tests[|tests|..] == [];
      tests := tests + [t];
      testIds := testIds + {t.id};
      if |tests| == 1 {
        UpdateTimer(timings);
      }
      return |tests| - 1;
    }

    /** QList::removeAt, which ignores a position outside the list. */
    method RemoveAt(position: int)
      requires -1 <= position < |tests| == |serials|
      modifies this`tests, this`serials
      ensures |serials| == |tests| && Now() == Without(old(Now()), position)
    {
      if 0 <= position {
        tests := tests[..position] + tests[position + 1..];
        serials := serials[..position] + serials[position + 1..];
      }
    }

    method Dequeue(id: int, timings: Timings) returns (position: int)
      requires |serials| == |tests|
      modifies this`tests, this`testIds, this`timer, this`serials
      ensures |serials| == |tests| && Now() == AfterDequeue(old(Now()), id, timings)
      ensures position == IndexOf(old(tests), id)
      ensures testIds == old(testIds) - {id}
      ensures if position == -1 then tests == old(tests) && forall t <- tests :: t.id != id
              else 0 <= position < |old(tests)| && old(tests)[position].id == id
                   && tests == old(tests)[..position] + old(tests)[position + 1..]
    {
      position := IndexOf(tests, id);
      RemoveAt(position);
      testIds := testIds - {id};
      if position == 0 {
        UpdateTimer(timings);
      }
    }

    /** The slot timeout, which the timer calls when it has stopped. */
    method Timeout(sinceLast: Option<int>, again: bool, timing: int, timings: Timings)
      requires tests != [] && |serials| == |tests| && timer.Stopped?
      modifies this
      ensures |serials| == |tests| && Now() == AfterTimeout(old(Now()), sinceLast, again, timing, timings)
      ensures executed == old(executed)
                          + if sinceLast.Some? && sinceLast.value < 1500 then [] else [old(tests[0])]
    {
      var td := tests[0];
      if sinceLast.Some? && sinceLast.value < 1500 {
        UpdateTimer(timings);
        return;
      }
      RemoveAt(0);
      testIds := testIds - {td.id};
      executed := executed + [td];
      if !again {
        UpdateTimer(timings);
      } else {
        var position := Enqueue(td.(timing := timing), timings);
        if position != 0 {
          UpdateTimer(timings);
        }
      }
    }
  }
}
