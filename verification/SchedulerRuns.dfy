/** What every run of the scheduler keeps. */
module SchedulerRuns {
  import opened MachineWords
  import opened Scheduler

  datatype Event =
    | Enqueue(test: Test, timings: Timings)
    | Dequeue(id: int, timings: Timings)
    | Fire(sinceLast: Option<int>, again: bool, timing: int, timings: Timings)

  /** One operation. A stopped timer does not fire; a firing timer needs a test to look at. */
  function Step(s: State, e: Event): Option<State> {
    match e
    case Enqueue(t, timings) => Some(AfterEnqueue(s, t, timings))
    case Dequeue(id, timings) => Some(AfterDequeue(s, id, timings))
    case Fire(since, again, timing, timings) =>
      if s.timer.Stopped? then Some(s)
      else if s.tests == [] then None
      else Some(AfterTimeout(s, since, again, timing, timings))
  }

  function Run(s: State, events: seq<Event>): Option<State> {
    if events == [] then Some(s)
    else
      var before := Run(s, events[..|events| - 1]);
      if before.None? then None else Step(before.value, events[|events| - 1])
  }

  // ----- queue, ids and timer agree -----

  lemma {:induction false} InsertedDiffers(tests: seq<Test>, i: nat, t: Test)
    requires i <= |tests| && forall u <- tests :: u.id != t.id
    requires forall j, k :: 0 <= j < k < |tests| ==> tests[j].id != tests[k].id
    ensures var more := tests[..i] + [t] + tests[i..];
            forall j, k :: 0 <= j < k < |more| ==> more[j].id != more[k].id
  {
    var more := tests[..i] + [t] + tests[i..];
    forall j, k | 0 <= j < k < |more| ensures more[j].id != more[k].id {
      assert j != i ==> more[j] == tests[if j < i then j else j - 1];
      assert k != i ==> more[k] == tests[if k < i then k else k - 1];
    }
  }

  /** The others are still there, each where it was or one place later. */
  lemma {:induction false} OthersStay(tests: seq<Test>, i: nat, t: Test)
    requires i <= |tests|
    ensures var more := tests[..i] + [t] + tests[i..];
            && (forall k :: 0 <= k < |more| && k != i ==> more[k] == tests[if k < i then k else k - 1])
            && more[i] == t && t in more && (forall k :: 0 <= k < |tests| ==> tests[k] in more)
  {
    var more := tests[..i] + [t] + tests[i..];
    assert more[i] == t;
    forall k | 0 <= k < |tests| ensures tests[k] in more {
      assert more[if k < i then k else k + 1] == tests[k];
    }
  }

  lemma {:induction false} Inserted(tests: seq<Test>, i: nat, t: Test, ids: set<int>)
    requires i <= |tests| && IdsAre(tests, ids) && t.id !in ids
    ensures IdsAre(tests[..i] + [t] + tests[i..], ids + {t.id})
  {
    OthersStay(tests, i, t);
    InsertedDiffers(tests, i, t);
    var more := tests[..i] + [t] + tests[i..];
    forall id | id in ids ensures exists u :: u in more && u.id == id {
      var u :| u in tests && u.id == id;
      var k :| 0 <= k < |tests| && tests[k] == u;
      assert tests[k] in more;
    }
  }

  /** The others are still there, each where it was or one place earlier. */
  lemma {:induction false} OthersRemain(tests: seq<Test>, i: nat)
    requires i < |tests|
    ensures var less := tests[..i] + tests[i + 1..];
            && (forall k :: 0 <= k < |less| ==> less[k] == tests[if k < i then k else k + 1])
            && (forall k :: 0 <= k < |tests| && k != i ==> tests[k] in less)
  {
    var less := tests[..i] + tests[i + 1..];
    forall k | 0 <= k < |tests| && k != i ensures tests[k] in less {
      assert less[if k < i then k else k - 1] == tests[k];
    }
  }

  lemma {:induction false} Removed(tests: seq<Test>, i: nat, ids: set<int>)
    requires i < |tests| && IdsAre(tests, ids)
    ensures IdsAre(tests[..i] + tests[i + 1..], ids - {tests[i].id})
  {
    OthersRemain(tests, i);
    var less := tests[..i] + tests[i + 1..];
    forall u | u in less ensures u.id in ids - {tests[i].id} {
      var k :| 0 <= k < |less| && less[k] == u;
      assert tests[if k < i then k else k + 1] == u;
    }
    forall id | id in ids - {tests[i].id} ensures exists u :: u in less && u.id == id {
      var u :| u in tests && u.id == id;
      var k :| 0 <= k < |tests| && tests[k] == u;
      assert tests[k] in less;
    }
  }

  lemma {:induction false} EnqueueAgrees(s: State, t: Test, timings: Timings)
    requires IdsAre(s.tests, s.testIds)
    ensures var u := AfterEnqueue(s, t, timings); IdsAre(u.tests, u.testIds)
    ensures TimerAgrees(s) || EnqueuedAt(s, t, timings) == 0 ==> TimerAgrees(AfterEnqueue(s, t, timings))
  {
    hide IdsAre, ToInt;
    if !Refused(s, t, timings) {
      var i := Place(s.tests, t, timings);
      Inserted(s.tests, i, t, s.testIds);
    }
  }

  lemma {:induction false} WithoutAgrees(s: State, i: nat)
    requires i < |s.tests| && IdsAre(s.tests, s.testIds)
    ensures IdsAre(Without(s, i).tests, s.testIds - {s.tests[i].id})
  {
    hide IdsAre;
    Removed(s.tests, i, s.testIds);
  }

  lemma {:induction false} DequeueAgrees(s: State, id: int, timings: Timings)
    requires IdsAre(s.tests, s.testIds) && TimerAgrees(s)
    ensures var u := AfterDequeue(s, id, timings); IdsAre(u.tests, u.testIds) && TimerAgrees(u)
  {
    hide ToInt, IdsAre;
    var i := IndexOf(s.tests, id);
    if i == -1 {
      UnknownId(s.tests, s.testIds, id);
    } else {
      WithoutAgrees(s, i);
    }
  }

  lemma {:induction false} UnknownId(tests: seq<Test>, ids: set<int>, id: int)
    requires IdsAre(tests, ids) && forall t <- tests :: t.id != id
    ensures id !in ids && ids - {id} == ids
  {
  }

  lemma {:induction false} TimeoutAgrees(s: State, since: Option<int>, again: bool, timing: int, timings: Timings)
    requires IdsAre(s.tests, s.testIds) && s.tests != []
    ensures var u := AfterTimeout(s, since, again, timing, timings); IdsAre(u.tests, u.testIds) && TimerAgrees(u)
  {
    hide ToInt, IdsAre, Place, Refused;
    if !(since.Some? && since.value < 1500) {
      WithoutAgrees(s, 0);
      var td := s.tests[0];
      var t := Without(s.(timer := Stopped), 0).(testIds := s.testIds - {td.id});
      EnqueueAgrees(t, td.(timing := timing), timings);
    }
  }

  /** In every run queued ids are distinct, testIds is exactly their set, the timer is started if
      and only if the queue is not empty, for the head, and timeout never looks at an empty queue. */
  lemma {:induction false} EveryRunAgrees(events: seq<Event>)
    ensures var s := Run(EMPTY, events);
            s.Some? && IdsAre(s.value.tests, s.value.testIds) && TimerAgrees(s.value)
  {
    hide IdsAre, AfterEnqueue, AfterDequeue, AfterTimeout;
    if events == [] {
      NothingAgrees();
    } else {
      var before := events[..|events| - 1];
      EveryRunAgrees(before);
      var s := Run(EMPTY, before).value;
      match events[|events| - 1]
      case Enqueue(t, timings) => EnqueueAgrees(s, t, timings);
      case Dequeue(id, timings) => DequeueAgrees(s, id, timings);
      case Fire(since, again, timing, timings) =>
        if s.tests != [] { TimeoutAgrees(s, since, again, timing, timings); }
    }
  }

  lemma {:induction false} NothingAgrees()
    ensures IdsAre(EMPTY.tests, EMPTY.testIds) && TimerAgrees(EMPTY)
  {
  }

  /** A test leaves the scheduler at its timeout exactly when it is executed and has no further
      run; otherwise the same ids stay. */
  lemma {:induction false} TestsComeBack(s: State, since: Option<int>, again: bool, timing: int, timings: Timings)
    requires IdsAre(s.tests, s.testIds) && s.tests != []
    ensures var td := s.tests[0];
            var runs := !(since.Some? && since.value < 1500);
            var leaves := runs && !(again && timings.hasNextRun(td.(timing := timing)));
            AfterTimeout(s, since, again, timing, timings).testIds
            == if leaves then s.testIds - {td.id} else s.testIds
  {
    hide IdsAre, ToInt, Place;
    assert s.tests[0].id in s.testIds by { HeadIsKnown(s); }
    assert s.testIds - {s.tests[0].id} + {s.tests[0].id} == s.testIds;
  }

  lemma {:induction false} HeadIsKnown(s: State)
    requires IdsAre(s.tests, s.testIds) && s.tests != []
    ensures s.tests[0].id in s.testIds
  {
  }

  // ----- what an operation does to the queue -----

  /** A test is refused exactly if its id is queued or it has no next run; otherwise it is put into the
      queue, and the others stay as they are. */
  lemma {:induction false} EnqueueAdds(s: State, t: Test, timings: Timings)
    ensures var u, p := AfterEnqueue(s, t, timings), EnqueuedAt(s, t, timings);
            if t.id in s.testIds || !timings.hasNextRun(t) then p == -1 && u == s
            else
              && 0 <= p <= |s.tests| && u.tests == s.tests[..p] + [t] + s.tests[p..]
              && u.testIds == s.testIds + {t.id}
  {
  }

  /** An id that is dequeued is gone, and the others stay in the order they had. */
  lemma {:induction false} DequeueRemoves(s: State, id: int, timings: Timings)
    requires IdsAre(s.tests, s.testIds)
    ensures var u := AfterDequeue(s, id, timings);
            && u.testIds == s.testIds - {id}
            && (forall t :: t in u.tests <==> t in s.tests && t.id != id)
            && if id !in s.testIds then u.tests == s.tests
               else exists i :: 0 <= i < |s.tests| && s.tests[i].id == id
                                && u.tests == s.tests[..i] + s.tests[i + 1..]
  {
    hide IdsAre;
    var i := IndexOf(s.tests, id);
    if i == -1 {
      UnknownId(s.tests, s.testIds, id);
    } else {
      QueuedIsKnown(s, i);
      OthersAreThere(s, i);
    }
  }

  lemma {:induction false} QueuedIsKnown(s: State, i: nat)
    requires IdsAre(s.tests, s.testIds) && i < |s.tests|
    ensures s.tests[i].id in s.testIds
  {
  }

  lemma {:induction false} OthersAreThere(s: State, i: nat)
    requires IdsAre(s.tests, s.testIds) && i < |s.tests|
    ensures forall t :: t in s.tests[..i] + s.tests[i + 1..] <==> t in s.tests && t.id != s.tests[i].id
  {
    OthersRemain(s.tests, i);
    var less := s.tests[..i] + s.tests[i + 1..];
    forall t | t in less ensures t in s.tests && t.id != s.tests[i].id {
      var k :| 0 <= k < |less| && less[k] == t;
      assert s.tests[if k < i then k else k + 1] == t;
    }
  }

  /** A timeout leaves the queue alone, or takes off its head, which may come back. */
  lemma {:induction false} TimeoutTakesHead(s: State, since: Option<int>, again: bool, timing: int, timings: Timings)
    requires IdsAre(s.tests, s.testIds) && s.tests != []
    ensures var u, td := AfterTimeout(s, since, again, timing, timings), s.tests[0];
            var back := Test(td.id, timing);
            if since.Some? && since.value < 1500 then u.tests == s.tests && u.testIds == s.testIds
            else if again && timings.hasNextRun(back)
              then exists i :: 0 <= i < |s.tests| && u.tests == s.tests[1..][..i] + [back] + s.tests[1..][i..]
            else u.tests == s.tests[1..]
  {
    hide IdsAre, Place;
    if !(since.Some? && since.value < 1500) {
      var td := s.tests[0];
      var back := td.(timing := timing);
      var t := Without(s.(timer := Stopped), 0).(testIds := s.testIds - {td.id});
      EnqueueAdds(t, back, timings);
      assert t.tests == s.tests[1..];
      if again && timings.hasNextRun(back) {
        var i := EnqueuedAt(t, back, timings);
        assert AfterTimeout(s, since, again, timing, timings).tests == s.tests[1..][..i] + [back] + s.tests[1..][i..];
      }
    }
  }

  /** Dequeuing a test that was just enqueued gives the queue back as it was. */
  lemma {:induction false} DequeueUndoesEnqueue(s: State, t: Test, timings: Timings, later: Timings)
    requires IdsAre(s.tests, s.testIds) && EnqueuedAt(s, t, timings) != -1
    ensures var u := AfterDequeue(AfterEnqueue(s, t, timings), t.id, later);
            u.tests == s.tests && u.serials == s.serials && u.testIds == s.testIds
  {
    hide IdsAre, Place, IndexOf;
    var p, v := Place(s.tests, t, timings), AfterEnqueue(s, t, timings);
    OnlyPlace(s, t, p);
    TakenOut(s.tests, p, t);
    TakenOut(s.serials, p, s.arrivals);
    assert v.testIds - {t.id} == s.testIds;
  }

  lemma {:induction false} TakenOut<T>(xs: seq<T>, p: nat, x: T)
    requires p <= |xs|
    ensures var more := xs[..p] + [x] + xs[p..]; more[..p] + more[p + 1..] == xs
  {
  }

  lemma {:induction false} OnlyPlace(s: State, t: Test, p: nat)
    requires IdsAre(s.tests, s.testIds) && t.id !in s.testIds && p <= |s.tests|
    ensures IndexOf(s.tests[..p] + [t] + s.tests[p..], t.id) == p
  {
    hide IndexOf;
    var more := s.tests[..p] + [t] + s.tests[p..];
    assert more[p] in more;
    assert forall k :: 0 <= k < |more| && k != p ==> more[k] == s.tests[if k < p then k else k - 1];
  }

  // ----- the timer's interval -----

  /** The timer is set anew exactly when the head of the queue changes or the timer has fired, and
      then for the time that is left to the new head. */
  lemma {:induction false} TimerFollowsHead(s: State, e: Event)
    requires IdsAre(s.tests, s.testIds) && TimerAgrees(s) && (e.Fire? ==> s.timer.Started?)
    ensures Step(s, e).Some?
    ensures var u := Step(s, e).value;
            if u.tests == [] then u.timer == Stopped
            else if e.Fire? || s.tests == [] || s.tests[0] != u.tests[0]
              then u.timer == StartedFor(u.tests[0], e.timings.timeLeft(u.tests[0]))
            else u.timer == s.timer
  {
    hide IdsAre, StartedFor;
    match e
    case Enqueue(t, timings) =>
    case Dequeue(id, timings) => SecondDiffers(s);
    case Fire(since, again, timing, timings) =>
  }

  lemma {:induction false} SecondDiffers(s: State)
    requires IdsAre(s.tests, s.testIds)
    ensures |s.tests| > 1 ==> s.tests[0] != s.tests[1]
  {
  }

  /** The interval is the time asked for exactly when that fits an int. */
  lemma {:induction false} IntervalIsExact(head: Test, timeLeft: int)
    ensures var t := StartedFor(head, timeLeft);
            && t.asked == (if timeLeft > 0 then timeLeft else 100)
            && (t.interval == t.asked <==> timeLeft < TWO_31)
  {
  }

  /** QTimer does not fire for a negative interval. */
  predicate CanFire(t: Timer) {
    t.Started? && 0 <= t.interval
  }

  /** In every run the timer can fire exactly when there is a queue and the time asked for is below
      2^31 ms once the multiples of 2^32 ms are taken off. */
  lemma {:induction false} EveryTimerThatFires(events: seq<Event>)
    ensures var s := Run(EMPTY, events);
            && s.Some? && (CanFire(s.value.timer) ==> s.value.tests != [])
            && (s.value.tests != [] ==>
                  && s.value.timer.Started?
                  && (CanFire(s.value.timer) <==> s.value.timer.asked % TWO_32 < TWO_31))
  {
    hide IdsAre, Run;
    EveryRunAgrees(events);
  }

  /** A run 50 days ahead: the timer fires after less than 7 hours. */
  lemma {:induction false} FiftyDaysAreSevenHours(head: Test)
    ensures StartedFor(head, 50 * 86_400_000).interval == 25_032_704 < 7 * 3_600_000
  {
  }

  /** A run 30 days ahead: the interval is negative, and QTimer does not fire. */
  lemma {:induction false} ThirtyDaysAreNever(head: Test)
    ensures StartedFor(head, 30 * 86_400_000).interval < 0
  {
  }

  // ----- order -----

  /** The instant a test is due, when it does not depend on when it is asked for. */
  ghost predicate Fixed(due: Test -> int, timings: Timings, now: int) {
    forall t: Test :: timings.timeLeft(t) == due(t) - now
  }

  ghost predicate IsFixed(due: Test -> int, timings: Timings) {
    exists now :: Fixed(due, timings, now)
  }

  predicate Precedes(due: Test -> int, t: Test, m: nat, u: Test, n: nat) {
    due(t) < due(u) || (due(t) == due(u) && m < n)
  }

  ghost predicate Ordered(tests: seq<Test>, serials: seq<nat>, due: Test -> int)
    requires |serials| == |tests|
  {
    forall i, j :: 0 <= i < j < |tests| ==> Precedes(due, tests[i], serials[i], tests[j], serials[j])
  }

  /** The queue is sorted by due time, and tests due at the same time are in order of arrival. */
  ghost predicate InOrder(s: State, due: Test -> int) {
    Ordered(s.tests, s.serials, due) && forall i :: 0 <= i < |s.serials| ==> s.serials[i] < s.arrivals
  }

  lemma {:induction false} PlaceIsStable(tests: seq<Test>, t: Test, timings: Timings)
    ensures var i := Place(tests, t, timings);
            && (forall j :: 0 <= j < i ==> timings.timeLeft(tests[j]) <= timings.timeLeft(t))
            && (i < |tests| ==> timings.timeLeft(t) < timings.timeLeft(tests[i]))
  {
    if tests != [] && timings.timeLeft(tests[0]) <= timings.timeLeft(t) {
      PlaceIsStable(tests[1..], t, timings);
    }
  }

  lemma {:induction false} InsertedInOrder(
    tests: seq<Test>, serials: seq<nat>, i: nat, t: Test, n: nat, due: Test -> int)
    requires |serials| == |tests| && Ordered(tests, serials, due) && i <= |tests|
    requires forall j :: 0 <= j < i ==> Precedes(due, tests[j], serials[j], t, n)
    requires forall j :: i <= j < |tests| ==> Precedes(due, t, n, tests[j], serials[j])
    ensures Ordered(tests[..i] + [t] + tests[i..], serials[..i] + [n] + serials[i..], due)
  {
    hide Precedes;
    var ts, ns := tests[..i] + [t] + tests[i..], serials[..i] + [n] + serials[i..];
    forall j, k | 0 <= j < k < |ts| ensures Precedes(due, ts[j], ns[j], ts[k], ns[k]) {
      var j', k' := if j < i then j else j - 1, if k < i then k else k - 1;
      assert j != i ==> ts[j] == tests[j'] && ns[j] == serials[j'];
      assert k != i ==> ts[k] == tests[k'] && ns[k] == serials[k'];
    }
  }

  lemma {:induction false} RemovedInOrder(tests: seq<Test>, serials: seq<nat>, i: nat, due: Test -> int)
    requires |serials| == |tests| && Ordered(tests, serials, due) && i < |tests|
    ensures Ordered(tests[..i] + tests[i + 1..], serials[..i] + serials[i + 1..], due)
  {
    hide Precedes;
    var ts, ns := tests[..i] + tests[i + 1..], serials[..i] + serials[i + 1..];
    forall j, k | 0 <= j < k < |ts| ensures Precedes(due, ts[j], ns[j], ts[k], ns[k]) {
      var j', k' := if j < i then j else j + 1, if k < i then k else k + 1;
      assert ts[j] == tests[j'] && ns[j] == serials[j'] && ts[k] == tests[k'] && ns[k] == serials[k'];
    }
  }

  lemma {:induction false} EnqueueKeepsOrder(s: State, t: Test, timings: Timings, due: Test -> int, now: int)
    requires Fixed(due, timings, now) && InOrder(s, due)
    ensures InOrder(AfterEnqueue(s, t, timings), due)
  {
    hide Place, ToInt, Ordered;
    if !Refused(s, t, timings) {
      PlaceIsStable(s.tests, t, timings);
      var i := Place(s.tests, t, timings);
      forall j | 0 <= j < |s.tests|
        ensures if j < i then due(s.tests[j]) <= due(t) else due(t) < due(s.tests[j])
      {
        assert timings.timeLeft(t) == due(t) - now && timings.timeLeft(s.tests[j]) == due(s.tests[j]) - now;
        LaterOnes(s, i, j, due);
      }
      InsertedInOrder(s.tests, s.serials, i, t, s.arrivals, due);
    }
  }

  lemma {:induction false} LaterOnes(s: State, i: nat, j: nat, due: Test -> int)
    requires InOrder(s, due) && i <= |s.tests| && j < |s.tests|
    ensures i <= j ==> due(s.tests[i]) <= due(s.tests[j])
  {
    assert i < j ==> Precedes(due, s.tests[i], s.serials[i], s.tests[j], s.serials[j]);
  }

  lemma {:induction false} WithoutInOrder(s: State, i: int, due: Test -> int)
    requires InOrder(s, due) && -1 <= i < |s.tests|
    ensures InOrder(Without(s, i), due)
  {
    hide Ordered;
    if i >= 0 {
      RemovedInOrder(s.tests, s.serials, i, due);
    }
  }

  lemma {:induction false} TimeoutKeepsOrder(
    s: State, since: Option<int>, again: bool, timing: int, timings: Timings, due: Test -> int, now: int)
    requires Fixed(due, timings, now) && InOrder(s, due) && s.tests != []
    ensures InOrder(AfterTimeout(s, since, again, timing, timings), due)
  {
    hide ToInt, Place, Refused, Fixed, Ordered;
    if !(since.Some? && since.value < 1500) {
      WithoutInOrder(s, 0, due);
      var td := s.tests[0];
      var t := Without(s.(timer := Stopped), 0).(testIds := s.testIds - {td.id});
      EnqueueKeepsOrder(t, td.(timing := timing), timings, due, now);
    }
  }

  /** In every run in which the due times are fixed, the queue stays sorted, with ties in order of
      arrival. */
  lemma {:induction false} EveryRunInOrder(events: seq<Event>, due: Test -> int)
    requires forall i :: 0 <= i < |events| ==> IsFixed(due, events[i].timings)
    ensures Run(EMPTY, events).Some? && InOrder(Run(EMPTY, events).value, due)
  {
    hide AfterEnqueue, AfterDequeue, AfterTimeout, Fixed, InOrder;
    EveryRunAgrees(events);
    if events == [] {
      assert InOrder(EMPTY, due) by { NothingInOrder(due); }
    } else {
      var before, e := events[..|events| - 1], events[|events| - 1];
      assert forall i :: 0 <= i < |before| ==> before[i] == events[i];
      EveryRunInOrder(before, due);
      var s := Run(EMPTY, before).value;
      var now :| Fixed(due, e.timings, now);
      match e
      case Enqueue(t, timings) => EnqueueKeepsOrder(s, t, timings, due, now);
      case Dequeue(id, timings) => DequeueKeepsOrder(s, id, timings, due);
      case Fire(since, again, timing, timings) =>
        if s.timer.Started? && s.tests != [] {
          TimeoutKeepsOrder(s, since, again, timing, timings, due, now);
        }
    }
  }

  lemma {:induction false} NothingInOrder(due: Test -> int)
    ensures InOrder(EMPTY, due)
  {
  }

  lemma {:induction false} DequeueKeepsOrder(s: State, id: int, timings: Timings, due: Test -> int)
    requires InOrder(s, due)
    ensures InOrder(AfterDequeue(s, id, timings), due)
  {
    hide ToInt, Ordered;
    WithoutInOrder(s, IndexOf(s.tests, id), due);
  }
}
