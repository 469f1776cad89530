/** What every run of the task executor keeps, and how it ends. */
module TaskExecutorRuns {
  import opened MachineWords
  import opened TaskExecutor

  lemma {:induction false} PendingJoins(a: seq<MainEvent>, b: seq<MainEvent>)
    ensures Pending(a + b) == Pending(a) + Pending(b)
  {
    if a == [] {
      assert a + b == b;
    } else {
      assert (a + b)[1..] == a[1..] + b;
      PendingJoins(a[1..], b);
      var first, x, y := if a[0].PassOn? then [a[0].notice] else [], Pending(a[1..]), Pending(b);
      assert first + (x + y) == (first + x) + y;
    }
  }

  lemma {:induction false} CountJoins(a: seq<MainEvent>, b: seq<MainEvent>, e: MainEvent)
    ensures Count(a + b, e) == Count(a, e) + Count(b, e)
  {
    if a == [] {
      assert a + b == b;
    } else {
      assert (a + b)[1..] == a[1..] + b;
      CountJoins(a[1..], b, e);
    }
  }

  /** The worker posts its events in pairs, a slot call and a notice. */
  lemma {:induction false} PairPosted(s: seq<MainEvent>, slot: MainEvent, notice: Notice)
    requires !slot.PassOn?
    ensures Count(s + [slot, PassOn(notice)], OnFinished) == Count(s, OnFinished) + if slot.OnFinished? then 1 else 0
    ensures Pending(s + [slot, PassOn(notice)]) == Pending(s) + [notice]
  {
    var pair := [slot, PassOn(notice)];
    var second := [PassOn(notice)];
    assert pair[1..] == second && second[1..] == [];
    assert Pending(second) == [notice] && Count(second, OnFinished) == 0;
    assert Pending(pair) == [notice] && Count(pair, OnFinished) == if slot.OnFinished? then 1 else 0;
    CountJoins(s, pair, OnFinished);
    PendingJoins(s, pair);
  }

  lemma {:induction false} CountedIsThere(events: seq<MainEvent>, e: MainEvent)
    ensures Count(events, e) > 0 <==> e in events
  {
    if events != [] {
      assert events == [events[0]] + events[1..];
      CountedIsThere(events[1..], e);
    }
  }

  // ----- at most one measurement is outstanding -----

  lemma {:induction false} DeliverKeepsOneAtATime(s: State)
    requires OneAtATime(s) && s.mainInbox != []
    ensures OneAtATime(AfterDeliver(s))
  {
    var rest := s.mainInbox[1..];
    assert s.mainInbox == [s.mainInbox[0]] + rest;
    assert OnStarted in rest ==> OnStarted in s.mainInbox;
    if s.mainInbox[0].OnFinished? {
      CountedIsThere(rest, OnFinished);
      assert OnStarted !in rest;
    }
  }

  lemma {:induction false} BeginKeepsOneAtATime(s: State, starts: bool)
    requires OneAtATime(s) && s.workerInbox != []
    ensures OneAtATime(AfterBegin(s, starts))
  {
    var test := s.workerInbox[0];
    CountedIsThere(s.mainInbox, OnFinished);
    PairPosted(s.mainInbox, OnStarted, Started(test));
    PairPosted(s.mainInbox + [OnStarted, PassOn(Started(test))], OnFinished, Finished(test));
  }

  lemma {:induction false} ReportKeepsOneAtATime(s: State)
    requires OneAtATime(s) && s.measurement.Some?
    ensures OneAtATime(Ended(s, s.measurement.value))
  {
    PairPosted(s.mainInbox, OnFinished, Finished(s.measurement.value));
  }

  // ----- nothing is lost or reordered -----

  lemma {:induction false} RequestKeepsOrder(s: State, test: Test)
    requires OneAtATime(s) && InOrder(s)
    ensures InOrder(AfterRequest(s, test))
  {
    hide Notices, Pending, Count;
    var t := AfterRequest(s, test);
    if s.running {
      assert Done(s) + Current(s) + (s.queue + [test]) == (Done(s) + Current(s) + s.queue) + [test];
    } else {
      assert Current(s) == [] && s.queue == [] && Done(s) == s.accepted;
    }
    assert Done(t) == Done(s);
  }

  lemma {:induction false} QueueMoves(s: State)
    requires OneAtATime(s) && InOrder(s) && s.mainInbox != [] && s.mainInbox[0].OnFinished? && s.queue != []
    ensures var t := AfterDeliver(s);
            Done(t) == Done(s) && Current(t) + t.queue == Current(s) + s.queue && t.measurement == s.measurement
  {
    hide Notices, Pending;
    assert s.queue == [s.queue[0]] + s.queue[1..];
    assert Current(s) == [];
  }

  /** Delivering an event tells what was pending, or leaves it pending. */
  lemma {:induction false} DeliverTells(s: State)
    requires s.mainInbox != []
    ensures AfterDeliver(s).told + Pending(AfterDeliver(s).mainInbox) == s.told + Pending(s.mainInbox)
  {
    var first, rest := s.mainInbox[0], Pending(s.mainInbox[1..]);
    if first.PassOn? {
      assert s.told + ([first.notice] + rest) == (s.told + [first.notice]) + rest;
    } else {
      assert [] + rest == rest;
    }
  }

  lemma {:induction false} DeliverKeepsOrder(s: State)
    requires OneAtATime(s) && InOrder(s) && s.mainInbox != []
    ensures InOrder(AfterDeliver(s))
  {
    hide Notices, Pending, OneAtATime;
    var t := AfterDeliver(s);
    DeliverTells(s);
    if s.mainInbox[0].OnFinished? && s.queue != [] {
      QueueMoves(s);
      assert t.accepted == (Done(s) + Current(s)) + s.queue == Done(t) + (Current(t) + t.queue);
    } else {
      assert Done(t) == Done(s) && Current(t) == Current(s);
    }
  }

  lemma {:induction false} BeginKeepsOrder(s: State, starts: bool)
    requires OneAtATime(s) && InOrder(s) && s.workerInbox != []
    ensures InOrder(AfterBegin(s, starts))
  {
    hide Notices, Pending;
    var test := s.workerInbox[0];
    var u := s.(workerInbox := [], currentTest := Some(test), measurement := Some(test),
                mainInbox := s.mainInbox + [OnStarted, PassOn(Started(test))]);
    assert s.workerInbox == [test] && s.measurement.None?;
    PairPosted(s.mainInbox, OnStarted, Started(test));
    assert Done(u) == Done(s);
    assert u.told + Pending(u.mainInbox) == (s.told + Pending(s.mainInbox)) + [Started(test)];
    assert InOrder(u);
    if !starts {
      EndKeepsOrder(u, test);
    }
  }

  lemma {:induction false} EndKeepsOrder(s: State, test: Test)
    requires InOrder(s) && s.workerInbox == [] && s.measurement == Some(test)
    ensures InOrder(Ended(s, test))
  {
    hide Pending;
    var t := Ended(s, test);
    PairPosted(s.mainInbox, OnFinished, Finished(test));
    assert Done(t) == Done(s) + [test];
    assert Done(t)[..|Done(t)| - 1] == Done(s);
    assert t.told + Pending(t.mainInbox) == (s.told + Pending(s.mainInbox)) + [Finished(test)];
  }

  // ----- all runs -----

  predicate Inv(s: State) {
    OneAtATime(s) && InOrder(s) && Alternates(s)
  }

  lemma {:induction false} StepKeepsAlternation(s: State, e: Event)
    requires OneAtATime(s) && Alternates(s)
    ensures Alternates(Step(s, e))
  {
    hide InOrder, Pending;
  }

  lemma {:induction false} StepKeepsInv(s: State, e: Event)
    requires Inv(s)
    ensures Inv(Step(s, e))
  {
    hide InOrder, Alternates;
    StepKeepsAlternation(s, e);
    match e
    case Request(test, _, _, _) => RequestKeepsOrder(s, test);
    case Deliver =>
      if s.mainInbox != [] {
        DeliverKeepsOneAtATime(s);
        DeliverKeepsOrder(s);
      }
    case Begin(starts) =>
      if s.workerInbox != [] {
        BeginKeepsOneAtATime(s, starts);
        BeginKeepsOrder(s, starts);
      }
    case Report =>
      if s.measurement.Some? {
        assert s.workerInbox == [];
        ReportKeepsOneAtATime(s);
        EndKeepsOrder(s, s.measurement.value);
      }
  }

  /** The invariant holds after any events whatsoever. */
  lemma {:induction false} EveryRunKeepsInv(events: seq<Event>)
    ensures Inv(Run(INITIAL, events))
  {
    if events != [] {
      EveryRunKeepsInv(events[..|events| - 1]);
      StepKeepsInv(Run(INITIAL, events[..|events| - 1]), events[|events| - 1]);
    }
  }

  // ----- what the invariant says -----

  /** The running flag is set exactly while one measurement is pending, being measured, or ended
      without the main thread having noticed; the worker never starts one while another is being
      measured; and onStarted never finds the flag unset. */
  lemma {:induction false} RunningMeansOutstanding(events: seq<Event>)
    ensures var s := Run(INITIAL, events);
            && (s.running <==> Outstanding(s) == 1) && (!s.running <==> Outstanding(s) == 0)
            && (!s.running ==> s.queue == [])
            && (s.workerInbox != [] ==> s.measurement.None?)
            && (OnStarted in s.mainInbox ==> AfterOnStarted(s) == s)
  {
    EveryRunKeepsInv(events);
  }

  lemma {:induction false} NoticesExtend(a: seq<Test>, b: seq<Test>)
    ensures Notices(a) <= Notices(a + b)
    ensures b != [] ==> Notices(a) + [Started(b[0])] <= Notices(a + b)
    decreases |b|
  {
    if b == [] {
      assert a + b == a;
    } else {
      var most := b[..|b| - 1];
      NoticesExtend(a, most);
      assert (a + b)[..|a + b| - 1] == a + most;
      if most == [] {
        assert a + most == a;
      }
    }
  }

  /** At any time listeners have been told a prefix of: first test started, first test finished,
      second test started and so on, for the accepted tests in the order they were accepted. */
  lemma {:induction false} ToldInOrder(events: seq<Event>)
    ensures var s := Run(INITIAL, events); s.told <= Notices(s.accepted)
  {
    hide Notices, Pending;
    EveryRunKeepsInv(events);
    var s := Run(INITIAL, events);
    var rest := Current(s) + s.queue;
    assert s.accepted == Done(s) + rest;
    NoticesExtend(Done(s), rest);
    if s.measurement.Some? {
      assert rest[0] == s.measurement.value;
    }
    assert s.told <= s.told + Pending(s.mainInbox);
  }

  /** Nothing is under way. */
  predicate Quiet(s: State) {
    s.mainInbox == [] && s.workerInbox == [] && s.measurement.None?
  }

  /** Once nothing is under way, every accepted test has been started and finished once, in order. */
  lemma {:induction false} QuietMeansAllDone(s: State)
    requires Inv(s) && Quiet(s)
    ensures !s.running && s.queue == [] && s.told == Notices(s.accepted)
  {
    assert Count(s.mainInbox, OnFinished) == 0 && Current(s) == [];
    assert Done(s) == s.accepted && s.told + Pending(s.mainInbox) == s.told;
  }

  /** How many more steps there can be without new requests. */
  function Remaining(s: State): nat {
    6 * |s.queue| + 6 * |s.workerInbox| + |s.mainInbox| + if s.measurement.Some? then 3 else 0
  }

  /** Whether the event has something to do. */
  predicate Enabled(s: State, e: Event) {
    match e
    case Request(_, _, _, _) => true
    case Deliver => s.mainInbox != []
    case Begin(_) => s.workerInbox != []
    case Report => s.measurement.Some?
  }

  /** Without new requests every step brings the end nearer, whichever it is. */
  lemma {:induction false} StepsRunOut(s: State, e: Event)
    requires Inv(s) && !e.Request? && Enabled(s, e)
    ensures Remaining(Step(s, e)) < Remaining(s) && Step(s, e).accepted == s.accepted
  {
    hide InOrder, Alternates, Count, Pending;
  }

  /** Every event of a sequence, none of them a request, has something to do. */
  ghost predicate AllEnabled(s: State, events: seq<Event>) {
    forall k :: 0 <= k < |events| ==> !events[k].Request? && Enabled(Run(s, events[..k]), events[k])
  }

  /** So every sequence of events ends, whichever they are: it is not longer than what remained to be
      done, and when nothing has anything left to do every accepted test has been run. */
  lemma {:induction false} EveryRunEnds(s: State, events: seq<Event>)
    requires Inv(s) && AllEnabled(s, events)
    ensures var t := Run(s, events);
            && |events| + Remaining(t) <= Remaining(s)
            && ((forall e: Event :: !e.Request? ==> !Enabled(t, e)) <==> Quiet(t))
            && (|events| == Remaining(s) ==> Quiet(t))
            && (Quiet(t) ==> t.accepted == s.accepted && t.told == Notices(s.accepted))
  {
    hide Inv, Notices, Step, AllEnabled;
    var t := Run(s, events);
    RunShrinks(s, events);
    if forall e: Event :: !e.Request? ==> !Enabled(t, e) {
      assert !Enabled(t, Deliver) && !Enabled(t, Begin(true)) && !Enabled(t, Report);
    }
    if Quiet(t) {
      QuietMeansAllDone(t);
    }
  }

  lemma {:induction false} RunShrinks(s: State, events: seq<Event>)
    requires Inv(s) && AllEnabled(s, events)
    ensures var t := Run(s, events);
            Inv(t) && t.accepted == s.accepted && |events| + Remaining(t) <= Remaining(s)
  {
    hide Inv, Step, Remaining, Enabled;
    if events != [] {
      var most, e := events[..|events| - 1], events[|events| - 1];
      forall k | 0 <= k < |most| ensures !most[k].Request? && Enabled(Run(s, most[..k]), most[k]) {
        assert most[..k] == events[..k];
      }
      RunShrinks(s, most);
      StepsRunOut(Run(s, most), e);
      StepKeepsInv(Run(s, most), e);
    }
  }

  /** And there is such a sequence that comes to rest, provided that measurements report. */
  lemma {:induction false} ComesToRest(s: State) returns (events: seq<Event>)
    requires Inv(s)
    ensures forall e <- events :: !e.Request?
    ensures var t := Run(s, events);
            Inv(t) && Quiet(t) && t.accepted == s.accepted && t.told == Notices(s.accepted)
    decreases Remaining(s)
  {
    hide Inv, Notices, Step;
    if Quiet(s) {
      QuietMeansAllDone(s);
      events := [];
    } else {
      var e := if s.mainInbox != [] then Deliver else if s.workerInbox != [] then Begin(true) else Report;
      StepsRunOut(s, e);
      StepKeepsInv(s, e);
      var later := ComesToRest(Step(s, e));
      RunFromStep(s, e, later);
      events := [e] + later;
    }
  }

  lemma {:induction false} RunFromStep(s: State, e: Event, events: seq<Event>)
    ensures Run(s, [e] + events) == Run(Step(s, e), events)
  {
    hide Step;
    var all := [e] + events;
    if events == [] {
      assert all[..|all| - 1] == [];
    } else {
      RunFromStep(s, e, events[..|events| - 1]);
      assert all[..|all| - 1] == [e] + events[..|events| - 1];
    }
  }

  // ----- what the events have to do with what is told -----

  /** A measurement goes on after its begin if and only if it could be started; if not, and only then,
      its end is posted at once. */
  lemma {:induction false} BeginGoesOn(s: State, starts: bool)
    requires Inv(s) && s.workerInbox != []
    ensures var t, test := Step(s, Begin(starts)), s.workerInbox[0];
            && t.measurement == (if starts then Some(test) else None)
            && (OnFinished in t.mainInbox <==> !starts)
            && (PassOn(Finished(test)) in t.mainInbox <==> !starts || PassOn(Finished(test)) in s.mainInbox)
  {
    hide InOrder, Alternates;
    CountedIsThere(s.mainInbox, OnFinished);
    var t, test := Step(s, Begin(starts)), s.workerInbox[0];
    var begun := s.mainInbox + [OnStarted, PassOn(Started(test))];
    assert t.mainInbox == if starts then begun else begun + [OnFinished, PassOn(Finished(test))];
    assert OnFinished !in begun;
    if !starts {
      assert t.mainInbox[|begun|] == OnFinished && t.mainInbox[|begun| + 1] == PassOn(Finished(test));
    }
  }

  /** The notices that an event gives rise to: a begin has its test started, and finished too if it
      failed; a report has the test that is being measured finished. */
  function Posts(s: State, e: Event): seq<Notice> {
    match e
    case Request(_, _, _, _) => []
    case Deliver => []
    case Begin(starts) =>
      if s.workerInbox == [] then []
      else [Started(s.workerInbox[0])] + if starts then [] else [Finished(s.workerInbox[0])]
    case Report => if s.measurement.Some? then [Finished(s.measurement.value)] else []
  }

  function PostedBy(events: seq<Event>): seq<Notice> {
    if events == [] then []
    else
      var most := events[..|events| - 1];
      PostedBy(most) + Posts(Run(INITIAL, most), events[|events| - 1])
  }

  /** In every run the notices told and under way are those, in order: no test is started or finished
      but by its begin and its report. */
  lemma {:induction false} NothingElseIsTold(events: seq<Event>)
    ensures var s := Run(INITIAL, events); s.told + Pending(s.mainInbox) == PostedBy(events)
  {
    hide Inv, Step, Posts, Pending;
    if events == [] {
      NothingPending();
    } else {
      var most, e := events[..|events| - 1], events[|events| - 1];
      NothingElseIsTold(most);
      EveryRunKeepsInv(most);
      StepPosts(Run(INITIAL, most), e);
    }
  }

  lemma {:induction false} NothingPending()
    ensures INITIAL.told + Pending(INITIAL.mainInbox) == []
  {
  }

  lemma {:induction false} StepPosts(s: State, e: Event)
    requires Inv(s)
    ensures var t := Step(s, e);
            t.told + Pending(t.mainInbox) == s.told + Pending(s.mainInbox) + Posts(s, e)
  {
    hide InOrder, Alternates, Pending, Count;
    match e
    case Request(_, _, _, _) =>
    case Deliver => if s.mainInbox != [] { DeliverTells(s); }
    case Begin(starts) =>
      if s.workerInbox != [] {
        var test := s.workerInbox[0];
        var begun := s.mainInbox + [OnStarted, PassOn(Started(test))];
        PairPosted(s.mainInbox, OnStarted, Started(test));
        PairPosted(begun, OnFinished, Finished(test));
        var now := s.told + Pending(s.mainInbox);
        assert s.told + Pending(begun) == now + [Started(test)];
        if !starts {
          assert now + [Started(test)] + [Finished(test)] == now + ([Started(test)] + [Finished(test)]);
        }
      }
    case Report =>
      if s.measurement.Some? {
        PairPosted(s.mainInbox, OnFinished, Finished(s.measurement.value));
      }
  }

  /** A test that is being measured stays so until its report. */
  lemma {:induction false} MeasuredUntilReport(s: State, events: seq<Event>)
    requires Inv(s) && s.measurement.Some? && Report !in events
    ensures Inv(Run(s, events)) && Run(s, events).measurement == s.measurement
  {
    hide Step, Inv;
    if events != [] {
      var most, e := events[..|events| - 1], events[|events| - 1];
      assert events == most + [e];
      MeasuredUntilReport(s, most);
      StepKeepsInv(Run(s, most), e);
      OtherStepsLeaveIt(Run(s, most), e);
    }
  }

  lemma {:induction false} OtherStepsLeaveIt(s: State, e: Event)
    requires Inv(s) && s.measurement.Some? && e != Report
    ensures Step(s, e).measurement == s.measurement
  {
    hide InOrder, Alternates, Count;
  }

  /** The notices of tests are the start and the end of each, test by test. */
  lemma {:induction false} NoticesAreInPairs(tests: seq<Test>, k: nat)
    requires k < |tests|
    ensures |Notices(tests)| == 2 * |tests|
    ensures Notices(tests)[2 * k] == Started(tests[k]) && Notices(tests)[2 * k + 1] == Finished(tests[k])
  {
    var most := tests[..|tests| - 1];
    NoticesCount(most);
    if k < |most| {
      NoticesAreInPairs(most, k);
    }
  }

  lemma {:induction false} NoticesCount(tests: seq<Test>)
    ensures |Notices(tests)| == 2 * |tests|
  {
    if tests != [] {
      NoticesCount(tests[..|tests| - 1]);
    }
  }
}
