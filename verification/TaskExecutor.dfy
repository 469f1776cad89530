/** The executor of taskexecutor.cpp: callers on the main thread, a worker thread that runs one
    measurement at a time, and the queued events between them. */
module TaskExecutor {
  import opened MachineWords

  /** A schedule definition, of which only the identity matters here. */
  datatype Test = Test(id: int, name: string)

  /** What listeners are told. */
  datatype Notice = Started(test: Test) | Finished(test: Test)

  /** The events queued for the main thread: calls of the two slots, and notices to pass on. */
  datatype MainEvent = OnStarted | OnFinished | PassOn(notice: Notice)

  /** The executor with the events under way. The last three fields record its past: the tests
      accepted, the notices passed on, and the values announced for running. */
  datatype State = State(
    running: bool, queue: seq<Test>, currentTest: Option<Test>, measurement: Option<Test>,
    workerInbox: seq<Test>, mainInbox: seq<MainEvent>,
    accepted: seq<Test>, told: seq<Notice>, announced: seq<bool>)

  const INITIAL: State := State(false, [], None, None, [], [], [], [], [])

  /** What can happen next: a call of execute, the main thread's next event, the worker's next
      event, or the outcome that a running measurement reports. */
  datatype Event =
    | Request(test: Test, preconditionsMet: bool, mobileAllowed: bool, onMobile: bool)
    | Deliver
    | Begin(starts: bool)
    | Report

  // ----- one step -----

  function SetRunning(s: State, value: bool): State {
    s.(running := value, announced := s.announced + [value])
  }

  function AfterRequest(s: State, test: Test): State {
    var t := s.(accepted := s.accepted + [test]);
    if s.running then t.(queue := s.queue + [test])
    else SetRunning(t, true).(workerInbox := s.workerInbox + [test])
  }

  function AfterOnStarted(s: State): State {
    if s.running then s else SetRunning(s, true)
  }

  function AfterOnFinished(s: State): State {
    if s.queue == [] then SetRunning(s, false)
    else s.(queue := s.queue[1..], workerInbox := s.workerInbox + [s.queue[0]])
  }

  function AfterDeliver(s: State): State
    requires s.mainInbox != []
  {
    var t := s.(mainInbox := s.mainInbox[1..]);
    match s.mainInbox[0]
    case OnStarted => AfterOnStarted(t)
    case OnFinished => AfterOnFinished(t)
    case PassOn(notice) => t.(told := s.told + [notice])
  }

  function Ended(s: State, test: Test): State {
    s.(measurement := None, mainInbox := s.mainInbox + [OnFinished, PassOn(Finished(test))])
  }

  function AfterBegin(s: State, starts: bool): State
    requires s.workerInbox != []
  {
    var test := s.workerInbox[0];
    var t := s.(workerInbox := s.workerInbox[1..], currentTest := Some(test), measurement := Some(test),
                mainInbox := s.mainInbox + [OnStarted, PassOn(Started(test))]);
    if starts then t else Ended(t, test)
  }

  /** An event for which there is nothing to do changes nothing. */
  function Step(s: State, e: Event): State {
    match e
    case Request(test, met, allowed, mobile) => if met && (allowed || !mobile) then AfterRequest(s, test) else s
    case Deliver => if s.mainInbox == [] then s else AfterDeliver(s)
    case Begin(starts) => if s.workerInbox == [] then s else AfterBegin(s, starts)
    case Report => if s.measurement.None? || s.currentTest.None? then s else Ended(s, s.currentTest.value)
  }

  function Run(s: State, events: seq<Event>): State {
    if events == [] then s else Step(Run(s, events[..|events| - 1]), events[|events| - 1])
  }

  // ----- the invariant -----

  /** The notices of tests that have run. */
  function Notices(tests: seq<Test>): seq<Notice> {
    if tests == [] then []
    else Notices(tests[..|tests| - 1]) + [Started(tests[|tests| - 1]), Finished(tests[|tests| - 1])]
  }

  /** The notices among the events for the main thread. */
  function Pending(events: seq<MainEvent>): seq<Notice> {
    if events == [] then []
    else (if events[0].PassOn? then [events[0].notice] else []) + Pending(events[1..])
  }

  function Count(events: seq<MainEvent>, e: MainEvent): nat {
    if events == [] then 0 else (if events[0] == e then 1 else 0) + Count(events[1..], e)
  }

  /** The test on its way to the worker or being measured. */
  function Current(s: State): seq<Test> {
    s.workerInbox + if s.measurement.Some? then [s.measurement.value] else []
  }

  /** The accepted tests whose end has been sent to the main thread. */
  function Done(s: State): seq<Test> {
    if |Current(s)| + |s.queue| <= |s.accepted| then s.accepted[..|s.accepted| - |s.queue| - |Current(s)|] else []
  }

  /** The measurements pending, executing, or ended without the main thread having noticed. */
  function Outstanding(s: State): nat {
    |Current(s)| + Count(s.mainInbox, OnFinished)
  }

  predicate OneAtATime(s: State) {
    && Outstanding(s) == (if s.running then 1 else 0)
    && (!s.running ==> s.queue == [])
    && (OnStarted in s.mainInbox ==> s.running)
    && (forall i, j :: 0 <= i < j < |s.mainInbox| ==> !(s.mainInbox[i].OnFinished? && s.mainInbox[j].OnStarted?))
    && (s.measurement.Some? ==> s.currentTest == s.measurement)
  }

  /** Nothing accepted is lost or reordered: the accepted tests are those done, the current one
      and those queued, and listeners are being told of them in this order. */
  predicate InOrder(s: State) {
    && s.accepted == Done(s) + Current(s) + s.queue
    && s.told + Pending(s.mainInbox)
       == Notices(Done(s)) + if s.measurement.Some? then [Started(s.measurement.value)] else []
  }

  /** The announced values alternate, starting with true. */
  predicate Alternates(s: State) {
    && (forall i :: 0 <= i < |s.announced| ==> s.announced[i] == (i % 2 == 0))
    && s.running == (|s.announced| % 2 == 1)
  }

  // ----- the executor itself -----

  class TaskExecutor {
    var running: bool
    var queue: seq<Test>
    var currentTest: Option<Test>
    var measurement: Option<Test>
    var workerInbox: seq<Test>
    var mainInbox: seq<MainEvent>
    ghost var accepted: seq<Test>
    ghost var told: seq<Notice>
    ghost var announced: seq<bool>

    ghost function Now(): State
      reads this
    {
      State(running, queue, currentTest, measurement, workerInbox, mainInbox, accepted, told, announced)
    }

    constructor ()
      ensures Now() == INITIAL
    {
      running, queue, currentTest, measurement := false, [], None, None;
      workerInbox, mainInbox := [], [];
      accepted, told, announced := [], [], [];
    }

    /** The signal runningChanged. */
    ghost method Announce()
      modifies this`announced
      ensures announced == old(announced) + [running]
    {
      announced := announced + [running];
    }

    /** TaskExecutor::execute, called on the main thread. */
    method Execute(test: Test, preconditionsMet: bool, mobileAllowed: bool, onMobile: bool)
      modifies this
      ensures Now() == Step(old(Now()), Request(test, preconditionsMet, mobileAllowed, onMobile))
      ensures accepted == old(accepted) + if preconditionsMet && (onMobile ==> mobileAllowed) then [test] else []
    {
      if !preconditionsMet {
        return;
      }
      if !mobileAllowed && onMobile {
        return;
      }
      accepted := accepted + [test];
      if running == false {
        running := true;
        Announce();
        workerInbox := workerInbox + [test];
      } else {
        queue := queue + [test];
      }
    }

    /** The slot onStarted. */
    method OnStarted()
      modifies this
      ensures Now() == AfterOnStarted(old(Now()))
    {
      if !running {
        running := true;
        Announce();
      }
    }

    /** The slot onFinished. */
    method OnFinished()
      modifies this
      ensures Now() == AfterOnFinished(old(Now()))
    {
      if queue == [] {
        running := false;
        Announce();
      } else {
        var entry := queue[0];
        queue := queue[1..];
        workerInbox := workerInbox + [entry];
      }
    }

    /** The main thread's event loop. */
    method ProcessMainEvent()
      modifies this
      ensures Now() == Step(old(Now()), Deliver)
    {
      if mainInbox == [] {
        return;
      }
      var event := mainInbox[0];
      mainInbox := mainInbox[1..];
      match event {
        case OnStarted => OnStarted();
        case OnFinished => OnFinished();
        case PassOn(notice) => told := told + [notice];
      }
    }

    /** The worker's event loop, and InternalTaskExecutor::execute in it. There is no measurement
        when it cannot be created; it ends at once when no interface is up or it cannot be prepared
        or started; otherwise it goes on. */
    method ProcessWorkerEvent(created: bool, interfaceUp: bool, prepared: bool, begun: bool)
      modifies this
      ensures Now() == Step(old(Now()), Begin(created && interfaceUp && prepared && begun))
      ensures old(workerInbox) == [] ==> Now() == old(Now())
      ensures old(workerInbox) != [] ==>
                var test, goesOn := old(workerInbox)[0], created && interfaceUp && prepared && begun;
                && workerInbox == old(workerInbox)[1..] && currentTest == Some(test)
                && measurement == (if goesOn then Some(test) else None)
                && mainInbox == old(mainInbox) + [MainEvent.OnStarted, PassOn(Started(test))]
                                + if goesOn then [] else [MainEvent.OnFinished, PassOn(Finished(test))]
    {
      if workerInbox == [] {
        return;
      }
      var test := workerInbox[0];
      workerInbox := workerInbox[1..];
      mainInbox := mainInbox + [MainEvent.OnStarted, PassOn(Started(test))];
      currentTest := Some(test);
      measurement := if created then Some(test) else None;
      if measurement.Some? {
        if !interfaceUp {
          MeasurementEnded();
          return;
        }
        if prepared {
          if begun {
            return;
          }
        }
        mainInbox := mainInbox + [MainEvent.OnFinished, PassOn(Finished(test))];
        measurement := None;
      } else {
        mainInbox := mainInbox + [MainEvent.OnFinished, PassOn(Finished(test))];
      }
    }

    /** The slots measurementFinished and measurementError, which differ in the result alone. */
    method MeasurementEnded()
      requires measurement.Some? && currentTest.Some?
      modifies this
      ensures Now() == Ended(old(Now()), old(currentTest.value))
      ensures measurement == None
      ensures mainInbox == old(mainInbox) + [MainEvent.OnFinished, PassOn(Finished(old(currentTest.value)))]
    {
      mainInbox := mainInbox + [MainEvent.OnFinished, PassOn(Finished(currentTest.value))];
      measurement := None;
    }
  }
}
