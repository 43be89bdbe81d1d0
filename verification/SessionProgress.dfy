/** No deadlock: until something shuts the session down, it can always run to its end. */
module SessionProgress {
  import opened Wrappers
  import opened SessionModel
  import opened SessionCalls
  import opened SessionGuarantees

  // ---------- What is still to come is on its way ----------

  ghost predicate CompletionQueued(events: seq<RunEvent>) {
    exists e :: e in events && e.CompletedEvent?
  }

  /** The end of the input, or its failure, was delivered, and an active call has a worker or a completion under way. */
  ghost predicate Coming(s: State) {
    && s.reader != Finished(Dropped)
    && (s.reader == Finished(Ended) ==> EndSeen(s.events, s.main, s.inputFinished, s.readFailed))
    && (s.reader == Finished(Failed) ==> ReadError in s.control || s.readFailed)
    && (s.active.Some? ==> s.worker.Some? || HoldsCompleted(s.main) || CompletionQueued(s.events))
    && (s.main == Receiving ==> !(s.inputFinished && s.active.None?))
  }

  ghost predicate Live(s: State) {
    s.shutdown || if s.main.Returned? then s.main.ok == !s.readFailed else Coming(s)
  }

  lemma {:induction false} SettleLives(s: State)
    requires !s.shutdown
    requires s.reader != Finished(Dropped)
    requires s.reader == Finished(Ended) ==> EndOfInput in s.events || (s.inputFinished && !s.readFailed)
    requires s.reader == Finished(Failed) ==> ReadError in s.control || s.readFailed
    requires s.active.Some? ==> s.worker.Some? || CompletionQueued(s.events)
    ensures Live(Settle(s)) && Live(s.(main := Draining))
  {
    hide CompletionQueued;
  }

  lemma {:induction false} ReplyLives(s: State, request: Request, writes: bool)
    requires !s.shutdown && !s.main.Returned? && Coming(s) && s.main != Handling(EndOfInput) && !HoldsCompleted(s.main)
    ensures Live(Reply(s, request, writes))
  {
    hide CompletionQueued, Settle, Live;
    SettleLives(s.(handled := s.handled + 1));
    SettleLives(s.(handled := s.handled + 1, log := s.log + [Replied(request.id)]));
    AbortLives(s, OwedFor(request), 1);
  }

  lemma {:induction false} AbortLives(s: State, lost: multiset<Response>, n: nat)
    ensures Live(Abort(s, lost, n))
  {
  }

  lemma {:induction false} PatternLives(s: State, request: Request, writes: bool)
    requires !s.shutdown && s.main == Handling(RequestEvent(request)) && Coming(s)
    ensures Live(HandlePattern(s, request, writes))
  {
    hide CompletionQueued, Settle, Reply, Live, Without;
    if request.isNotification {
      SettleLives(s.(handled := s.handled + 1));
    } else if !request.argumentsValid {
      SettleLives(s.(handled := s.handled + 1, log := s.log + [Replied(request.id)]));
      AbortLives(s, OwedFor(request), 1);
    } else if s.active.Some? {
      ReplyLives(s.(queuedIds := Without(s.queuedIds, request.id)), request, writes);
    } else {
      StartLives(s, request);
    }
  }

  lemma {:induction false} StartLives(s: State, request: Request)
    requires !s.shutdown && s.main == Handling(RequestEvent(request)) && Coming(s)
    ensures Live(StartCall(s, request))
  {
    hide CompletionQueued, Without;
  }

  lemma {:induction false} RequestLives(s: State, request: Request, writes: bool)
    requires !s.shutdown && s.main == Handling(RequestEvent(request)) && Coming(s)
    ensures Live(HandleRequest(s, request, writes))
  {
    hide CompletionQueued, Settle, Reply, HandlePattern, Without;
    if request.kind == CancelledNotification {
      SettleLives(s.(handled := s.handled + 1,
        active := if s.active.Some? && Targets(request, s.active.value.id) then CancelActive(s.active) else s.active));
    } else if request.IsPatternCall() {
      PatternLives(s, request, writes);
    } else {
      ReplyLives(s, request, writes);
      ReplyLives(s.(queuedIds := Without(s.queuedIds, request.id)), request, writes);
    }
  }

  lemma {:induction false} HandleLives(s: State, event: RunEvent, writes: bool)
    requires !s.shutdown && s.main == Handling(event) && Coming(s) && Sound(s) && Flow(s)
    ensures Live(Handle(s, event, writes))
  {
    hide CompletionQueued, Settle, HandleRequest, CompletedLast, NoneFromWorker, AllFromWorker, EndLast;
    match event
    case RequestEvent(request) => RequestLives(s, request, writes);
    case ParseErrorEvent(id) => SettleLives(s.(log := s.log + [Rejected(id)]));
    case ProgressEvent(call, id, progress) =>
      SettleLives(s.(log := s.log + [Progressed(call, id)]));
      SettleLives(s);
    case _ =>
  }

  lemma {:induction false} CompleteLives(s: State, call: nat, id: Id, writes: bool)
    requires !s.shutdown && s.main == Completing(call, id) && Coming(s) && Flow(s)
    ensures Live(Complete(s, call, id, writes))
  {
    hide CompletionQueued, Settle, AllFromWorker, EndLast;
    if s.control == [] {
      SettleLives(s.(active := None, log := s.log + [Answered(call, id)]));
    } else {
      ControlSplits(s.control);
    }
  }

  lemma {:induction false} ControlSplits(control: seq<ControlEvent>)
    requires control != []
    ensures ReadError in control <==> control[0] == ReadError || ReadError in control[1..]
  {
  }

  lemma {:induction false} DrainLives(s: State)
    requires !s.shutdown && s.main == Draining && Coming(s) && Flow(s)
    ensures Live(Drain(s))
  {
    hide CompletionQueued, AllFromWorker, EndLast, NotePending;
    if s.control != [] { ControlSplits(s.control); }
  }

  lemma {:induction false} ReceiveLives(s: State)
    requires !s.shutdown && s.main == Receiving && Coming(s)
    ensures Live(Receive(s))
  {
    if s.events != [] {
      assert forall e :: e in s.events <==> e == s.events[0] || e in s.events[1..];
    }
  }

  lemma {:induction false} MainLives(s: State, writes: bool)
    requires Live(s) && Invariant(s)
    ensures Live(MainStep(s, writes))
  {
    hide Live, Coming, Handle, Complete, Drain, Receive, Reply, Flow, Sound, Counted;
    if s.shutdown {
      StaysDown(s, writes);
    } else if !s.main.Returned? {
      assert Coming(s) by { NotYet(s); }
      match s.main {
        case Draining => DrainLives(s);
        case Receiving => ReceiveLives(s);
        case Handling(event) => HandleLives(s, event, writes);
        case Completing(call, id) => CompleteLives(s, call, id, writes);
        case NeedsHost(request) => HostLives(s, request, writes);
        case HasHost(request) => HostLives(s, request, writes);
        case Returned(_) =>
      }
    }
  }

  lemma {:induction false} NotYet(s: State)
    requires Live(s) && !s.shutdown && !s.main.Returned?
    ensures Coming(s)
  {
  }

  lemma {:induction false} HostLives(s: State, request: Request, writes: bool)
    requires !s.shutdown && (s.main == NeedsHost(request) || s.main == HasHost(request)) && Coming(s)
    ensures Live(MainStep(s, writes))
  {
    hide CompletionQueued, Reply;
    if s.main.HasHost? { ReplyLives(s.(host := Free), request, writes); }
  }

  /** Nothing in the main loop takes a shutdown back. */
  lemma {:induction false} StaysDown(s: State, writes: bool)
    requires s.shutdown
    ensures Live(MainStep(s, writes))
  {
    hide Coming, Handle, Reply, CancelActive, NotePending;
    match s.main {
      case Handling(event) => HandleStaysDown(s, event, writes);
      case HasHost(request) => ReplyStaysDown(s.(host := Free), request, writes);
      case _ =>
    }
  }

  lemma {:induction false} ReplyStaysDown(s: State, request: Request, writes: bool)
    requires s.shutdown
    ensures Reply(s, request, writes).shutdown
  {
  }

  lemma {:induction false} HandleStaysDown(s: State, event: RunEvent, writes: bool)
    requires s.shutdown
    ensures Handle(s, event, writes).shutdown
  {
    hide HandleRequest, CancelActive;
    if event.RequestEvent? { RequestStaysDown(s, event.request, writes); }
  }

  lemma {:induction false} RequestStaysDown(s: State, request: Request, writes: bool)
    requires s.shutdown
    ensures HandleRequest(s, request, writes).shutdown
  {
    hide Reply, Without, HandlePattern, CancelActive;
    PatternStaysDown(s, request, writes);
    ReplyStaysDown(s, request, writes);
    ReplyStaysDown(s.(queuedIds := Without(s.queuedIds, request.id)), request, writes);
  }

  lemma {:induction false} PatternStaysDown(s: State, request: Request, writes: bool)
    requires s.shutdown
    ensures HandlePattern(s, request, writes).shutdown
  {
    hide Reply, Without, CancelActive;
    ReplyStaysDown(s.(queuedIds := Without(s.queuedIds, request.id)), request, writes);
  }

  lemma {:induction false} SendLives(s: State)
    requires Live(s)
    ensures Live(ReaderSend(s))
  {
    hide OwedForEvent;
    if s.reader.SendingEvent? {
      assert forall e :: e in s.events + [s.reader.event] <==> e in s.events || e == s.reader.event;
    } else if s.reader.SendingControl? {
      assert forall c :: c in s.control + [s.reader.control] <==> c in s.control || c == s.reader.control;
    }
  }

  lemma {:induction false} WorkerSendLives(s: State)
    requires Live(s)
    ensures Live(WorkerSend(s))
  {
    if s.worker.Some? {
      var w := s.worker.value;
      if w.pc.SendingProgress? {
        var e := ProgressEvent(w.call, w.id, w.pc.progress);
        assert forall x :: x in s.events + [e] <==> x in s.events || x == e;
      } else {
        var e := CompletedEvent(w.call, w.id);
        assert forall x :: x in s.events + [e] <==> x in s.events || x == e;
        assert e in s.events + [e];
      }
    }
  }

  lemma {:induction false} OtherLives(s: State, step: Step)
    requires Live(s) && !step.MainMoves? && !step.ReaderSends? && !step.WorkerSends?
    ensures Live(Perform(s, step))
  {
    hide CompletionQueued, NoteQueued, Progress.Shortened;
  }

  lemma {:induction false} AlwaysLive(input: seq<Frame>, steps: seq<Step>)
    ensures Live(After(input, steps))
  {
    hide Live, Invariant, MainStep, ReaderSend, WorkerSend;
    if steps == [] {
      assert Live(Start(input)) by { StartLive(input); }
    } else {
      var s, step := After(input, steps[..|steps| - 1]), steps[|steps| - 1];
      AlwaysLive(input, steps[..|steps| - 1]);
      AlwaysInvariant(input, steps[..|steps| - 1]);
      match step
      case MainMoves(writes) => MainLives(s, writes);
      case ReaderSends => SendLives(s);
      case WorkerSends => WorkerSendLives(s);
      case _ => OtherLives(s, step);
    }
  }

  lemma {:induction false} StartLive(input: seq<Frame>)
    ensures Live(Start(input))
  {
  }

  // ---------- How much is left ----------

  function EventWeight(event: RunEvent): nat { if event.RequestEvent? then 20 else 8 }

  function EventsWeight(events: seq<RunEvent>): nat {
    if events == [] then 0 else EventWeight(events[0]) + EventsWeight(events[1..])
  }

  function ReaderWeight(reader: Reader): nat {
    match reader
    case Reading => 40
    case SendingEvent(event) => if event.EndOfInput? then 9 else 41 + EventWeight(event)
    case SendingControl(control) => if control.ReadError? then 10 else 50
    case Finished(_) => 0
  }

  function MainWeight(main: Main, control: seq<ControlEvent>): nat {
    match main
    case Draining => if control == [] then 2 else 1
    case Receiving => if control == [] then 1 else 2
    case Handling(event) => EventWeight(event)
    case Completing(_, _) => 6
    case NeedsHost(_) => 6
    case HasHost(_) => 5
    case Returned(_) => 0
  }

  function WorkerWeight(worker: Option<Worker>): nat {
    if worker.None? then 0 else
    match worker.value.pc
    case WaitingForHost => 13
    case Running => 12
    case SendingProgress(_) => 21
    case SendingCompleted => 9
  }

  function Remaining(s: State): nat {
    60 * |s.input| + ReaderWeight(s.reader) + EventsWeight(s.events) + 8 * |s.control| + MainWeight(s.main, s.control)
      + WorkerWeight(s.worker)
  }

  lemma {:induction false} EventsWeightAppend(events: seq<RunEvent>, e: RunEvent)
    ensures EventsWeight(events + [e]) == EventsWeight(events) + EventWeight(e)
  {
    if events == [] {
      assert [] + [e] == [e];
    } else {
      assert (events + [e])[1..] == events[1..] + [e];
      EventsWeightAppend(events[1..], e);
    }
  }

  /** The input has not failed and is not about to. */
  ghost predicate Unfailed(s: State) {
    && s.reader != SendingControl(ReadError) && s.reader != Finished(Failed)
    && ReadError !in s.control && !s.readFailed
  }

  /** A move towards the end: less is left, nothing is shut down and no failure is introduced. */
  ghost predicate Advanced(s: State, t: State) {
    !t.shutdown && Remaining(t) < Remaining(s) && (Unfailed(s) ==> Unfailed(t))
  }

  lemma {:induction false} SettleAdvances(s: State, t: State)
    requires !s.shutdown && !t.shutdown && t.reader == s.reader && t.input == s.input && t.events == s.events
    requires t.control == s.control && t.readFailed == s.readFailed
    requires MainWeight(s.main, s.control) + WorkerWeight(s.worker) > 2 + WorkerWeight(t.worker)
    ensures Advanced(s, Settle(t)) && Advanced(s, t.(main := Draining))
  {
    hide EventsWeight, ReaderWeight, WorkerWeight;
  }

  lemma {:induction false} ReplyAdvances(s: State, t: State, request: Request)
    requires !s.shutdown && !t.shutdown && t.reader == s.reader && t.input == s.input && t.events == s.events
    requires t.control == s.control && t.readFailed == s.readFailed && t.worker == s.worker
    requires MainWeight(s.main, s.control) > 2
    ensures Advanced(s, Reply(t, request, true))
  {
    hide EventsWeight, ReaderWeight, WorkerWeight, MainWeight, Settle, Advanced;
    SettleAdvances(s, t.(handled := t.handled + 1));
    SettleAdvances(s, t.(handled := t.handled + 1, log := t.log + [Replied(request.id)]));
  }

  lemma {:induction false} PatternAdvances(s: State, request: Request)
    requires !s.shutdown && s.main == Handling(RequestEvent(request)) && (s.active.None? ==> s.worker.None?)
    ensures Advanced(s, HandlePattern(s, request, true))
  {
    hide EventsWeight, ReaderWeight, Settle, Reply, Advanced, Without;
    if request.isNotification {
      SettleAdvances(s, s.(handled := s.handled + 1));
    } else if !request.argumentsValid {
      SettleAdvances(s, s.(handled := s.handled + 1, log := s.log + [Replied(request.id)]));
    } else if s.active.Some? {
      ReplyAdvances(s, s.(queuedIds := Without(s.queuedIds, request.id)), request);
    } else {
      SettleAdvances(s, s.(
        queuedIds := Without(s.queuedIds, request.id), pending := Without(s.pending, request.id),
        worker := Some(Worker(s.calls, request.id, request.hasProgressToken, WaitingForHost, 0, None)),
        active := Some(Active(s.calls, request.id, request.id in s.pending)), calls := s.calls + 1,
        log := s.log + [Started(s.calls, request.id)], handled := s.handled + 1));
    }
  }

  lemma {:induction false} RequestAdvances(s: State, request: Request)
    requires !s.shutdown && s.main == Handling(RequestEvent(request)) && (s.active.None? ==> s.worker.None?)
    ensures Advanced(s, HandleRequest(s, request, true))
  {
    hide EventsWeight, ReaderWeight, WorkerWeight, Settle, Reply, HandlePattern, Without;
    if request.kind == CancelledNotification {
      SettleAdvances(s, s.(handled := s.handled + 1,
        active := if s.active.Some? && Targets(request, s.active.value.id) then CancelActive(s.active) else s.active));
    } else if request.IsPatternCall() {
      PatternAdvances(s, request);
    } else {
      ReplyAdvances(s, s, request);
      ReplyAdvances(s, s.(queuedIds := Without(s.queuedIds, request.id)), request);
    }
  }

  lemma {:induction false} HandleAdvances(s: State, event: RunEvent)
    requires !s.shutdown && s.main == Handling(event) && (s.active.None? ==> s.worker.None?)
    ensures Advanced(s, Handle(s, event, true))
  {
    hide EventsWeight, ReaderWeight, WorkerWeight, Settle, HandleRequest;
    match event
    case RequestEvent(request) => RequestAdvances(s, request);
    case ParseErrorEvent(id) => SettleAdvances(s, s.(log := s.log + [Rejected(id)]));
    case ProgressEvent(call, id, progress) =>
      SettleAdvances(s, s.(log := s.log + [Progressed(call, id)]));
      SettleAdvances(s, s);
    case CompletedEvent(call, id) => SettleAdvances(s, s);
    case EndOfInput =>
  }

  lemma {:induction false} CompleteAdvances(s: State, call: nat, id: Id)
    requires !s.shutdown && s.main == Completing(call, id)
    ensures Advanced(s, Complete(s, call, id, true))
  {
    hide EventsWeight, ReaderWeight, WorkerWeight, Settle;
    if s.control == [] {
      SettleAdvances(s, s.(active := None, log := s.log + [Answered(call, id)]));
    } else {
      ControlSplits(s.control);
    }
  }

  lemma {:induction false} DrainAdvances(s: State)
    requires !s.shutdown && s.main == Draining
    ensures Advanced(s, Drain(s))
  {
    hide EventsWeight, ReaderWeight, WorkerWeight, NotePending;
    if s.control != [] { ControlSplits(s.control); }
  }

  lemma {:induction false} ReceiveAdvances(s: State)
    requires !s.shutdown && s.main == Receiving && (s.events != [] || s.control != [])
    ensures Advanced(s, Receive(s))
  {
    hide ReaderWeight, WorkerWeight;
  }

  /** The main loop can move unless it waits for something to arrive. */
  lemma {:induction false} MainAdvances(s: State)
    requires Sound(s) && !s.shutdown && !s.main.Returned?
    requires s.main == Receiving ==> s.events != [] || s.control != []
    ensures Advanced(s, MainStep(s, true))
  {
    hide EventsOk, Advanced, Handle, Complete, Drain, Receive, Reply;
    match s.main {
      case Draining => DrainAdvances(s);
      case Receiving => ReceiveAdvances(s);
      case Handling(event) => HandleAdvances(s, event);
      case Completing(call, id) => CompleteAdvances(s, call, id);
      case NeedsHost(request) => LockAdvances(s, request);
      case HasHost(request) => ReplyAdvances(s, s.(host := Free), request);
      case Returned(_) =>
    }
  }

  lemma {:induction false} LockAdvances(s: State, request: Request)
    requires !s.shutdown && s.main == NeedsHost(request)
    ensures Advanced(s, s.(host := HeldByMain, main := HasHost(request)))
  {
    hide EventsWeight, ReaderWeight, WorkerWeight;
  }

  /** With both queues empty an unfinished reader can move. */
  lemma {:induction false} ReaderAdvances(s: State) returns (step: Step)
    requires !s.shutdown && s.main == Receiving && s.events == [] && s.control == [] && !s.reader.Finished?
    ensures Advanced(s, Perform(s, step))
  {
    hide WorkerWeight, NoteQueued;
    step := if !s.reader.Reading? then ReaderSends else if s.input == [] then ReaderMeetsEnd else ReaderReads;
    if s.reader.SendingEvent? { EventsWeightAppend(s.events, s.reader.event); }
  }

  /** With both queues empty a worker can move: the Host is free or its own. */
  lemma {:induction false} WorkerAdvances(s: State) returns (step: Step)
    requires Sound(s) && !s.shutdown && s.main == Receiving && s.events == [] && s.worker.Some?
    ensures Advanced(s, Perform(s, step))
  {
    hide ReaderWeight, EventsOk;
    var w := s.worker.value;
    step := if w.pc.WaitingForHost? then WorkerLocks else if w.pc.Running? then WorkerFinishes else WorkerSends;
    EventsWeightAppend(s.events, CompletedEvent(w.call, w.id));
    if w.pc.SendingProgress? { EventsWeightAppend(s.events, ProgressEvent(w.call, w.id, w.pc.progress)); }
  }

  /** In every state that is neither shut down nor returned some thread can move towards the end. */
  lemma {:induction false} SomeoneAdvances(s: State) returns (step: Step)
    requires Invariant(s) && Live(s) && !s.shutdown && !s.main.Returned?
    ensures Advanced(s, Perform(s, step))
  {
    hide Advanced, Sound, EndLast, AllFromWorker, Counted, MainStep;
    if s.main != Receiving || s.events != [] || s.control != [] {
      MainAdvances(s);
      step := MainMoves(true);
    } else if !s.reader.Finished? {
      step := ReaderAdvances(s);
    } else {
      WorkerLeft(s);
      step := WorkerAdvances(s);
    }
  }

  /** When nothing is queued and the reader is done, the main loop waits for a worker. */
  lemma {:induction false} WorkerLeft(s: State)
    requires Flow(s) && Live(s) && !s.shutdown && s.main == Receiving && s.events == [] && s.control == [] && s.reader.Finished?
    ensures s.worker.Some?
  {
    hide EndLast, AllFromWorker;
    match s.reader.how
    case Ended => assert s.reader == Finished(Ended);
    case Failed => assert s.reader == Finished(Failed);
    case Dropped =>
  }

  /**
   * From every reachable state that is not shut down the session can run to its end, with every write succeeding;
   * and it then returns Ok unless its input has failed.
   */
  lemma {:induction false} CanFinish(input: seq<Frame>, steps: seq<Step>) returns (more: seq<Step>)
    requires !After(input, steps).shutdown
    ensures var t := After(input, steps + more);
      && !t.shutdown && t.main == Returned(!t.readFailed)
      && (Unfailed(After(input, steps)) ==> t.main == Returned(true))
    decreases Remaining(After(input, steps))
  {
    hide Invariant, Live, Perform, Remaining, Advanced, Unfailed;
    var s := After(input, steps);
    AlwaysInvariant(input, steps);
    AlwaysLive(input, steps);
    if s.main.Returned? {
      more := [];
      assert steps + more == steps;
      ReturnedTells(s);
    } else {
      var step := SomeoneAdvances(s);
      assert (steps + [step])[..|steps|] == steps;
      AdvancedMeans(s, Perform(s, step));
      var rest := CanFinish(input, steps + [step]);
      more := [step] + rest;
      assert steps + more == steps + [step] + rest;
    }
  }

  lemma {:induction false} ReturnedTells(s: State)
    requires Live(s) && !s.shutdown && s.main.Returned?
    ensures s.main == Returned(!s.readFailed) && (Unfailed(s) ==> s.main == Returned(true))
  {
  }

  lemma {:induction false} AdvancedMeans(s: State, t: State)
    requires Advanced(s, t)
    ensures !t.shutdown && Remaining(t) < Remaining(s) && (Unfailed(s) ==> Unfailed(t))
  {
  }
}
