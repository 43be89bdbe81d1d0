/** The end of the input, the count of requests, the cancellations, and the guarantees of a whole session. */
module SessionGuarantees {
  import opened Wrappers
  import opened SessionModel
  import opened SessionProofs
  import opened SessionCalls

  // ---------- The end of the input ----------

  ghost predicate EndSeen(events: seq<RunEvent>, main: Main, inputFinished: bool, readFailed: bool) {
    EndOfInput in events || main == Handling(EndOfInput) || (inputFinished && !readFailed)
  }

  ghost predicate AllFromWorker(events: seq<RunEvent>) {
    forall e :: e in events ==> e.FromWorker()
  }

  ghost predicate EndLast(events: seq<RunEvent>) {
    forall i, j :: 0 <= i < j < |events| && events[i] == EndOfInput ==> events[j].FromWorker()
  }

  /** A reader that can no longer deliver the end of the input. */
  ghost predicate Failing(reader: Reader) {
    reader == SendingControl(ReadError) || reader == Finished(Failed) || reader == Finished(Dropped)
  }

  /** The end of the input is delivered once, last, and only when everything was read and nothing lost. */
  ghost predicate Flow(s: State) {
    && (EndSeen(s.events, s.main, s.inputFinished, s.readFailed) ==> s.reader == Finished(Ended))
    && (ReadError in s.control || s.readFailed ==> s.reader == Finished(Failed))
    && (s.reader == Finished(Ended) || s.reader == SendingEvent(EndOfInput) ==> s.input == [])
    && EndLast(s.events)
    && (s.main == Handling(EndOfInput) || (s.inputFinished && !s.readFailed) ==> AllFromWorker(s.events))
    && (s.reader.SendingEvent? ==> !s.reader.event.FromWorker())
    && (s.main == Returned(true) ==> s.inputFinished && !s.readFailed && s.active.None?)
    && (s.readFailed ==> s.inputFinished)
    && ((s.lost == multiset{} && s.lostRequests == 0) || Failing(s.reader) || s.main == Returned(false))
  }

  /** What the main loop may do without disturbing the flow. */
  lemma {:induction false} FlowStep(s: State, t: State)
    requires Flow(s) && t.reader == s.reader && t.input == s.input
    requires t.events == s.events && (t.control == s.control || (s.control != [] && t.control == s.control[1..]))
    requires t.readFailed == s.readFailed || (t.readFailed && ReadError in s.control && t.inputFinished)
    requires t.inputFinished == s.inputFinished || (t.inputFinished && (s.main == Handling(EndOfInput) || t.readFailed))
    requires t.main != Handling(EndOfInput)
    requires t.main == Returned(true) ==> t.inputFinished && !t.readFailed && t.active.None?
    requires (t.lost == s.lost && t.lostRequests == s.lostRequests) || t.main == Returned(false)
    requires s.main == Returned(false) ==> t.main == Returned(false)
    ensures Flow(t)
  {
    hide EndLast, AllFromWorker;
    assert forall c :: c in t.control ==> c in s.control;
  }

  lemma {:induction false} SettleFlows(s: State)
    ensures var t := Settle(s);
      && !t.main.Handling? && t == s.(main := t.main)
      && (t.main == Returned(true) ==> t.inputFinished && !t.readFailed && t.active.None?)
  {
  }

  lemma {:induction false} ReplyFlows(s: State, request: Request, writes: bool)
    ensures var t := Reply(s, request, writes);
      && t.reader == s.reader && t.input == s.input && t.events == s.events && t.control == s.control
      && t.readFailed == s.readFailed && t.inputFinished == s.inputFinished && !t.main.Handling?
      && (t.main == Returned(true) ==> t.inputFinished && !t.readFailed && t.active.None?)
      && ((t.lost == s.lost && t.lostRequests == s.lostRequests) || t.main == Returned(false))
  {
    hide Settle;
    SettleFlows(s.(handled := s.handled + 1));
    SettleFlows(s.(handled := s.handled + 1, log := s.log + [Replied(request.id)]));
  }

  lemma {:induction false} PatternFlow(s: State, request: Request, writes: bool)
    requires Flow(s) && s.main == Handling(RequestEvent(request))
    ensures Flow(HandlePattern(s, request, writes))
  {
    hide Flow, Settle, Reply, Without;
    var t := HandlePattern(s, request, writes);
    if !request.isNotification && request.argumentsValid && s.active.None? {
      var w := Worker(s.calls, request.id, request.hasProgressToken, WaitingForHost, 0, None);
      SettleFlows(s.(
          queuedIds := Without(s.queuedIds, request.id), pending := Without(s.pending, request.id), worker := Some(w),
          active := Some(Active(s.calls, request.id, request.id in s.pending)), calls := s.calls + 1,
          log := s.log + [Started(s.calls, request.id)], handled := s.handled + 1));
    } else {
      ReplyFlows(s.(queuedIds := Without(s.queuedIds, request.id)), request, writes);
    }
    FlowStep(s, t);
  }

  lemma {:induction false} RequestFlow(s: State, request: Request, writes: bool)
    requires Flow(s) && s.main == Handling(RequestEvent(request))
    ensures Flow(HandleRequest(s, request, writes))
  {
    hide Flow, Settle, Reply, Without, HandlePattern;
    var t := HandleRequest(s, request, writes);
    if request.kind != CancelledNotification && request.IsPatternCall() {
      PatternFlow(s, request, writes);
    } else {
      SettleFlows(s.(handled := s.handled + 1,
        active := if s.active.Some? && Targets(request, s.active.value.id) then CancelActive(s.active) else s.active));
      ReplyFlows(s, request, writes);
      ReplyFlows(s.(queuedIds := Without(s.queuedIds, request.id)), request, writes);
      FlowStep(s, t);
    }
  }

  lemma {:induction false} EndFlow(s: State, t: State)
    requires Flow(s) && s.main == Handling(EndOfInput) && t == Handle(s, EndOfInput, true)
    ensures Flow(t)
  {
    hide EndLast, AllFromWorker;
  }

  lemma {:induction false} HandleFlow(s: State, event: RunEvent, writes: bool)
    requires Flow(s) && s.main == Handling(event)
    ensures Flow(Handle(s, event, writes))
  {
    hide Flow, Settle, HandleRequest;
    var t := Handle(s, event, writes);
    match event
    case RequestEvent(request) => RequestFlow(s, request, writes);
    case EndOfInput => EndFlow(s, t);
    case ParseErrorEvent(id) =>
      SettleFlows(s.(log := s.log + [Rejected(id)]));
      FlowStep(s, t);
    case ProgressEvent(call, id, progress) =>
      SettleFlows(s.(log := s.log + [Progressed(call, id)]));
      SettleFlows(s);
      FlowStep(s, t);
    case CompletedEvent(call, id) =>
      SettleFlows(s);
      FlowStep(s, t);
  }

  lemma {:induction false} ReceiveFlow(s: State)
    requires Flow(s) && s.main == Receiving
    ensures Flow(Receive(s))
  {
    if s.events != [] {
      var e, rest := s.events[0], s.events[1..];
      assert forall x :: x in rest ==> x in s.events;
      assert EndLast(rest);
      if e == EndOfInput {
        forall x | x in rest ensures x.FromWorker() {
          var j :| 0 <= j < |rest| && rest[j] == x;
          assert s.events[j + 1] == x;
        }
      }
    }
  }

  lemma {:induction false} CompleteFlow(s: State, call: nat, id: Id, writes: bool)
    requires Flow(s) && s.main == Completing(call, id)
    ensures Flow(Complete(s, call, id, writes))
  {
    hide Flow, Settle, CancelActive;
    var t := Complete(s, call, id, writes);
    if s.control == [] { SettleFlows(s.(active := None, log := s.log + [Answered(call, id)])); }
    FlowStep(s, t);
  }

  lemma {:induction false} MainFlow(s: State, writes: bool)
    requires Flow(s)
    ensures Flow(MainStep(s, writes))
  {
    hide Flow, Handle, Complete, Receive, Reply, Drain;
    var t := MainStep(s, writes);
    match s.main {
      case Receiving => ReceiveFlow(s);
      case Handling(event) => HandleFlow(s, event, writes);
      case Completing(call, id) => CompleteFlow(s, call, id, writes);
      case HasHost(request) => HostFlow(s, request, writes);
      case Draining => DrainFlow(s);
      case NeedsHost(request) => FlowStep(s, t);
      case Returned(_) =>
    }
  }

  lemma {:induction false} HostFlow(s: State, request: Request, writes: bool)
    requires Flow(s) && s.main == HasHost(request)
    ensures Flow(Reply(s.(host := Free), request, writes))
  {
    hide Flow, Reply;
    ReplyFlows(s.(host := Free), request, writes);
    FlowStep(s, Reply(s.(host := Free), request, writes));
  }

  lemma {:induction false} DrainFlow(s: State)
    requires Flow(s) && s.main == Draining
    ensures Flow(Drain(s))
  {
    hide Flow, NotePending, CancelActive;
    FlowStep(s, Drain(s));
  }

  lemma {:induction false} AppendFlow(s: State, t: State, e: RunEvent)
    requires Flow(s) && t.events == s.events + [e] && t.main == s.main && t.control == s.control && t.input == s.input
    requires t.inputFinished == s.inputFinished && t.readFailed == s.readFailed && t.active == s.active
    requires t.lost == s.lost && t.lostRequests == s.lostRequests
    requires e.FromWorker() ==> t.reader == s.reader
    requires !e.FromWorker() ==> s.reader == SendingEvent(e) && t.reader == if e.EndOfInput? then Finished(Ended) else Reading
    ensures Flow(t)
  {
    assert forall x :: x in t.events <==> x in s.events || x == e;
    forall i, j | 0 <= i < j < |t.events| && t.events[i] == EndOfInput ensures t.events[j].FromWorker() {
      assert t.events[i] in s.events;
    }
  }

  lemma {:induction false} ReaderFlow(s: State)
    requires Flow(s)
    ensures Flow(ReaderSend(s))
  {
    hide AllFromWorker, EndLast;
    if s.reader.SendingEvent? && |s.events| < QUEUE_CAPACITY { AppendFlow(s, ReaderSend(s), s.reader.event); }
    else if s.reader.SendingControl? {
      assert forall x :: x in s.control + [s.reader.control] <==> x in s.control || x == s.reader.control;
    }
  }

  lemma {:induction false} ReadFlow(s: State)
    requires Flow(s) && s.reader == Reading && s.input != []
    ensures Flow(ReadFrame(s))
  {
    hide AllFromWorker, EndLast, NoteQueued;
  }

  lemma {:induction false} OtherReaderFlow(s: State)
    requires Flow(s) && s.reader == Reading
    ensures s.input == [] ==> Flow(s.(reader := SendingEvent(EndOfInput)))
    ensures Flow(s.(reader := SendingControl(ReadError))) && Flow(s.(reader := Finished(Dropped)))
  {
    hide AllFromWorker, EndLast;
  }

  lemma {:induction false} WorkerFlow(s: State)
    requires Flow(s)
    ensures Flow(WorkerSend(s))
  {
    hide AllFromWorker, EndLast;
    if s.worker.Some? && |s.events| < QUEUE_CAPACITY {
      var w := s.worker.value;
      if w.pc.SendingProgress? { AppendFlow(s, WorkerSend(s), ProgressEvent(w.call, w.id, w.pc.progress)); }
      if w.pc.SendingCompleted? { AppendFlow(s, WorkerSend(s), CompletedEvent(w.call, w.id)); }
    }
  }

  // ---------- Counting requests ----------

  function Requests(frames: seq<Frame>): nat {
    if frames == [] then 0 else Requests(frames[..|frames| - 1]) + if frames[|frames| - 1].Good? then 1 else 0
  }

  function QueuedRequests(events: seq<RunEvent>): nat {
    if events == [] then 0 else (if events[0].RequestEvent? then 1 else 0) + QueuedRequests(events[1..])
  }

  function QueuedCancellations(control: seq<ControlEvent>): nat {
    if control == [] then 0 else (if control[0].Cancellation? then 1 else 0) + QueuedCancellations(control[1..])
  }

  function HeldByMainLoop(main: Main): nat {
    if main.NeedsHost? || main.HasHost? || (main.Handling? && main.event.RequestEvent?) then 1 else 0
  }

  function HeldByReader(reader: Reader): nat {
    if reader.SendingEvent? then (if reader.event.RequestEvent? then 1 else 0)
    else if reader.SendingControl? && reader.control.Cancellation? then 1 else 0
  }

  ghost predicate Counted(s: State) {
    s.handled + HeldByMainLoop(s.main) + QueuedRequests(s.events) + QueuedCancellations(s.control)
      + HeldByReader(s.reader) + s.lostRequests == Requests(s.read)
  }

  lemma {:induction false} QueuedRequestsAppend(events: seq<RunEvent>, e: RunEvent)
    ensures QueuedRequests(events + [e]) == QueuedRequests(events) + if e.RequestEvent? then 1 else 0
  {
    if events == [] {
      assert [] + [e] == [e];
    } else {
      assert (events + [e])[1..] == events[1..] + [e];
      QueuedRequestsAppend(events[1..], e);
    }
  }

  lemma {:induction false} QueuedCancellationsAppend(control: seq<ControlEvent>, c: ControlEvent)
    ensures QueuedCancellations(control + [c]) == QueuedCancellations(control) + if c.Cancellation? then 1 else 0
  {
    if control == [] {
      assert [] + [c] == [c];
    } else {
      assert (control + [c])[1..] == control[1..] + [c];
      QueuedCancellationsAppend(control[1..], c);
    }
  }

  lemma {:induction false} ReplyCounts(s: State, request: Request, writes: bool)
    ensures var t := Reply(s, request, writes);
      && t.handled + t.lostRequests == s.handled + s.lostRequests + 1 && HeldByMainLoop(t.main) == 0
      && t.events == s.events && t.control == s.control && t.reader == s.reader && t.read == s.read
  {
  }

  lemma {:induction false} PatternCounts(s: State, request: Request, writes: bool)
    requires Counted(s) && s.main == Handling(RequestEvent(request))
    ensures Counted(HandlePattern(s, request, writes))
  {
    hide Reply, Without, QueuedRequests, QueuedCancellations, Requests;
    ReplyCounts(s.(queuedIds := Without(s.queuedIds, request.id)), request, writes);
  }

  lemma {:induction false} RequestCounts(s: State, request: Request, writes: bool)
    requires Counted(s) && s.main == Handling(RequestEvent(request))
    ensures Counted(HandleRequest(s, request, writes))
  {
    hide Reply, Without, HandlePattern, QueuedRequests, QueuedCancellations, Requests, CancelActive;
    if request.kind != CancelledNotification && request.IsPatternCall() { PatternCounts(s, request, writes); }
    ReplyCounts(s, request, writes);
    ReplyCounts(s.(queuedIds := Without(s.queuedIds, request.id)), request, writes);
  }

  lemma {:induction false} HandleCounts(s: State, event: RunEvent, writes: bool)
    requires Counted(s) && s.main == Handling(event)
    ensures Counted(Handle(s, event, writes))
  {
    hide HandleRequest, Counted;
    if event.RequestEvent? { RequestCounts(s, event.request, writes); } else { OtherEventCounts(s, event, writes); }
  }

  lemma {:induction false} OtherEventCounts(s: State, event: RunEvent, writes: bool)
    requires Counted(s) && s.main == Handling(event) && !event.RequestEvent?
    ensures Counted(Handle(s, event, writes))
  {
    hide Settle, HeldByReader, QueuedRequests, QueuedCancellations, Requests, CancelActive;
    SettleHolds(s);
    match event
    case ParseErrorEvent(id) => SettleHolds(s.(log := s.log + [Rejected(id)]));
    case ProgressEvent(call, id, _) => SettleHolds(s.(log := s.log + [Progressed(call, id)]));
    case _ =>
  }

  lemma {:induction false} SettleHolds(s: State)
    ensures Settle(s) == s.(main := Settle(s).main) && HeldByMainLoop(Settle(s).main) == 0
  {
  }

  lemma {:induction false} CompleteCounts(s: State, call: nat, id: Id, writes: bool)
    requires Counted(s) && s.main == Completing(call, id)
    ensures Counted(Complete(s, call, id, writes))
  {
    hide QueuedRequests, Requests, CancelActive, HeldByReader;
  }

  lemma {:induction false} MainCounts(s: State, writes: bool)
    requires Counted(s)
    ensures Counted(MainStep(s, writes))
  {
    hide Handle, Complete, Reply, Counted;
    match s.main {
      case Handling(event) => HandleCounts(s, event, writes);
      case Completing(call, id) => CompleteCounts(s, call, id, writes);
      case HasHost(request) => HostCounts(s, request, writes);
      case _ => WaitingCounts(s, writes);
    }
  }

  lemma {:induction false} HostCounts(s: State, request: Request, writes: bool)
    requires Counted(s) && s.main == HasHost(request)
    ensures Counted(Reply(s.(host := Free), request, writes))
  {
    hide Reply, HeldByReader, QueuedRequests, QueuedCancellations, Requests;
    ReplyCounts(s.(host := Free), request, writes);
  }

  lemma {:induction false} WaitingCounts(s: State, writes: bool)
    requires Counted(s) && !s.main.Handling? && !s.main.Completing? && !s.main.HasHost?
    ensures Counted(MainStep(s, writes))
  {
    hide Counted, Drain, Receive;
    match s.main {
      case Draining => DrainCounts(s);
      case Receiving => ReceiveCounts(s);
      case _ => LockCounts(s, writes);
    }
  }

  lemma {:induction false} LockCounts(s: State, writes: bool)
    requires Counted(s) && (s.main.NeedsHost? || s.main.Returned?)
    ensures Counted(MainStep(s, writes))
  {
    hide QueuedRequests, QueuedCancellations, HeldByReader, Requests;
  }

  lemma {:induction false} ReceiveCounts(s: State)
    requires Counted(s) && s.main == Receiving
    ensures Counted(Receive(s))
  {
    hide QueuedCancellations, HeldByReader, Requests;
  }

  lemma {:induction false} DrainCounts(s: State)
    requires Counted(s) && s.main == Draining
    ensures Counted(Drain(s))
  {
    hide QueuedRequests, NotePending, CancelActive, HeldByReader, Requests;
  }

  lemma {:induction false} ReaderCounts(s: State)
    requires Counted(s)
    ensures Counted(ReaderSend(s))
    ensures s.reader == Reading && s.input != [] ==> Counted(ReadFrame(s))
  {
    hide QueuedRequests, QueuedCancellations, Requests, NoteQueued, HeldByMainLoop, OwedForEvent;
    if s.reader.SendingEvent? { QueuedRequestsAppend(s.events, s.reader.event); }
    if s.reader.SendingControl? { QueuedCancellationsAppend(s.control, s.reader.control); }
    if s.reader == Reading && s.input != [] { RequestsAppend(s.read, s.input[0]); }
  }

  lemma {:induction false} RequestsAppend(frames: seq<Frame>, f: Frame)
    ensures Requests(frames + [f]) == Requests(frames) + if f.Good? then 1 else 0
  {
    assert (frames + [f])[..|frames|] == frames;
  }

  lemma {:induction false} WorkerCounts(s: State)
    requires Counted(s)
    ensures Counted(WorkerSend(s))
  {
    hide QueuedRequests, QueuedCancellations, Requests, HeldByMainLoop, HeldByReader;
    if s.worker.Some? {
      var w := s.worker.value;
      QueuedRequestsAppend(s.events, CompletedEvent(w.call, w.id));
      if w.pc.SendingProgress? { QueuedRequestsAppend(s.events, ProgressEvent(w.call, w.id, w.pc.progress)); }
    }
  }

  // ---------- Every interleaving ----------

  /** What one interleaving keeps, for every response and every call. */
  ghost predicate Invariant(s: State) {
    Sound(s) && Flow(s) && Counted(s) && (forall r :: Balanced(s, r)) && (forall c :: Journal(s, c))
  }

  lemma {:induction false} StartInvariant(input: seq<Frame>)
    ensures Invariant(Start(input))
  {
  }

  ghost predicate ReaderStep(step: Step) {
    step.ReaderReads? || step.ReaderMeetsEnd? || step.ReaderMeetsError? || step.ReaderSeesShutdown? || step.ReaderSends?
  }

  /** Fields the invariant reads, apart from the reader's. */
  lemma {:induction false} ReaderKeeps(s: State, step: Step)
    requires Invariant(s) && ReaderStep(step)
    ensures Invariant(Perform(s, step))
  {
    hide Sound, Flow, Counted, Balanced, Journal, ReaderSend, ReadFrame, MainStep;
    var t := Perform(s, step);
    if t != s {
      assert Flow(t) by {
        ReaderFlow(s);
        if s.reader == Reading {
          OtherReaderFlow(s);
          if s.input != [] { ReadFlow(s); }
        }
      }
      assert Counted(t) by { if s.reader == Reading { IdleReaderCounts(s, t.reader); } ReaderCounts(s); }
      assert Sound(t) by { ReaderKeepsSound(s, step); }
      forall r ensures Balanced(t, r) { ReaderKeepsBalance(s, step, r); }
      forall c ensures Journal(t, c) { ReaderKeepsJournal(s, step, c); }
    }
  }

  lemma {:induction false} NotFromWorker(s: State)
    requires Flow(s)
    ensures s.reader.SendingEvent? ==> !s.reader.event.FromWorker()
  {
  }

  lemma {:induction false} IdleReaderCounts(s: State, reader: Reader)
    requires Counted(s) && s.reader == Reading
    ensures HeldByReader(reader) == 0 ==> Counted(s.(reader := reader))
  {
  }

  lemma {:induction false} ReaderKeepsSound(s: State, step: Step)
    requires Sound(s) && Flow(s) && ReaderStep(step)
    ensures Sound(Perform(s, step))
  {
    hide EventsOk, ThreadsOk, ReaderSend;
    NotFromWorker(s);
    ReaderSound(s);
  }

  lemma {:induction false} ReaderKeepsBalance(s: State, step: Step, r: Response)
    requires Balanced(s, r) && ReaderStep(step)
    ensures Balanced(Perform(s, step), r)
  {
    hide Written, OwedByFrames, OwedByEvents, OwedByMain, OwedByActive, ReaderSend, ReadFrame;
    SendBalances(s, r);
    if s.reader == Reading && s.input != [] { ReadBalances(s, r); }
  }

  lemma {:induction false} ReaderKeepsJournal(s: State, step: Step, c: nat)
    requires Journal(s, c) && Flow(s) && ReaderStep(step)
    ensures Journal(Perform(s, step), c)
  {
    hide InOrder, HasStart, HasAnswer, ProgressCount, QueuedProgress, ReaderSend;
    NotFromWorker(s);
    ReaderJournal(s, c);
  }

  lemma {:induction false} MainKeeps(s: State, writes: bool)
    requires Invariant(s)
    ensures Invariant(MainStep(s, writes))
  {
    hide Sound, Flow, Counted, Balanced, Journal, MainStep;
    var t := MainStep(s, writes);
    MainSound(s, writes);
    MainFlow(s, writes);
    MainCounts(s, writes);
    HeldPoints(s);
    forall r ensures Balanced(t, r) { MainBalances(s, writes, r); }
    forall c ensures Journal(t, c) { MainJournal(s, writes, c); }
  }

  lemma {:induction false} HeldPoints(s: State)
    requires Sound(s)
    ensures s.main.Completing? ==> s.active.Some? && s.active.value.id == s.main.id
    ensures s.main.HasHost? ==> s.main.request.kind == ToolsCall
  {
  }

  lemma {:induction false} WorkerKeeps(s: State, step: Step)
    requires Invariant(s) && (step.WorkerLocks? || step.WorkerReports? || step.WorkerFinishes? || step.WorkerSends?)
    ensures Invariant(Perform(s, step))
  {
    hide Sound, Flow, Counted, Balanced, Journal, WorkerSend, WorkerLock, WorkerFinish, WorkerProgress;
    var t := Perform(s, step);
    var progress := if step.WorkerReports? then step.progress else Progress(0, "");
    WorkerSound(s, progress);
    WorkerSendSound(s);
    WorkerFlow(s);
    WorkerCounts(s);
    assert Flow(t) && Counted(t) by { QuietWorker(s, progress); }
    forall r ensures Balanced(t, r) { WorkerBalances(s, r); QuietWorkerBalance(s, progress, r); }
    forall c ensures Journal(t, c) { WorkerJournal(s, progress, c); WorkerSendJournal(s, c); }
  }

  lemma {:induction false} QuietWorker(s: State, progress: Progress)
    requires Flow(s) && Counted(s)
    ensures Flow(WorkerLock(s)) && Flow(WorkerFinish(s)) && Flow(WorkerProgress(s, progress))
    ensures Counted(WorkerLock(s)) && Counted(WorkerFinish(s)) && Counted(WorkerProgress(s, progress))
  {
    hide EndLast, AllFromWorker, EndSeen, QueuedRequests, QueuedCancellations, Requests, HeldByMainLoop, HeldByReader, Progress.Shortened;
  }

  lemma {:induction false} QuietWorkerBalance(s: State, progress: Progress, r: Response)
    requires Balanced(s, r)
    ensures Balanced(WorkerLock(s), r) && Balanced(WorkerFinish(s), r) && Balanced(WorkerProgress(s, progress), r)
  {
    hide Written, OwedByFrames, OwedByEvents, OwedByMain, OwedByActive, OwedByReader, Progress.Shortened;
  }

  lemma {:induction false} QuietKeeps(s: State, step: Step)
    requires Invariant(s) && (step.MainTimesOut? || step.OutsideShutdown?)
    ensures Invariant(Perform(s, step))
  {
    hide EventsOk, EndLast, AllFromWorker, InOrder, HasStart, HasAnswer, ProgressCount, QueuedProgress,
         QueuedRequests, QueuedCancellations, Requests, Written, OwedByFrames, OwedByEvents;
    var t := Perform(s, step);
    assert Sound(t) by { QuietSound(s, step); }
    forall r ensures Balanced(t, r) { assert Balanced(s, r); }
    forall c ensures Journal(t, c) { assert Journal(s, c); }
  }

  lemma {:induction false} QuietSound(s: State, step: Step)
    requires Sound(s) && (step.MainTimesOut? || step.OutsideShutdown?)
    ensures Sound(Perform(s, step))
  {
    hide CompletedLast;
  }

  lemma {:induction false} StepKeeps(s: State, step: Step)
    requires Invariant(s)
    ensures Invariant(Perform(s, step))
  {
    hide Invariant;
    match step
    case MainMoves(writes) => MainKeeps(s, writes);
    case MainTimesOut => QuietKeeps(s, step);
    case OutsideShutdown => QuietKeeps(s, step);
    case WorkerLocks => WorkerKeeps(s, step);
    case WorkerReports(progress) => WorkerKeeps(s, step);
    case WorkerFinishes => WorkerKeeps(s, step);
    case WorkerSends => WorkerKeeps(s, step);
    case _ => ReaderKeeps(s, step);
  }

  lemma {:induction false} AlwaysInvariant(input: seq<Frame>, steps: seq<Step>)
    ensures Invariant(After(input, steps))
  {
    hide Invariant, Perform;
    if steps == [] {
      StartInvariant(input);
    } else {
      AlwaysInvariant(input, steps[..|steps| - 1]);
      StepKeeps(After(input, steps[..|steps| - 1]), steps[|steps| - 1]);
    }
  }

  lemma {:induction false} InputConserved(input: seq<Frame>, steps: seq<Step>)
    ensures After(input, steps).read + After(input, steps).input == input
  {
    if steps != [] {
      InputConserved(input, steps[..|steps| - 1]);
      InputStep(After(input, steps[..|steps| - 1]), steps[|steps| - 1]);
    }
  }

  lemma {:induction false} InputStep(s: State, step: Step)
    ensures Perform(s, step).read + Perform(s, step).input == s.read + s.input
  {
    hide Settle, NotePending, Without, NoteQueued, OwedFor, OwedForEvent, CancelActive, Progress.Shortened;
    if step == ReaderReads && s.reader == Reading && s.input != [] {
      assert s.input == [s.input[0]] + s.input[1..];
    } else {
      SameInput(s, step);
    }
  }

  ghost predicate InputSame(s: State, t: State) { t.read == s.read && t.input == s.input }

  lemma {:induction false} ReplySameInput(s: State, request: Request, writes: bool)
    ensures InputSame(s, Reply(s, request, writes))
  {
    hide OwedFor, CancelActive;
  }

  lemma {:induction false} RequestSameInput(s: State, request: Request, writes: bool)
    ensures InputSame(s, HandleRequest(s, request, writes))
  {
    hide Reply, Settle, Without, OwedFor, CancelActive;
    ReplySameInput(s, request, writes);
    ReplySameInput(s.(queuedIds := Without(s.queuedIds, request.id)), request, writes);
    forall u: State ensures InputSame(u, Settle(u)) { SettleFlows(u); }
  }

  lemma {:induction false} MainSameInput(s: State, writes: bool)
    ensures InputSame(s, MainStep(s, writes))
  {
    hide Reply, Handle, NotePending, CancelActive;
    match s.main {
      case Handling(event) => HandleSameInput(s, event, writes);
      case HasHost(request) => ReplySameInput(s.(host := Free), request, writes);
      case Completing(call, id) => SettleFlows(s.(active := None, log := s.log + [Answered(call, id)]));
      case _ =>
    }
  }

  lemma {:induction false} HandleSameInput(s: State, event: RunEvent, writes: bool)
    ensures InputSame(s, Handle(s, event, writes))
  {
    hide Settle, HandleRequest, CancelActive;
    SettleFlows(s);
    match event
    case RequestEvent(request) => RequestSameInput(s, request, writes);
    case ParseErrorEvent(id) => SettleFlows(s.(log := s.log + [Rejected(id)]));
    case ProgressEvent(call, id, _) => SettleFlows(s.(log := s.log + [Progressed(call, id)]));
    case _ =>
  }

  lemma {:induction false} SameInput(s: State, step: Step)
    requires !(step == ReaderReads && s.reader == Reading && s.input != [])
    ensures InputSame(s, Perform(s, step))
  {
    hide MainStep, OwedForEvent, Progress.Shortened, ReadFrame;
    if step.MainMoves? { MainSameInput(s, step.writes); }
  }

  // ---------- The guarantees ----------

  /** How often the input calls for a response: once for each request to be answered and each frame to be rejected. */
  ghost function Expected(input: seq<Frame>, r: Response): nat {
    OwedByFrames(input, r)
  }

  /**
   * When the session returns Ok, the whole input was read and every response it calls for has been written exactly
   * as often as it calls for it, and no other; every request was counted except cancellations still queued.
   */
  lemma {:induction false} OkMeansAllAnswered(input: seq<Frame>, steps: seq<Step>, r: Response)
    requires After(input, steps).main == Returned(true)
    ensures var s := After(input, steps);
      && s.read == input
      && Written(s.log, r) == Expected(input, r)
      && s.handled + QueuedCancellations(s.control) == Requests(input)
  {
    hide After, Written, OwedByFrames, Requests, QueuedCancellations, Journal;
    var s := After(input, steps);
    AlwaysInvariant(input, steps);
    InputConserved(input, steps);
    assert Balanced(s, r);
    NothingLeft(s);
  }

  lemma {:induction false} IdleMeansNoWorkerEvents(s: State)
    requires Sound(s) && s.active.None?
    ensures NoneFromWorker(s.events)
  {
    hide CompletedLast;
    forall e | e in s.events ensures !e.FromWorker() { assert OfActive(s.active, e); }
  }

  lemma {:induction false} NobodyIsLeft(events: seq<RunEvent>)
    requires NoneFromWorker(events)
    ensures AllFromWorker(events) ==> events == []
  {
    if events != [] { assert events[0] in events; }
  }

  lemma {:induction false} NothingLeft(s: State)
    requires Sound(s) && Flow(s) && s.main == Returned(true)
    ensures s.input == [] && s.events == [] && s.active.None? && s.reader == Finished(Ended)
    ensures s.lost == multiset{} && s.lostRequests == 0
  {
    IdleMeansNoWorkerEvents(s);
    NobodyIsLeft(s.events);
  }

  /** At every moment no response has been written more often than the frames read so far call for it. */
  lemma {:induction false} NeverTooMany(input: seq<Frame>, steps: seq<Step>, r: Response)
    ensures var s := After(input, steps); Written(s.log, r) <= OwedByFrames(s.read, r)
  {
    AlwaysInvariant(input, steps);
    assert Balanced(After(input, steps), r);
  }

  /**
   * In every interleaving at most one pattern call is running, and it is the active one; the main loop wants or holds
   * the Host only when no call is active, so it never waits for a worker.
   */
  lemma {:induction false} OneCallAtATime(input: seq<Frame>, steps: seq<Step>)
    ensures var s := After(input, steps);
      && (s.worker.Some? ==> s.active.Some? && s.worker.value.call == s.active.value.call && s.worker.value.id == s.active.value.id)
      && (s.host == HeldByWorker <==> s.worker.Some? && (s.worker.value.pc.Running? || s.worker.value.pc.SendingProgress?))
      && (s.host == HeldByMain <==> s.main.HasHost?)
      && (s.main.NeedsHost? ==> s.active.None? && s.worker.None? && s.host == Free)
      && (s.main.HasHost? ==> s.active.None? && s.worker.None? && s.host == HeldByMain)
  {
    AlwaysInvariant(input, steps);
  }

  /**
   * In every interleaving the progress of a call is written only after its start and before its answer, at most
   * a hundred times, and a call is answered at most once.
   */
  lemma {:induction false} ProgressInOrder(input: seq<Frame>, steps: seq<Step>, c: nat)
    ensures var s := After(input, steps);
      && InOrder(s.log, c)
      && ProgressCount(s.log, c) <= 100
  {
    hide InOrder, HasStart, HasAnswer, ProgressCount, QueuedProgress;
    var s := After(input, steps);
    AlwaysInvariant(input, steps);
    assert Journal(s, c) && Sound(s);
  }

  // ---------- Cancellations ----------

  /** A cancellation naming this id has been read. */
  ghost predicate Named(frames: seq<Frame>, id: Id) {
    exists f :: f in frames && f.Good? && f.request.kind == CancelledNotification && f.request.cancels == Some(id)
  }

  ghost predicate WasRead(frames: seq<Frame>, request: Request) {
    Good(request) in frames
  }

  /** Every cancelled or pending id was named, unless the input failed or the session was aborted. */
  ghost predicate CancelsOk(s: State) {
    && (forall id :: id in s.pending ==> Named(s.read, id))
    && |s.pending| <= MAX_PENDING_CANCELLATIONS
    && (forall c :: c in s.control && c.Cancellation? ==> c.request.kind == CancelledNotification && WasRead(s.read, c.request))
    && (s.reader.SendingControl? && s.reader.control.Cancellation? ==>
          s.reader.control.request.kind == CancelledNotification && WasRead(s.read, s.reader.control.request))
    && (forall e :: e in s.events && e.RequestEvent? ==> WasRead(s.read, e.request))
    && (s.main.Handling? && s.main.event.RequestEvent? ==> WasRead(s.read, s.main.event.request))
    && (s.reader.SendingEvent? && s.reader.event.RequestEvent? ==> WasRead(s.read, s.reader.event.request))
    && (s.active.Some? && s.active.value.cancelled ==>
          Named(s.read, s.active.value.id) || s.readFailed || s.main == Returned(false))
  }

  lemma {:induction false} CancellationNames(frames: seq<Frame>, request: Request, id: Id)
    requires request.kind == CancelledNotification && WasRead(frames, request) && Targets(request, id)
    ensures Named(frames, id)
  {
    assert Good(request) in frames;
  }

  /** A move that takes nothing from the queues and cancels nothing new. */
  lemma {:induction false} CancelsStep(s: State, t: State)
    requires CancelsOk(s) && t.read == s.read && t.reader == s.reader && t.events == s.events && t.control == s.control
    requires t.pending <= s.pending && |t.pending| <= |s.pending|
    requires t.main.Handling? ==> t.main == s.main
    requires t.active.Some? && t.active.value.cancelled ==>
      || t.main == Returned(false) || Named(t.read, t.active.value.id)
      || (t.active == s.active && t.readFailed == s.readFailed && s.main != Returned(false))
    ensures CancelsOk(t)
  {
    hide Named, WasRead;
  }

  lemma {:induction false} ReplyCancels(s: State, request: Request, writes: bool)
    requires CancelsOk(s) && s.main != Returned(false)
    ensures CancelsOk(Reply(s, request, writes))
  {
    hide CancelsOk, CancelActive;
    CancelsStep(s, Reply(s, request, writes));
  }

  lemma {:induction false} WithoutSmaller(ids: set<Id>, id: Id)
    ensures Without(ids, id) <= ids && |Without(ids, id)| <= |ids|
  {
    if id in ids { assert |ids - {id}| == |ids| - 1; } else { assert ids - {id} == ids; }
  }

  lemma {:induction false} PatternCancels(s: State, request: Request, writes: bool)
    requires CancelsOk(s) && s.main == Handling(RequestEvent(request))
    ensures CancelsOk(HandlePattern(s, request, writes))
  {
    hide CancelsOk, CancelActive, Without, Reply;
    WithoutSmaller(s.pending, request.id);
    var u := s.(queuedIds := Without(s.queuedIds, request.id));
    CancelsStep(s, u);
    ReplyCancels(u, request, writes);
    if request.isNotification || !request.argumentsValid || s.active.None? {
      if request.id in s.pending { PendingNamed(s, request.id); }
      CancelsStep(s, HandlePattern(s, request, writes));
    }
  }

  lemma {:induction false} PendingNamed(s: State, id: Id)
    requires CancelsOk(s) && id in s.pending
    ensures Named(s.read, id)
  {
  }

  lemma {:induction false} HandledWasRead(s: State, request: Request)
    requires CancelsOk(s) && s.main == Handling(RequestEvent(request))
    ensures WasRead(s.read, request)
  {
  }

  lemma {:induction false} RequestCancels(s: State, request: Request, writes: bool)
    requires CancelsOk(s) && s.main == Handling(RequestEvent(request))
    ensures CancelsOk(HandleRequest(s, request, writes))
  {
    hide CancelsOk, Without, Reply, HandlePattern, WasRead, Named;
    HandledWasRead(s, request);
    if request.kind == CancelledNotification {
      if s.active.Some? && Targets(request, s.active.value.id) { CancellationNames(s.read, request, s.active.value.id); }
      CancelsStep(s, HandleRequest(s, request, writes));
    } else if request.IsPatternCall() {
      PatternCancels(s, request, writes);
    } else {
      var u := s.(queuedIds := Without(s.queuedIds, request.id));
      CancelsStep(s, u);
      ReplyCancels(s, request, writes);
      ReplyCancels(u, request, writes);
      if request.kind == ToolsCall && request.reachesHost && s.active.None? {
        CancelsStep(s, HandleRequest(s, request, writes));
      }
    }
  }

  lemma {:induction false} HandleCancels(s: State, event: RunEvent, writes: bool)
    requires CancelsOk(s) && s.main == Handling(event)
    ensures CancelsOk(Handle(s, event, writes))
  {
    hide CancelsOk, HandleRequest, Named, CancelActive;
    if event.RequestEvent? { RequestCancels(s, event.request, writes); } else { CancelsStep(s, Handle(s, event, writes)); }
  }

  /** Taking a control event: a cancellation names what it cancels, and a failure is recorded. */
  lemma {:induction false} ControlCancels(s: State, t: State)
    requires CancelsOk(s) && s.control != [] && t.control == s.control[1..]
    requires t.read == s.read && t.reader == s.reader && t.events == s.events
    requires t.main.Handling? ==> t.main == s.main
    requires |t.pending| <= MAX_PENDING_CANCELLATIONS
    requires forall id :: id in t.pending ==> id in s.pending || (s.control[0].Cancellation? && Targets(s.control[0].request, id))
    requires t.active.Some? && t.active.value.cancelled ==>
      || t.readFailed
      || (s.control[0].Cancellation? && Targets(s.control[0].request, t.active.value.id))
      || (t.active == s.active && t.readFailed == s.readFailed && s.main != Returned(false))
    ensures CancelsOk(t)
  {
    hide Named, WasRead;
    assert s.control[0] in s.control;
    assert forall c :: c in t.control ==> c in s.control;
    if s.control[0].Cancellation? {
      forall id | Targets(s.control[0].request, id) ensures Named(s.read, id) {
        CancellationNames(s.read, s.control[0].request, id);
      }
    }
  }

  lemma {:induction false} NotedTargets(pending: set<Id>, queuedIds: set<Id>, request: Request)
    requires |pending| <= MAX_PENDING_CANCELLATIONS
    ensures var p := NotePending(pending, queuedIds, request);
      |p| <= MAX_PENDING_CANCELLATIONS && forall id :: id in p ==> id in pending || Targets(request, id)
  {
    if request.cancels.Some? && request.cancels.value in pending {
      assert pending + {request.cancels.value} == pending;
    }
  }

  lemma {:induction false} DrainCancels(s: State)
    requires CancelsOk(s) && s.main == Draining
    ensures CancelsOk(Drain(s))
  {
    hide CancelsOk, NotePending, Named;
    PendingBound(s);
    var t := Drain(s);
    if s.control != [] {
      if s.control[0].Cancellation? { NotedTargets(s.pending, s.queuedIds, s.control[0].request); }
      ControlCancels(s, t);
    } else {
      CancelsStep(s, t);
    }
  }

  lemma {:induction false} MainCancels(s: State, writes: bool)
    requires CancelsOk(s)
    requires s.main.Completing? ==> s.active.Some? && s.active.value.id == s.main.id
    ensures CancelsOk(MainStep(s, writes))
  {
    hide CancelsOk, Handle, Reply, Named, Settle, Drain, Receive, Complete;
    var t := MainStep(s, writes);
    match s.main {
      case Draining => DrainCancels(s);
      case Receiving => ReceiveCancels(s);
      case Handling(event) => HandleCancels(s, event, writes);
      case Completing(call, id) => CompleteCancels(s, call, id, writes);
      case NeedsHost(request) => CancelsStep(s, t);
      case HasHost(request) =>
        CancelsStep(s, s.(host := Free));
        ReplyCancels(s.(host := Free), request, writes);
      case Returned(_) =>
    }
  }

  lemma {:induction false} PendingBound(s: State)
    requires CancelsOk(s)
    ensures |s.pending| <= MAX_PENDING_CANCELLATIONS
  {
  }

  lemma {:induction false} CompleteCancels(s: State, call: nat, id: Id, writes: bool)
    requires CancelsOk(s) && s.main == Completing(call, id) && s.active.Some? && s.active.value.id == id
    ensures CancelsOk(Complete(s, call, id, writes))
  {
    hide CancelsOk, Named;
    PendingBound(s);
    var t := Complete(s, call, id, writes);
    if s.control == [] { CancelsStep(s, t); } else { ControlCancels(s, t); }
  }

  lemma {:induction false} ReceiveCancels(s: State)
    requires CancelsOk(s) && s.main == Receiving
    ensures CancelsOk(Receive(s))
  {
    hide Named, WasRead;
    if s.events != [] {
      assert s.events[0] in s.events;
      assert forall e :: e in s.events[1..] ==> e in s.events;
    }
  }

  /** Reading one more frame keeps every name. */
  lemma {:induction false} ReadCancels(s: State)
    requires CancelsOk(s) && s.reader == Reading && s.input != []
    ensures CancelsOk(ReadFrame(s))
  {
    hide NoteQueued, Named, WasRead;
    ReadMore(s.read, s.input[0]);
  }

  lemma {:induction false} ReadMore(read: seq<Frame>, frame: Frame)
    ensures forall id :: Named(read, id) ==> Named(read + [frame], id)
    ensures forall r :: WasRead(read, r) ==> WasRead(read + [frame], r)
    ensures frame.Good? ==> WasRead(read + [frame], frame.request)
  {
    assert forall f :: f in read + [frame] <==> f in read || f == frame;
    forall id | Named(read, id) ensures Named(read + [frame], id) {}
    forall r | WasRead(read, r) ensures WasRead(read + [frame], r) {}
  }

  lemma {:induction false} SendCancels(s: State)
    requires CancelsOk(s)
    ensures CancelsOk(ReaderSend(s))
  {
    hide CancelsOk;
    if s.reader.SendingEvent? { SendEventCancels(s); } else if s.reader.SendingControl? { SendControlCancels(s); }
  }

  lemma {:induction false} SendEventCancels(s: State)
    requires CancelsOk(s) && s.reader.SendingEvent?
    ensures CancelsOk(ReaderSend(s))
  {
    hide Named, WasRead, OwedForEvent;
    assert forall x :: x in s.events + [s.reader.event] <==> x in s.events || x == s.reader.event;
  }

  lemma {:induction false} SendControlCancels(s: State)
    requires CancelsOk(s) && s.reader.SendingControl?
    ensures CancelsOk(ReaderSend(s))
  {
    hide Named, WasRead;
    assert forall x :: x in s.control + [s.reader.control] <==> x in s.control || x == s.reader.control;
  }

  /** A move that at most queues one event that is not a request. */
  lemma {:induction false} EventCancels(s: State, t: State, e: RunEvent)
    requires CancelsOk(s) && (t.events == s.events || t.events == s.events + [e]) && !e.RequestEvent?
    requires t.pending == s.pending && t.control == s.control && t.read == s.read && t.reader == s.reader
    requires t.main == s.main && t.active == s.active && t.readFailed == s.readFailed
    ensures CancelsOk(t)
  {
    hide Named, WasRead;
    assert forall x :: x in s.events + [e] <==> x in s.events || x == e;
  }

  lemma {:induction false} WorkerCancels(s: State, progress: Progress)
    requires CancelsOk(s)
    ensures CancelsOk(WorkerSend(s)) && CancelsOk(WorkerLock(s)) && CancelsOk(WorkerFinish(s)) && CancelsOk(WorkerProgress(s, progress))
  {
    hide CancelsOk, Progress.Shortened;
    EventCancels(s, WorkerLock(s), EndOfInput);
    EventCancels(s, WorkerFinish(s), EndOfInput);
    EventCancels(s, WorkerProgress(s, progress), EndOfInput);
    WorkerSendCancels(s);
  }

  lemma {:induction false} WorkerSendCancels(s: State)
    requires CancelsOk(s)
    ensures CancelsOk(WorkerSend(s))
  {
    hide CancelsOk;
    EventCancels(s, s, EndOfInput);
    if s.worker.Some? {
      var w := s.worker.value;
      var e := if w.pc.SendingProgress? then ProgressEvent(w.call, w.id, w.pc.progress) else CompletedEvent(w.call, w.id);
      EventCancels(s, WorkerSend(s), e);
    }
  }

  lemma {:induction false} QuietCancels(s: State)
    requires CancelsOk(s)
    ensures s.main == Receiving ==> CancelsOk(s.(main := Draining))
    ensures CancelsOk(s.(shutdown := true))
    ensures s.reader == Reading ==> CancelsOk(s.(reader := SendingEvent(EndOfInput)))
    ensures s.reader == Reading ==> CancelsOk(s.(reader := SendingControl(ReadError))) && CancelsOk(s.(reader := Finished(Dropped)))
  {
    hide Named, WasRead;
  }

  lemma {:induction false} StepCancels(s: State, step: Step)
    requires CancelsOk(s) && Sound(s)
    ensures CancelsOk(Perform(s, step))
  {
    hide CancelsOk, MainStep, ReaderSend, ReadFrame, WorkerSend, WorkerLock, WorkerFinish, WorkerProgress;
    HeldPoints(s);
    QuietCancels(s);
    SendCancels(s);
    match step
    case ReaderReads => if s.reader == Reading && s.input != [] { ReadCancels(s); }
    case MainMoves(writes) => MainCancels(s, writes);
    case WorkerReports(progress) => WorkerCancels(s, progress);
    case _ => WorkerCancels(s, Progress(0, ""));
  }

  lemma {:induction false} AlwaysCancels(input: seq<Frame>, steps: seq<Step>)
    ensures CancelsOk(After(input, steps))
  {
    hide CancelsOk, Perform, Sound, Flow, Counted, Balanced, Journal;
    if steps == [] {
      NothingCancelled(input);
    } else {
      var pre := steps[..|steps| - 1];
      AlwaysCancels(input, pre);
      AlwaysInvariant(input, pre);
      StepCancels(After(input, pre), steps[|steps| - 1]);
    }
  }

  lemma {:induction false} NothingCancelled(input: seq<Frame>)
    ensures CancelsOk(Start(input))
  {
  }

  /**
   * While the session runs and its input has not failed, a call is cancelled only if a cancellation naming its id was read,
   * and never more than 128 cancellations wait for their call.
   */
  lemma {:induction false} CancelledWasNamed(input: seq<Frame>, steps: seq<Step>)
    ensures var s := After(input, steps);
      && |s.pending| <= 128
      && (s.active.Some? && s.active.value.cancelled && !s.readFailed && s.main != Returned(false) ==>
            Named(s.read, s.active.value.id))
  {
    AlwaysCancels(input, steps);
  }
}
