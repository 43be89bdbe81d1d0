/** The session loop as a state machine: a reader, a main loop and at most one worker, over two bounded queues. */
module SessionModel {
  import opened Wrappers

  const QUEUE_CAPACITY: nat := 128
  const MAX_PROGRESS_NOTIFICATIONS: nat := 100
  const MAX_PROGRESS_STAGE_CHARS: nat := 256
  const MAX_PENDING_CANCELLATIONS: nat := 128

  /** A JSON-RPC id; its serialized text serves as the request key. */
  datatype Id = NullId | Named(text: string)

  datatype Method = CancelledNotification | ToolsCall | OtherMethod

  /** What the loop looks at in a request. */
  datatype Request = Request(
    id: Id,
    isNotification: bool,
    kind: Method,
    namesPattern: bool,           // the tool name is the boolean pattern command
    argumentsValid: bool,         // its arguments pass the request schema
    reachesHost: bool,            // handling the call gets as far as locking the Host
    hasProgressToken: bool,
    cancels: Option<Id>)          // params.requestId
  {
    predicate IsPatternCall() { kind == ToolsCall && namesPattern }

    /** A request that must be answered. */
    predicate NeedsAnswer() { !isNotification && kind != CancelledNotification }
  }

  /** One nonempty line of input, as the reader classifies it. */
  datatype Frame = NotJson | NotARequest(id: Id) | Good(request: Request)

  datatype Progress = Progress(percent: int, stage: string)
  {
    function Shortened(): Progress {
      if |stage| <= MAX_PROGRESS_STAGE_CHARS then this else Progress(percent, stage[..MAX_PROGRESS_STAGE_CHARS])
    }
  }

  /** `call` numbers the pattern calls in the order they start; the program only has the id. */
  datatype RunEvent =
    | RequestEvent(request: Request)
    | ParseErrorEvent(errorId: Id)
    | EndOfInput
    | ProgressEvent(call: nat, id: Id, progress: Progress)
    | CompletedEvent(call: nat, id: Id)
  {
    predicate FromWorker() { ProgressEvent? || CompletedEvent? }
  }

  datatype ControlEvent = Cancellation(request: Request) | ReadError

  /** How the reader thread ended: it delivered the end of input, it delivered a failure, or it delivered neither. */
  datatype Ending = Ended | Failed | Dropped

  datatype Reader =
    | Reading
    | SendingEvent(event: RunEvent)
    | SendingControl(control: ControlEvent)
    | Finished(how: Ending)

  datatype Main =
    | Draining
    | Receiving
    | Handling(event: RunEvent)
    | Completing(call: nat, id: Id)
    | NeedsHost(request: Request)
    | HasHost(request: Request)
    | Returned(ok: bool)

  datatype Active = Active(call: nat, id: Id, cancelled: bool)

  datatype WorkerPc = WaitingForHost | Running | SendingProgress(progress: Progress) | SendingCompleted

  datatype Worker = Worker(call: nat, id: Id, hasToken: bool, pc: WorkerPc, emitted: nat, last: Option<Progress>)

  datatype Host = Free | HeldByMain | HeldByWorker

  /** What is written, in order, with the starts of pattern calls noted in between. */
  datatype Entry =
    | Replied(id: Id)
    | Rejected(id: Id)
    | Started(call: nat, id: Id)
    | Progressed(call: nat, id: Id)
    | Answered(call: nat, id: Id)

  datatype Response = AnswerTo(id: Id) | ErrorTo(id: Id)

  datatype State = State(
    input: seq<Frame>,            // not yet read
    read: seq<Frame>,             // read so far
    reader: Reader,
    events: seq<RunEvent>,
    control: seq<ControlEvent>,
    shutdown: bool,
    queuedIds: set<Id>,
    main: Main,
    active: Option<Active>,
    handled: nat,
    inputFinished: bool,
    readFailed: bool,
    pending: set<Id>,             // cancellations waiting for their call to start
    host: Host,
    worker: Option<Worker>,
    calls: nat,
    log: seq<Entry>,
    lost: multiset<Response>,     // responses dropped by a shutdown or a failed write
    lostRequests: nat)            // requests dropped likewise

  function Start(input: seq<Frame>): State {
    State(input, [], Reading, [], [], false, {}, Draining, None, 0, false, false, {}, Free, None, 0, [], multiset{}, 0)
  }

  // ---------- What is owed ----------

  function OwedFor(request: Request): multiset<Response> {
    if request.NeedsAnswer() then multiset{AnswerTo(request.id)} else multiset{}
  }

  function OwedForFrame(frame: Frame): multiset<Response> {
    match frame
    case NotJson => multiset{ErrorTo(NullId)}
    case NotARequest(id) => multiset{ErrorTo(id)}
    case Good(request) => OwedFor(request)
  }

  function OwedForEvent(event: RunEvent): multiset<Response> {
    match event
    case RequestEvent(request) => OwedFor(request)
    case ParseErrorEvent(id) => multiset{ErrorTo(id)}
    case _ => multiset{}
  }

  // ---------- The reader thread ----------

  function EventFor(frame: Frame): RunEvent {
    match frame
    case NotJson => ParseErrorEvent(NullId)
    case NotARequest(id) => ParseErrorEvent(id)
    case Good(request) => RequestEvent(request)
  }

  /** The ids of tool calls that must be answered are noted before they are queued. */
  function NoteQueued(queuedIds: set<Id>, frame: Frame): set<Id> {
    if frame.Good? && frame.request.kind == ToolsCall && !frame.request.isNotification
    then queuedIds + {frame.request.id} else queuedIds
  }

  /** Take one frame: route cancellations to the control queue, everything else to the event queue. */
  function ReadFrame(s: State): State
    requires s.reader == Reading && s.input != []
  {
    var frame := s.input[0];
    var t := s.(input := s.input[1..], read := s.read + [frame]);
    if frame.Good? && frame.request.kind == CancelledNotification then
      t.(reader := SendingControl(Cancellation(frame.request)))
    else
      t.(reader := SendingEvent(EventFor(frame)), queuedIds := NoteQueued(s.queuedIds, frame))
  }

  /** A send succeeds when there is room, fails when the queue is full during a shutdown, and otherwise waits. */
  function ReaderSend(s: State): State {
    match s.reader
    case SendingEvent(event) =>
      if |s.events| < QUEUE_CAPACITY then
        s.(events := s.events + [event], reader := if event.EndOfInput? then Finished(Ended) else Reading)
      else if s.shutdown then
        s.(reader := if event.EndOfInput? then Finished(Dropped) else SendingControl(ReadError),
           lost := s.lost + OwedForEvent(event), lostRequests := s.lostRequests + if event.RequestEvent? then 1 else 0)
      else s
    case SendingControl(control) =>
      if |s.control| < QUEUE_CAPACITY then
        s.(control := s.control + [control], reader := if control.ReadError? then Finished(Failed) else Reading)
      else if s.shutdown then
        s.(reader := Finished(Dropped), lostRequests := s.lostRequests + if control.Cancellation? then 1 else 0)
      else s
    case _ => s
  }

  // ---------- The main loop ----------

  function CancelActive(active: Option<Active>): Option<Active> {
    if active.Some? then Some(active.value.(cancelled := true)) else None
  }

  predicate Targets(request: Request, id: Id) {
    request.cancels == Some(id)
  }

  function Abort(s: State, lost: multiset<Response>, lostRequests: nat): State {
    s.(shutdown := true, active := CancelActive(s.active), main := Returned(false),
       lost := s.lost + lost, lostRequests := s.lostRequests + lostRequests)
  }

  /** The check at the bottom of the loop. */
  function Settle(s: State): State {
    if s.inputFinished && s.active.None? then s.(main := Returned(!s.readFailed)) else s.(main := Draining)
  }

  function TakeReadError(s: State): State {
    s.(active := CancelActive(s.active), readFailed := true, inputFinished := true)
  }

  /** Remember a cancellation of a request that was read and has not started, while there is room. */
  function NotePending(pending: set<Id>, queuedIds: set<Id>, request: Request): set<Id> {
    if |pending| < MAX_PENDING_CANCELLATIONS && request.cancels.Some? && request.cancels.value in queuedIds then
      pending + {request.cancels.value}
    else pending
  }

  function Without(ids: set<Id>, id: Id): set<Id> {
    ids - {id}
  }

  function TakeCancellation(s: State, request: Request): State {
    if s.active.Some? && Targets(request, s.active.value.id) then s.(handled := s.handled + 1, active := CancelActive(s.active))
    else s.(handled := s.handled + 1, pending := NotePending(s.pending, s.queuedIds, request))
  }

  function Drain(s: State): State
    requires s.main == Draining
  {
    if s.control != [] then
      var t := s.(control := s.control[1..]);
      match s.control[0]
      case Cancellation(request) => TakeCancellation(t, request)
      case ReadError => TakeReadError(t)
    else if s.inputFinished && s.active.None? then s.(main := Returned(!s.readFailed))
    else s.(main := Receiving)
  }

  function Receive(s: State): State
    requires s.main == Receiving
  {
    if s.events == [] then s.(main := Draining)
    else s.(events := s.events[1..], main := Handling(s.events[0]))
  }

  /** Write the answer to a request, if it needs one, and count it. */
  function Reply(s: State, request: Request, writes: bool): State {
    if request.isNotification then Settle(s.(handled := s.handled + 1))
    else if !writes then Abort(s, OwedFor(request), 1)
    else Settle(s.(handled := s.handled + 1, log := s.log + [Replied(request.id)]))
  }

  function StartCall(s: State, request: Request): State {
    var id := request.id;
    Settle(s.(
      queuedIds := Without(s.queuedIds, id),
      pending := Without(s.pending, id),
      worker := Some(Worker(s.calls, id, request.hasProgressToken, WaitingForHost, 0, None)),
      active := Some(Active(s.calls, id, id in s.pending)),
      calls := s.calls + 1,
      log := s.log + [Started(s.calls, id)],
      handled := s.handled + 1))
  }

  function HandlePattern(s: State, request: Request, writes: bool): State {
    if request.isNotification then s.(handled := s.handled + 1, main := Draining)
    else if !request.argumentsValid then
      if writes then s.(handled := s.handled + 1, main := Draining, log := s.log + [Replied(request.id)])
      else Abort(s, OwedFor(request), 1)
    else if s.active.Some? then Reply(s.(queuedIds := Without(s.queuedIds, request.id)), request, writes)
    else StartCall(s, request)
  }

  function HandleRequest(s: State, request: Request, writes: bool): State {
    if request.kind == CancelledNotification then
      Settle(s.(handled := s.handled + 1,
                active := if s.active.Some? && Targets(request, s.active.value.id) then CancelActive(s.active) else s.active))
    else if request.IsPatternCall() then HandlePattern(s, request, writes)
    else if s.active.Some? && request.kind == ToolsCall then Reply(s, request, writes)
    else
      var t := if request.kind == ToolsCall && !request.isNotification
               then s.(queuedIds := Without(s.queuedIds, request.id)) else s;
      if request.kind == ToolsCall && request.reachesHost then t.(main := NeedsHost(request))
      else Reply(t, request, writes)
  }

  function Handle(s: State, event: RunEvent, writes: bool): State {
    match event
    case RequestEvent(request) => HandleRequest(s, request, writes)
    case ParseErrorEvent(id) =>
      if writes then Settle(s.(log := s.log + [Rejected(id)])) else Abort(s, multiset{ErrorTo(id)}, 0)
    case EndOfInput =>
      if s.active.None? then s.(inputFinished := true, main := Returned(true)) else s.(inputFinished := true, main := Draining)
    case ProgressEvent(call, id, progress) =>
      if s.active.Some? && s.active.value.id == id then
        if writes then Settle(s.(log := s.log + [Progressed(call, id)])) else Abort(s, multiset{}, 0)
      else Settle(s)
    case CompletedEvent(call, id) =>
      if s.active.Some? && s.active.value.id == id then s.(main := Completing(call, id)) else Settle(s)
  }

  /** A completed call: first the control queue, then the answer. */
  function Complete(s: State, call: nat, id: Id, writes: bool): State {
    if s.control != [] then
      var t := s.(control := s.control[1..]);
      match s.control[0]
      case Cancellation(request) =>
        t.(handled := s.handled + 1, active := if Targets(request, id) then CancelActive(s.active) else s.active)
      case ReadError => TakeReadError(t)
    else if writes then Settle(s.(active := None, log := s.log + [Answered(call, id)]))
    else Abort(s.(active := None), multiset{AnswerTo(id)}, 0)
  }

  function MainStep(s: State, writes: bool): State {
    match s.main
    case Draining => Drain(s)
    case Receiving => Receive(s)
    case Handling(event) => Handle(s, event, writes)
    case Completing(call, id) => Complete(s, call, id, writes)
    case NeedsHost(request) => if s.host == Free then s.(host := HeldByMain, main := HasHost(request)) else s
    case HasHost(request) => Reply(s.(host := Free), request, writes)
    case Returned(_) => s
  }

  // ---------- The worker thread ----------

  function WorkerLock(s: State): State {
    if s.worker.Some? && s.worker.value.pc == WaitingForHost && s.host == Free then
      s.(host := HeldByWorker, worker := Some(s.worker.value.(pc := Running)))
    else s
  }

  function WorkerProgress(s: State, progress: Progress): State {
    if s.worker.None? || s.worker.value.pc != Running then s else
    var w := s.worker.value;
    if !w.hasToken || w.emitted >= MAX_PROGRESS_NOTIFICATIONS || w.last == Some(progress) then s else
    var short := progress.Shortened();
    s.(worker := Some(w.(pc := SendingProgress(short), emitted := w.emitted + 1, last := Some(short))))
  }

  function WorkerFinish(s: State): State {
    if s.worker.Some? && s.worker.value.pc == Running then
      s.(host := Free, worker := Some(s.worker.value.(pc := SendingCompleted)))
    else s
  }

  function WorkerSend(s: State): State {
    if s.worker.None? then s else
    var w := s.worker.value;
    match w.pc
    case SendingProgress(progress) =>
      if |s.events| < QUEUE_CAPACITY then
        s.(events := s.events + [ProgressEvent(w.call, w.id, progress)], worker := Some(w.(pc := Running)))
      else if s.shutdown then s.(worker := Some(w.(pc := Running))) else s
    case SendingCompleted =>
      if |s.events| < QUEUE_CAPACITY then s.(events := s.events + [CompletedEvent(w.call, w.id)], worker := None)
      else if s.shutdown then s.(worker := None) else s
    case _ => s
  }

  // ---------- Interleavings ----------

  /** One move of one thread, with the choices the environment makes. */
  datatype Step =
    | ReaderReads
    | ReaderMeetsEnd
    | ReaderMeetsError
    | ReaderSeesShutdown
    | ReaderSends
    | MainMoves(writes: bool)
    | MainTimesOut
    | WorkerLocks
    | WorkerReports(progress: Progress)
    | WorkerFinishes
    | WorkerSends
    | OutsideShutdown

  /** A step that is not enabled changes nothing. */
  function Perform(s: State, step: Step): State {
    match step
    case ReaderReads => if s.reader == Reading && s.input != [] then ReadFrame(s) else s
    case ReaderMeetsEnd => if s.reader == Reading && s.input == [] then s.(reader := SendingEvent(EndOfInput)) else s
    case ReaderMeetsError => if s.reader == Reading then s.(reader := SendingControl(ReadError)) else s
    case ReaderSeesShutdown => if s.reader == Reading && s.shutdown then s.(reader := Finished(Dropped)) else s
    case ReaderSends => ReaderSend(s)
    case MainMoves(writes) => MainStep(s, writes)
    case MainTimesOut => if s.main == Receiving then s.(main := Draining) else s
    case WorkerLocks => WorkerLock(s)
    case WorkerReports(progress) => WorkerProgress(s, progress)
    case WorkerFinishes => WorkerFinish(s)
    case WorkerSends => WorkerSend(s)
    case OutsideShutdown => s.(shutdown := true)
  }

  /** The state after any list of moves, in any interleaving. */
  function After(input: seq<Frame>, steps: seq<Step>): State {
    if steps == [] then Start(input) else
    Perform(After(input, steps[..|steps| - 1]), steps[|steps| - 1])
  }
}
