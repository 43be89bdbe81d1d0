/** What cancels a call: one law over every interleaving, in both directions. */
module SessionCancellation {
  import opened Wrappers
  import opened SessionModel
  import opened SessionCalls
  import opened SessionGuarantees

  // ---------- What happens at one step ----------

  /** The main loop takes the front of the control queue. */
  ghost predicate TakesControl(s: State, step: Step) {
    step.MainMoves? && (s.main.Draining? || s.main.Completing?) && s.control != []
  }

  /** It is a cancellation that names `id`. */
  ghost predicate TakesCancelOf(s: State, step: Step, id: Id) {
    TakesControl(s, step) && s.control[0].Cancellation? && s.control[0].request.cancels == Some(id)
  }

  /** The active call is named by a cancellation taken now, or the input fails now, or a write does. */
  ghost predicate Strikes(s: State, step: Step) {
    s.active.Some? &&
    (|| (TakesControl(s, step) && s.control[0].ReadError?)
     || TakesCancelOf(s, step, s.active.value.id)
     || (step == MainMoves(false) && s.main != Returned(false) && Perform(s, step).main == Returned(false)))
  }

  /** Between calls' completions, a cancellation names a request that was read and not begun, and fewer than 128 wait. */
  ghost predicate Notes(s: State, step: Step, id: Id) {
    && TakesCancelOf(s, step, id) && s.main.Draining? && !(s.active.Some? && s.active.value.id == id)
    && id in s.queuedIds && |s.pending| < 128
  }

  ghost predicate HandlesToolCall(s: State, step: Step, id: Id) {
    step.MainMoves? && s.main.Handling? && s.main.event.RequestEvent?
    && s.main.event.request.kind == ToolsCall && !s.main.event.request.isNotification && s.main.event.request.id == id
  }

  /** A valid pattern call is handled while no call is active. */
  ghost predicate Starts(s: State, step: Step, id: Id) {
    HandlesToolCall(s, step, id) && s.main.event.request.namesPattern && s.main.event.request.argumentsValid && s.active.None?
  }

  /** A tool call that must be answered is read. */
  ghost predicate Reads(s: State, step: Step, id: Id) {
    step.ReaderReads? && s.reader.Reading? && s.input != [] && s.input[0].Good?
    && s.input[0].request.kind == ToolsCall && !s.input[0].request.isNotification && s.input[0].request.id == id
  }

  /** It is begun: a valid pattern call always, another tool call unless a call is active. */
  ghost predicate Begins(s: State, step: Step, id: Id) {
    HandlesToolCall(s, step, id)
    && if s.main.event.request.namesPattern then s.main.event.request.argumentsValid else s.active.None?
  }

  // ---------- Steps ----------

  ghost predicate NotCancelling(event: RunEvent) {
    event.RequestEvent? ==> event.request.kind != CancelledNotification
  }

  /** Cancellations never travel through the event queue. */
  ghost predicate Routed(s: State) {
    && (forall e :: e in s.events ==> NotCancelling(e))
    && (s.reader.SendingEvent? ==> NotCancelling(s.reader.event))
    && (s.main.Handling? ==> NotCancelling(s.main.event))
  }

  lemma {:induction false} SettleOnlyMain(s: State)
    ensures Settle(s) == s.(main := Settle(s).main) && !Settle(s).main.Handling?
    ensures s.active.Some? ==> Settle(s).main == Draining
  {
  }

  lemma {:induction false} ReplyOnly(s: State, request: Request, writes: bool)
    ensures var t := Reply(s, request, writes);
      && t.calls == s.calls && t.pending == s.pending && t.queuedIds == s.queuedIds && !t.main.Handling?
      && t.events == s.events && t.reader == s.reader
      && (if t.main == Returned(false) && !request.isNotification && !writes then
            t.active == (if s.active.Some? then Some(s.active.value.(cancelled := true)) else None)
          else t.active == s.active)
      && (s.active.Some? && (request.isNotification || writes) ==> t.main == Draining)
      && (!request.isNotification && !writes ==> t.main == Returned(false))
  {
    hide Settle;
    SettleOnlyMain(s.(handled := s.handled + 1));
    SettleOnlyMain(s.(handled := s.handled + 1, log := s.log + [Replied(request.id)]));
  }

  /** What a step does to the active call, the calls started, the waiting cancellations and the queued ids. */
  ghost predicate StepLaw(s: State, step: Step, t: State) {
    && (s.active.Some? && t.active.Some? ==>
          && t.active.value.call == s.active.value.call && t.active.value.id == s.active.value.id && t.calls == s.calls
          && (t.active.value.cancelled <==> s.active.value.cancelled || Strikes(s, step)))
    && (s.active.None? && t.active.Some? ==>
          exists id :: Starts(s, step, id) && t.active == Some(Active(s.calls, id, id in s.pending)))
    && (forall id :: Starts(s, step, id) ==> t.active == Some(Active(s.calls, id, id in s.pending)))
    && t.calls == (if s.active.None? && t.active.Some? then s.calls + 1 else s.calls)
    && (forall id :: id in t.pending <==> Notes(s, step, id) || (id in s.pending && !Starts(s, step, id)))
    && (forall id :: id in t.queuedIds <==> Reads(s, step, id) || (id in s.queuedIds && !Begins(s, step, id)))
  }

  lemma {:induction false} PatternLaw(s: State, request: Request, writes: bool)
    requires s.main == Handling(RequestEvent(request)) && request.IsPatternCall()
    ensures StepLaw(s, MainMoves(writes), Perform(s, MainMoves(writes)))
  {
    hide StepLaw, HandlePattern;
    assert Perform(s, MainMoves(writes)) == HandlePattern(s, request, writes) by { PatternIsHandled(s, request, writes); }
    if s.active.None? && !request.isNotification && request.argumentsValid {
      StartLaw(s, request, writes);
    } else {
      RefusedPatternLaw(s, request, writes);
    }
  }

  lemma {:induction false} PatternIsHandled(s: State, request: Request, writes: bool)
    requires s.main == Handling(RequestEvent(request)) && request.IsPatternCall()
    ensures Perform(s, MainMoves(writes)) == HandlePattern(s, request, writes)
  {
    hide HandlePattern;
  }

  lemma {:induction false} StartLaw(s: State, request: Request, writes: bool)
    requires s.main == Handling(RequestEvent(request)) && request.IsPatternCall()
    requires s.active.None? && !request.isNotification && request.argumentsValid
    ensures StepLaw(s, MainMoves(writes), HandlePattern(s, request, writes))
  {
    hide Reply, Settle, Strikes, Perform;
    SettleOnlyMain(s.(
      queuedIds := Without(s.queuedIds, request.id), pending := Without(s.pending, request.id),
      worker := Some(Worker(s.calls, request.id, request.hasProgressToken, WaitingForHost, 0, None)),
      active := Some(Active(s.calls, request.id, request.id in s.pending)), calls := s.calls + 1,
      log := s.log + [Started(s.calls, request.id)], handled := s.handled + 1));
  }

  lemma {:induction false} RefusedPatternLaw(s: State, request: Request, writes: bool)
    requires s.main == Handling(RequestEvent(request)) && request.IsPatternCall()
    requires s.active.Some? || request.isNotification || !request.argumentsValid
    requires Perform(s, MainMoves(writes)) == HandlePattern(s, request, writes)
    ensures StepLaw(s, MainMoves(writes), HandlePattern(s, request, writes))
  {
    hide Reply, StepLaw;
    var step, t := MainMoves(writes), HandlePattern(s, request, writes);
    ReplyOnly(s.(queuedIds := Without(s.queuedIds, request.id)), request, writes);
    RefusedEffect(s, request, writes);
    hide Perform, HandlePattern;
    if t.active == s.active && (s.active.Some? ==> t.main != Returned(false)) {
      QuietLaw(s, step, t);
    } else if s.active.Some? {
      StruckLaw(s, step, t);
    } else {
      QuietLaw(s, step, t);
    }
  }

  lemma {:induction false} RefusedEffect(s: State, request: Request, writes: bool)
    requires request.IsPatternCall() && (s.active.Some? || request.isNotification || !request.argumentsValid)
    ensures var t := HandlePattern(s, request, writes);
      && t.calls == s.calls && t.pending == s.pending
      && t.queuedIds == (if !request.isNotification && request.argumentsValid then s.queuedIds - {request.id} else s.queuedIds)
      && (s.active.None? ==> t.active.None?)
      && (s.active.Some? && t.main == Returned(false) ==> !writes && t.active == Some(s.active.value.(cancelled := true)))
      && (s.active.Some? && t.main != Returned(false) ==> t.active == s.active)
  {
    hide Reply;
    ReplyOnly(s.(queuedIds := Without(s.queuedIds, request.id)), request, writes);
  }

  lemma {:induction false} RequestLaw(s: State, request: Request, writes: bool)
    requires s.main == Handling(RequestEvent(request)) && request.kind != CancelledNotification
    ensures StepLaw(s, MainMoves(writes), Perform(s, MainMoves(writes)))
  {
    hide Reply, Settle, HandlePattern;
    if request.IsPatternCall() {
      PatternLaw(s, request, writes);
    } else {
      ReplyOnly(s, request, writes);
      ReplyOnly(s.(queuedIds := Without(s.queuedIds, request.id)), request, writes);
    }
  }

  /** A step that touches none of these. */
  lemma {:induction false} QuietLaw(s: State, step: Step, t: State)
    requires t.active == s.active && t.calls == s.calls && t.pending == s.pending
    requires s.active.Some? ==> !Strikes(s, step)
    requires forall id :: !Starts(s, step, id) && !Notes(s, step, id)
    requires forall id :: id in t.queuedIds <==> Reads(s, step, id) || (id in s.queuedIds && !Begins(s, step, id))
    ensures StepLaw(s, step, t)
  {
    hide Strikes, Starts, Notes, Reads, Begins;
  }

  /** An event that starts nothing: if a write of it fails the active call is struck, otherwise nothing happens to it. */
  lemma {:induction false} QuietEvent(s: State, writes: bool, t: State)
    requires s.main.Handling? && !s.main.event.RequestEvent? && t == Perform(s, MainMoves(writes))
    requires t.calls == s.calls && t.pending == s.pending && t.queuedIds == s.queuedIds
    requires s.active.Some? && t.main == Returned(false) && !writes ==> t.active == Some(s.active.value.(cancelled := true))
    requires s.active.Some? && (t.main != Returned(false) || writes) ==> t.active == s.active
    requires s.active.None? ==> t.active.None?
    ensures StepLaw(s, MainMoves(writes), t)
  {
    hide Perform;
    if s.active.Some? && !(t.main == Returned(false) && !writes) { QuietLaw(s, MainMoves(writes), t); }
  }

  lemma {:induction false} EventLaw(s: State, writes: bool)
    requires s.main.Handling? && !s.main.event.RequestEvent?
    ensures StepLaw(s, MainMoves(writes), Perform(s, MainMoves(writes)))
  {
    hide Settle, StepLaw;
    SettleOnlyMain(s);
    match s.main.event {
      case ParseErrorEvent(id) => SettleOnlyMain(s.(log := s.log + [Rejected(id)]));
      case ProgressEvent(call, id, _) => SettleOnlyMain(s.(log := s.log + [Progressed(call, id)]));
      case _ =>
    }
    QuietEvent(s, writes, Perform(s, MainMoves(writes)));
  }

  lemma {:induction false} DrainLaw(s: State, writes: bool)
    requires s.main == Draining
    ensures StepLaw(s, MainMoves(writes), Perform(s, MainMoves(writes)))
  {
    hide StepLaw;
    var t := Perform(s, MainMoves(writes));
    if s.control == [] {
      QuietLaw(s, MainMoves(writes), t);
    } else if s.control[0].ReadError? {
      DrainErrorLaw(s, writes);
    } else {
      DrainCancellationLaw(s, writes, s.control[0].request);
    }
  }

  lemma {:induction false} DrainErrorLaw(s: State, writes: bool)
    requires s.main == Draining && s.control != [] && s.control[0].ReadError?
    ensures StepLaw(s, MainMoves(writes), Perform(s, MainMoves(writes)))
  {
  }

  lemma {:induction false} DrainCancellationLaw(s: State, writes: bool, request: Request)
    requires s.main == Draining && s.control != [] && s.control[0] == Cancellation(request)
    ensures StepLaw(s, MainMoves(writes), Perform(s, MainMoves(writes)))
  {
    var t := Perform(s, MainMoves(writes));
    assert t == TakeCancellation(s.(control := s.control[1..]), request);
    if s.active.Some? && request.cancels == Some(s.active.value.id) {
      hide StepLaw;
      DirectLaw(s, writes, request);
    } else {
      NotedLaw(s, writes, request);
    }
  }

  lemma {:induction false} DirectLaw(s: State, writes: bool, request: Request)
    requires s.main == Draining && s.control != [] && s.control[0] == Cancellation(request)
    requires s.active.Some? && request.cancels == Some(s.active.value.id)
    ensures StepLaw(s, MainMoves(writes), Perform(s, MainMoves(writes)))
  {
    hide NotePending;
  }

  lemma {:induction false} NotedLaw(s: State, writes: bool, request: Request)
    requires s.main == Draining && s.control != [] && s.control[0] == Cancellation(request)
    requires !(s.active.Some? && request.cancels == Some(s.active.value.id))
    ensures StepLaw(s, MainMoves(writes), Perform(s, MainMoves(writes)))
  {
  }

  lemma {:induction false} CompleteLaw(s: State, writes: bool)
    requires s.main.Completing? && s.active.Some? && s.active.value.id == s.main.id
    ensures StepLaw(s, MainMoves(writes), Perform(s, MainMoves(writes)))
  {
    hide StepLaw;
    if s.control == [] {
      AnswerLaw(s, writes);
    } else {
      CompletingControlLaw(s, writes);
    }
  }

  lemma {:induction false} AnswerLaw(s: State, writes: bool)
    requires s.main.Completing? && s.active.Some? && s.control == []
    ensures StepLaw(s, MainMoves(writes), Perform(s, MainMoves(writes)))
  {
    hide Settle, Strikes;
    SettleOnlyMain(s.(active := None, log := s.log + [Answered(s.main.call, s.main.id)]));
  }

  lemma {:induction false} CompletingControlLaw(s: State, writes: bool)
    requires s.main.Completing? && s.active.Some? && s.active.value.id == s.main.id && s.control != []
    ensures StepLaw(s, MainMoves(writes), Perform(s, MainMoves(writes)))
  {
    hide StepLaw;
    var t := Perform(s, MainMoves(writes));
    if s.control[0].Cancellation? && s.control[0].request.cancels != Some(s.active.value.id) {
      QuietLaw(s, MainMoves(writes), t);
    } else {
      StruckLaw(s, MainMoves(writes), t);
    }
  }

  /** A step that only strikes the active call. */
  lemma {:induction false} StruckLaw(s: State, step: Step, t: State)
    requires s.active.Some? && Strikes(s, step) && t.active == Some(s.active.value.(cancelled := true))
    requires t.calls == s.calls && t.pending == s.pending
    requires forall id :: !Starts(s, step, id) && !Notes(s, step, id)
    requires forall id :: id in t.queuedIds <==> Reads(s, step, id) || (id in s.queuedIds && !Begins(s, step, id))
    ensures StepLaw(s, step, t)
  {
    hide Strikes, Starts, Notes, Reads, Begins;
  }

  lemma {:induction false} HostLaw(s: State, writes: bool)
    requires (s.main.NeedsHost? || s.main.HasHost?) && s.active.None?
    ensures StepLaw(s, MainMoves(writes), Perform(s, MainMoves(writes)))
  {
    hide Reply;
    if s.main.HasHost? { ReplyOnly(s.(host := Free), s.main.request, writes); }
  }

  lemma {:induction false} MainLaw(s: State, writes: bool)
    requires Sound(s) && Routed(s)
    ensures StepLaw(s, MainMoves(writes), Perform(s, MainMoves(writes)))
  {
    hide StepLaw, Perform, CompletedLast, NoneFromWorker;
    match s.main {
      case Draining => DrainLaw(s, writes);
      case Receiving => RestLaw(s, writes);
      case Handling(event) => if event.RequestEvent? { RequestLaw(s, event.request, writes); } else { EventLaw(s, writes); }
      case Completing(_, _) => CompleteLaw(s, writes);
      case NeedsHost(_) => HostLaw(s, writes);
      case HasHost(_) => HostLaw(s, writes);
      case Returned(_) => RestLaw(s, writes);
    }
  }

  lemma {:induction false} RestLaw(s: State, writes: bool)
    requires s.main.Receiving? || s.main.Returned?
    ensures StepLaw(s, MainMoves(writes), Perform(s, MainMoves(writes)))
  {
  }

  lemma {:induction false} OtherLaw(s: State, step: Step)
    requires !step.MainMoves?
    ensures StepLaw(s, step, Perform(s, step))
  {
    hide StepLaw, Progress.Shortened, OwedForEvent;
    if step.ReaderReads? {
      ReadLaw(s);
    } else {
      ElsewhereSame(s, step);
      hide Perform;
      QuietLaw(s, step, Perform(s, step));
    }
  }

  ghost predicate SameCalls(s: State, t: State) {
    t.active == s.active && t.calls == s.calls && t.pending == s.pending && t.queuedIds == s.queuedIds
  }

  lemma {:induction false} ElsewhereSame(s: State, step: Step)
    requires !step.MainMoves? && !step.ReaderReads?
    ensures SameCalls(s, Perform(s, step))
  {
    hide ReaderSend, WorkerSend, WorkerLock, WorkerFinish, WorkerProgress;
    SendSame(s);
    if step.WorkerReports? { WorkerSame(s, step.progress); } else { WorkerSame(s, Progress(0, "")); }
  }

  lemma {:induction false} SendSame(s: State)
    ensures SameCalls(s, ReaderSend(s))
  {
    hide OwedForEvent;
  }

  lemma {:induction false} WorkerSame(s: State, progress: Progress)
    ensures SameCalls(s, WorkerSend(s)) && SameCalls(s, WorkerLock(s)) && SameCalls(s, WorkerFinish(s))
    ensures SameCalls(s, WorkerProgress(s, progress))
  {
    hide Progress.Shortened;
  }

  lemma {:induction false} ReadLaw(s: State)
    ensures StepLaw(s, ReaderReads, Perform(s, ReaderReads))
  {
    hide StepLaw;
    QuietLaw(s, ReaderReads, Perform(s, ReaderReads));
  }

  lemma {:induction false} EveryStep(s: State, step: Step)
    requires Sound(s) && Routed(s)
    ensures StepLaw(s, step, Perform(s, step))
  {
    hide StepLaw, Perform, Sound, Routed;
    if step.MainMoves? { MainLaw(s, step.writes); } else { OtherLaw(s, step); }
  }

  // ---------- Routing ----------

  lemma {:induction false} AlwaysRouted(input: seq<Frame>, steps: seq<Step>)
    ensures Routed(After(input, steps))
  {
    hide Perform, Routed;
    if steps == [] {
      assert Routed(Start(input)) by { StartRouted(input); }
    } else {
      AlwaysRouted(input, steps[..|steps| - 1]);
      StepRouted(After(input, steps[..|steps| - 1]), steps[|steps| - 1]);
    }
  }

  lemma {:induction false} StartRouted(input: seq<Frame>)
    ensures Routed(Start(input))
  {
  }

  /** The main loop only takes from the event queue, and handles only what it took. */
  ghost predicate OnlyTakes(s: State, t: State) {
    t.reader == s.reader && (forall e :: e in t.events ==> e in s.events)
    && (t.main.Handling? ==> t.main == s.main || (s.main.Receiving? && t.main.event in s.events))
  }

  lemma {:induction false} PatternTakes(s: State, request: Request, writes: bool)
    ensures OnlyTakes(s, HandlePattern(s, request, writes))
  {
    hide Reply, Settle, Without;
    ReplyOnly(s.(queuedIds := Without(s.queuedIds, request.id)), request, writes);
    SettleOnlyMain(s.(
      queuedIds := Without(s.queuedIds, request.id), pending := Without(s.pending, request.id),
      worker := Some(Worker(s.calls, request.id, request.hasProgressToken, WaitingForHost, 0, None)),
      active := Some(Active(s.calls, request.id, request.id in s.pending)), calls := s.calls + 1,
      log := s.log + [Started(s.calls, request.id)], handled := s.handled + 1));
  }

  lemma {:induction false} RequestTakes(s: State, request: Request, writes: bool)
    ensures OnlyTakes(s, HandleRequest(s, request, writes))
  {
    hide Reply, Settle, HandlePattern, CancelActive, Without;
    if request.kind == CancelledNotification {
      SettleOnlyMain(s.(handled := s.handled + 1,
        active := if s.active.Some? && Targets(request, s.active.value.id) then CancelActive(s.active) else s.active));
    } else if request.IsPatternCall() {
      PatternTakes(s, request, writes);
    } else {
      ReplyOnly(s, request, writes);
      ReplyOnly(s.(queuedIds := Without(s.queuedIds, request.id)), request, writes);
    }
  }

  lemma {:induction false} HandleTakes(s: State, event: RunEvent, writes: bool)
    requires s.main == Handling(event)
    ensures OnlyTakes(s, Handle(s, event, writes))
  {
    hide Settle, HandleRequest, CancelActive;
    SettleOnlyMain(s);
    match event
    case RequestEvent(request) => RequestTakes(s, request, writes);
    case ParseErrorEvent(id) => SettleOnlyMain(s.(log := s.log + [Rejected(id)]));
    case ProgressEvent(call, id, _) => SettleOnlyMain(s.(log := s.log + [Progressed(call, id)]));
    case _ =>
  }

  lemma {:induction false} MainTakes(s: State, writes: bool)
    ensures OnlyTakes(s, MainStep(s, writes))
  {
    hide Reply, Settle, Handle, CancelActive, NotePending;
    match s.main {
      case Handling(event) => HandleTakes(s, event, writes);
      case HasHost(request) => ReplyOnly(s.(host := Free), request, writes);
      case Completing(call, id) => SettleOnlyMain(s.(active := None, log := s.log + [Answered(call, id)]));
      case _ =>
    }
  }

  lemma {:induction false} StepRouted(s: State, step: Step)
    requires Routed(s)
    ensures Routed(Perform(s, step))
  {
    if step.MainMoves? {
      hide MainStep;
      MainTakes(s, step.writes);
    } else if step.ReaderSends? {
      SendRouted(s);
    } else {
      hide MainStep, ReaderSend, Progress.Shortened, NoteQueued;
      if step.WorkerSends? { WorkerSendRouted(s); }
    }
  }

  lemma {:induction false} SendRouted(s: State)
    requires Routed(s)
    ensures Routed(ReaderSend(s))
  {
    hide OwedForEvent;
  }

  lemma {:induction false} WorkerSendRouted(s: State)
    requires Routed(s)
    ensures Routed(WorkerSend(s))
  {
  }

  // ---------- Histories ----------

  /** The state before the step at position `i`. */
  ghost function At(input: seq<Frame>, steps: seq<Step>, i: nat): State
    requires i <= |steps|
  {
    After(input, steps[..i])
  }

  ghost predicate NotesAt(input: seq<Frame>, steps: seq<Step>, i: nat, id: Id) {
    i < |steps| && Notes(At(input, steps, i), steps[i], id)
  }

  ghost predicate StartsAt(input: seq<Frame>, steps: seq<Step>, i: nat, id: Id) {
    i < |steps| && Starts(At(input, steps, i), steps[i], id)
  }

  ghost predicate ReadsAt(input: seq<Frame>, steps: seq<Step>, i: nat, id: Id) {
    i < |steps| && Reads(At(input, steps, i), steps[i], id)
  }

  ghost predicate BeginsAt(input: seq<Frame>, steps: seq<Step>, i: nat, id: Id) {
    i < |steps| && Begins(At(input, steps, i), steps[i], id)
  }

  /** The call with this number is struck while it is active. */
  ghost predicate StruckAt(input: seq<Frame>, steps: seq<Step>, i: nat, call: nat) {
    i < |steps| && At(input, steps, i).active.Some? && At(input, steps, i).active.value.call == call
    && Strikes(At(input, steps, i), steps[i])
  }

  ghost predicate NoStartBetween(input: seq<Frame>, steps: seq<Step>, i: nat, m: nat, id: Id) {
    forall k :: i < k < m ==> !StartsAt(input, steps, k, id)
  }

  ghost predicate NoBeginBetween(input: seq<Frame>, steps: seq<Step>, i: nat, m: nat, id: Id) {
    forall k :: i < k < m ==> !BeginsAt(input, steps, k, id)
  }

  /** Noted at `i`, and no call with that id has started up to `m`. */
  ghost predicate NotedSince(input: seq<Frame>, steps: seq<Step>, i: nat, m: nat, id: Id) {
    i < m && NotesAt(input, steps, i, id) && NoStartBetween(input, steps, i, m, id)
  }

  ghost predicate ReadSince(input: seq<Frame>, steps: seq<Step>, i: nat, m: nat, id: Id) {
    i < m && ReadsAt(input, steps, i, id) && NoBeginBetween(input, steps, i, m, id)
  }

  /** The start of the call with this number found its cancellation waiting. */
  ghost predicate StartedNoted(input: seq<Frame>, steps: seq<Step>, i: nat, m: nat, call: nat, id: Id) {
    && StartsAt(input, steps, m, id) && At(input, steps, m).calls == call && NotedSince(input, steps, i, m, id)
  }

  lemma {:induction false} Earlier(input: seq<Frame>, steps: seq<Step>, n: nat, i: nat)
    requires i < n <= |steps|
    ensures At(input, steps, i) == At(input, steps[..n], i) && steps[i] == steps[..n][i]
  {
    assert steps[..n][..i] == steps[..i];
  }

  lemma {:induction false} LastPerformed(input: seq<Frame>, steps: seq<Step>)
    requires steps != []
    ensures var n := |steps| - 1;
      At(input, steps, n) == After(input, steps[..n]) && After(input, steps) == Perform(At(input, steps, n), steps[n])
  {
  }

  lemma {:induction false} LastLaw(input: seq<Frame>, steps: seq<Step>)
    requires steps != []
    ensures var n := |steps| - 1; StepLaw(At(input, steps, n), steps[n], After(input, steps))
  {
    hide StepLaw, Perform, Invariant;
    var n := |steps| - 1;
    LastPerformed(input, steps);
    AlwaysInvariant(input, steps[..n]);
    AlwaysRouted(input, steps[..n]);
    assert Sound(After(input, steps[..n])) by { InvariantSound(After(input, steps[..n])); }
    EveryStep(At(input, steps, n), steps[n]);
  }

  lemma {:induction false} InvariantSound(s: State)
    requires Invariant(s)
    ensures Sound(s)
  {
  }

  /** A cancellation waits exactly since it was noted, until a call with its id starts. */
  lemma {:induction false} PendingLaw(input: seq<Frame>, steps: seq<Step>, id: Id)
    ensures id in After(input, steps).pending <==> exists i :: NotedSince(input, steps, i, |steps|, id)
  {
    hide Perform, Notes, Starts;
    if steps != [] {
      var n := |steps| - 1;
      var pre := steps[..n];
      PendingLaw(input, pre, id);
      LastLaw(input, steps);
      LastPerformed(input, steps);
      assert id in After(input, steps).pending <==>
        NotesAt(input, steps, n, id) || (id in After(input, pre).pending && !StartsAt(input, steps, n, id));
      forall i | 0 <= i < n
        ensures NotedSince(input, pre, i, n, id) && !StartsAt(input, steps, n, id) <==> NotedSince(input, steps, i, n + 1, id)
      {
        NotedLater(input, steps, i, id);
      }
      if NotesAt(input, steps, n, id) { assert NotedSince(input, steps, n, n + 1, id); }
      var all := |steps|;
      if i :| NotedSince(input, steps, i, all, id) { assert i == n || NotedSince(input, pre, i, n, id); }
      if i :| NotedSince(input, pre, i, n, id) && !StartsAt(input, steps, n, id) { assert NotedSince(input, steps, i, n + 1, id); }
    }
  }

  lemma {:induction false} NotedLater(input: seq<Frame>, steps: seq<Step>, i: nat, id: Id)
    requires i < |steps| - 1
    ensures var n := |steps| - 1;
      NotedSince(input, steps[..n], i, n, id) && !StartsAt(input, steps, n, id) <==> NotedSince(input, steps, i, n + 1, id)
  {
    hide Notes, Starts, At;
    var n := |steps| - 1;
    forall k | 0 <= k < n
      ensures NotesAt(input, steps, k, id) == NotesAt(input, steps[..n], k, id)
      ensures StartsAt(input, steps, k, id) == StartsAt(input, steps[..n], k, id)
    {
      Earlier(input, steps, n, k);
    }
  }

  /** An id is queued exactly since a tool call with it was read, until one is begun. */
  lemma {:induction false} QueuedLaw(input: seq<Frame>, steps: seq<Step>, id: Id)
    ensures id in After(input, steps).queuedIds <==> exists i :: ReadSince(input, steps, i, |steps|, id)
  {
    hide Perform, Reads, Begins;
    if steps != [] {
      var n := |steps| - 1;
      var pre := steps[..n];
      QueuedLaw(input, pre, id);
      LastLaw(input, steps);
      LastPerformed(input, steps);
      assert id in After(input, steps).queuedIds <==>
        ReadsAt(input, steps, n, id) || (id in After(input, pre).queuedIds && !BeginsAt(input, steps, n, id));
      forall i | 0 <= i < n
        ensures ReadSince(input, pre, i, n, id) && !BeginsAt(input, steps, n, id) <==> ReadSince(input, steps, i, n + 1, id)
      {
        ReadLater(input, steps, i, id);
      }
      if ReadsAt(input, steps, n, id) { assert ReadSince(input, steps, n, n + 1, id); }
      var all := |steps|;
      if i :| ReadSince(input, steps, i, all, id) { assert i == n || ReadSince(input, pre, i, n, id); }
      if i :| ReadSince(input, pre, i, n, id) && !BeginsAt(input, steps, n, id) { assert ReadSince(input, steps, i, n + 1, id); }
    }
  }

  lemma {:induction false} ReadLater(input: seq<Frame>, steps: seq<Step>, i: nat, id: Id)
    requires i < |steps| - 1
    ensures var n := |steps| - 1;
      ReadSince(input, steps[..n], i, n, id) && !BeginsAt(input, steps, n, id) <==> ReadSince(input, steps, i, n + 1, id)
  {
    hide Reads, Begins, At;
    var n := |steps| - 1;
    forall k | 0 <= k < n
      ensures ReadsAt(input, steps, k, id) == ReadsAt(input, steps[..n], k, id)
      ensures BeginsAt(input, steps, k, id) == BeginsAt(input, steps[..n], k, id)
    {
      Earlier(input, steps, n, k);
    }
  }

  /** Calls are numbered upwards, and each start takes the next number. */
  lemma {:induction false} CallsGrow(input: seq<Frame>, steps: seq<Step>, i: nat, id: Id)
    requires i < |steps|
    ensures At(input, steps, i).calls <= After(input, steps).calls
    ensures StartsAt(input, steps, i, id) ==> At(input, steps, i).calls < After(input, steps).calls
  {
    hide Perform, Starts, Notes, Reads, Begins, Strikes;
    var n := |steps| - 1;
    LastLaw(input, steps);
    LastPerformed(input, steps);
    StartsNone(At(input, steps, n), steps[n], id);
    if i < n {
      CallsGrow(input, steps[..n], i, id);
      Earlier(input, steps, n, i);
    }
  }

  lemma {:induction false} StartsNone(s: State, step: Step, id: Id)
    ensures Starts(s, step, id) ==> s.active.None?
  {
  }

  /**
   * The law. In every interleaving an active call is cancelled exactly when, while it was active, a cancellation naming
   * it was taken or the input or a write failed, or when its cancellation was noted while its id was queued and no other
   * call with that id started in between.
   */
  lemma {:induction false} CancelledIff(input: seq<Frame>, steps: seq<Step>)
    ensures var s := After(input, steps);
      s.active.Some? ==>
        (s.active.value.cancelled <==>
          || (exists i :: StruckAt(input, steps, i, s.active.value.call))
          || (exists i, m :: StartedNoted(input, steps, i, m, s.active.value.call, s.active.value.id)))
  {
    hide Perform, Starts, Notes, Reads, Begins, Strikes, StepLaw;
    if steps != [] && After(input, steps).active.Some? {
      var n := |steps| - 1;
      var s, t := At(input, steps, n), After(input, steps);
      LastLaw(input, steps);
      LastPerformed(input, steps);
      if s.active.Some? {
        CancelledIff(input, steps[..n]);
        ContinuedLaw(input, steps);
      } else {
        StartedLaw(input, steps);
      }
    }
  }

  lemma {:induction false} ContinuedLaw(input: seq<Frame>, steps: seq<Step>)
    requires steps != []
    requires var n := |steps| - 1; After(input, steps[..n]).active.Some? && After(input, steps).active.Some?
    ensures var n := |steps| - 1;
      var s, t := After(input, steps[..n]), After(input, steps);
      var call, id := t.active.value.call, t.active.value.id;
      && s.active.value.call == call && s.active.value.id == id
      && (t.active.value.cancelled <==> s.active.value.cancelled || Strikes(s, steps[n]))
      && ((exists i :: StruckAt(input, steps, i, call)) <==>
            (exists i :: StruckAt(input, steps[..n], i, call)) || Strikes(s, steps[n]))
      && ((exists i, m :: StartedNoted(input, steps, i, m, call, id)) <==>
            (exists i, m :: StartedNoted(input, steps[..n], i, m, call, id)))
  {
    hide Perform, Starts, Notes, Reads, Begins, Strikes, At;
    var n := |steps| - 1;
    LastLaw(input, steps);
    LastPerformed(input, steps);
    var call, id := After(input, steps).active.value.call, After(input, steps).active.value.id;
    StartsNone(After(input, steps[..n]), steps[n], id);
    forall i | 0 <= i < n ensures StruckAt(input, steps, i, call) <==> StruckAt(input, steps[..n], i, call) {
      Earlier(input, steps, n, i);
    }
    if Strikes(After(input, steps[..n]), steps[n]) { assert StruckAt(input, steps, n, call); }
    forall i, m | 0 <= m < n ensures StartedNoted(input, steps, i, m, call, id) <==> StartedNoted(input, steps[..n], i, m, call, id) {
      SameStart(input, steps, n, i, m, call, id);
    }
  }

  lemma {:induction false} SameStart(input: seq<Frame>, steps: seq<Step>, n: nat, i: nat, m: nat, call: nat, id: Id)
    requires m < n <= |steps|
    ensures StartedNoted(input, steps, i, m, call, id) <==> StartedNoted(input, steps[..n], i, m, call, id)
  {
    hide Notes, Starts, At;
    forall k | 0 <= k < n
      ensures NotesAt(input, steps, k, id) == NotesAt(input, steps[..n], k, id)
      ensures StartsAt(input, steps, k, id) == StartsAt(input, steps[..n], k, id)
    {
      Earlier(input, steps, n, k);
    }
    Earlier(input, steps, n, m);
  }

  lemma {:induction false} StartedLaw(input: seq<Frame>, steps: seq<Step>)
    requires steps != []
    requires var n := |steps| - 1; After(input, steps[..n]).active.None? && After(input, steps).active.Some?
    ensures var t := After(input, steps);
      t.active.value.cancelled <==>
        || (exists i :: StruckAt(input, steps, i, t.active.value.call))
        || (exists i, m :: StartedNoted(input, steps, i, m, t.active.value.call, t.active.value.id))
  {
    hide Perform, Starts, Notes, Reads, Begins, Strikes;
    var n := |steps| - 1;
    LastLaw(input, steps);
    LastPerformed(input, steps);
    var s, t := After(input, steps[..n]), After(input, steps);
    var call, id := t.active.value.call, t.active.value.id;
    assert Starts(s, steps[n], id) && call == s.calls;
    PendingLaw(input, steps[..n], id);
    forall i ensures !StruckAt(input, steps, i, call) {
      if StruckAt(input, steps, i, call) { NotStruckBefore(input, steps, n, i); }
    }
    forall i: nat ensures StartedNoted(input, steps, i, n, call, id) <==> NotedSince(input, steps[..n], i, n, id) {
      if i < n { SameNoted(input, steps, n, i, id); }
    }
    forall i: nat, m: nat | m < n ensures !StartedNoted(input, steps, i, m, call, id) {
      if StartsAt(input, steps, m, id) {
        Earlier(input, steps, n, m);
        CallsGrow(input, steps[..n], m, id);
      }
    }
  }

  lemma {:induction false} SameNoted(input: seq<Frame>, steps: seq<Step>, n: nat, i: nat, id: Id)
    requires i < n <= |steps|
    ensures NotedSince(input, steps, i, n, id) <==> NotedSince(input, steps[..n], i, n, id)
  {
    hide Notes, Starts, At;
    forall k | 0 <= k < n
      ensures NotesAt(input, steps, k, id) == NotesAt(input, steps[..n], k, id)
      ensures StartsAt(input, steps, k, id) == StartsAt(input, steps[..n], k, id)
    {
      Earlier(input, steps, n, k);
    }
  }

  /** A call that has not started yet was never struck. */
  lemma {:induction false} NotStruckBefore(input: seq<Frame>, steps: seq<Step>, n: nat, i: nat)
    requires n < |steps| && After(input, steps[..n]).active.None?
    requires i < |steps| && i <= n
    ensures !StruckAt(input, steps, i, After(input, steps[..n]).calls)
  {
    hide Perform, Strikes, Invariant;
    if i < n && At(input, steps, i).active.Some? {
      AlwaysInvariant(input, steps[..i]);
      InvariantSound(At(input, steps, i));
      Earlier(input, steps, n, i);
      CallsGrow(input, steps[..n], i, NullId);
    }
  }
}
