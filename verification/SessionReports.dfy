/** Which progress is reported: only for calls that asked for it, and never with a long stage. */
module SessionReports {
  import opened Wrappers
  import opened SessionModel
  import opened SessionCalls
  import opened SessionGuarantees
  import opened SessionCancellation

  /** The numbers of the calls whose request carries a progress token. */
  ghost function TokenCalls(input: seq<Frame>, steps: seq<Step>): set<nat> {
    if steps == [] then {} else
    var n := |steps| - 1;
    TokenCalls(input, steps[..n]) + StartedWithToken(After(input, steps[..n]), steps[n])
  }

  ghost function StartedWithToken(s: State, step: Step): set<nat> {
    if (exists id :: Starts(s, step, id)) && s.main.event.request.hasProgressToken then {s.calls} else {}
  }

  ghost predicate Short(progress: Progress) { |progress.stage| <= 256 }

  ghost predicate ReportOk(event: RunEvent, tokens: set<nat>) {
    event.ProgressEvent? ==> event.call in tokens && Short(event.progress)
  }

  ghost predicate Reports(s: State, tokens: set<nat>) {
    && (s.worker.Some? && s.worker.value.hasToken ==> s.worker.value.call in tokens)
    && (s.worker.Some? && s.worker.value.pc.SendingProgress? ==> s.worker.value.hasToken && Short(s.worker.value.pc.progress))
    && (forall e :: e in s.events ==> ReportOk(e, tokens))
    && (s.main.Handling? ==> ReportOk(s.main.event, tokens))
    && (forall x :: x in s.log && x.Progressed? ==> x.call in tokens)
  }

  /** What the main loop writes at one step: progress only while it handles a report of that call. */
  ghost predicate WritesReport(s: State, t: State) {
    || t.log == s.log
    || exists x :: t.log == s.log + [x]
         && (x.Progressed? ==> s.main.Handling? && s.main.event.ProgressEvent? && x.call == s.main.event.call)
  }

  lemma {:induction false} MoreTokens(s: State, t: State, tokens: set<nat>, more: set<nat>)
    requires Reports(s, tokens) && OnlyTakes(s, t) && WritesReport(s, t)
    requires t.worker == s.worker || (t.worker.Some? && !t.worker.value.pc.SendingProgress?
      && (t.worker.value.hasToken ==> t.worker.value.call in tokens + more))
    ensures Reports(t, tokens + more)
  {
    hide Short;
  }

  lemma {:induction false} ReplyWrites(s: State, request: Request, writes: bool)
    ensures WritesReport(s, Reply(s, request, writes)) && Reply(s, request, writes).worker == s.worker
  {
    hide Settle;
    SettleOnlyMain(s.(handled := s.handled + 1));
    SettleOnlyMain(s.(handled := s.handled + 1, log := s.log + [Replied(request.id)]));
  }

  lemma {:induction false} PatternWrites(s: State, request: Request, writes: bool)
    requires s.main == Handling(RequestEvent(request)) && request.IsPatternCall()
    ensures var t := HandlePattern(s, request, writes);
      && WritesReport(s, t)
      && (t.worker == s.worker ||
           (t.worker.Some? && t.worker.value.pc == WaitingForHost && t.worker.value.call == s.calls
            && Starts(s, MainMoves(writes), request.id) && t.worker.value.hasToken == request.hasProgressToken))
  {
    hide Reply, Settle, Without;
    ReplyWrites(s.(queuedIds := Without(s.queuedIds, request.id)), request, writes);
    SettleOnlyMain(s.(
      queuedIds := Without(s.queuedIds, request.id), pending := Without(s.pending, request.id),
      worker := Some(Worker(s.calls, request.id, request.hasProgressToken, WaitingForHost, 0, None)),
      active := Some(Active(s.calls, request.id, request.id in s.pending)), calls := s.calls + 1,
      log := s.log + [Started(s.calls, request.id)], handled := s.handled + 1));
  }

  lemma {:induction false} HandleWrites(s: State, event: RunEvent, writes: bool)
    requires s.main == Handling(event) && !(event.RequestEvent? && event.request.IsPatternCall())
    ensures WritesReport(s, Handle(s, event, writes)) && Handle(s, event, writes).worker == s.worker
  {
    hide Reply, Settle, CancelActive, Without;
    SettleOnlyMain(s);
    match event
    case RequestEvent(request) => OtherRequestWrites(s, request, writes);
    case ParseErrorEvent(id) => SettleOnlyMain(s.(log := s.log + [Rejected(id)]));
    case ProgressEvent(call, id, _) => SettleOnlyMain(s.(log := s.log + [Progressed(call, id)]));
    case _ =>
  }

  lemma {:induction false} OtherRequestWrites(s: State, request: Request, writes: bool)
    requires !request.IsPatternCall()
    ensures WritesReport(s, HandleRequest(s, request, writes)) && HandleRequest(s, request, writes).worker == s.worker
  {
    hide Reply, Settle, CancelActive, Without;
    if request.kind == CancelledNotification {
      SettleOnlyMain(s.(handled := s.handled + 1,
        active := if s.active.Some? && Targets(request, s.active.value.id) then CancelActive(s.active) else s.active));
    } else {
      ReplyWrites(s, request, writes);
      ReplyWrites(s.(queuedIds := Without(s.queuedIds, request.id)), request, writes);
    }
  }

  lemma {:induction false} MainReports(s: State, writes: bool, tokens: set<nat>)
    requires Reports(s, tokens) && Routed(s)
    ensures Reports(MainStep(s, writes), tokens + StartedWithToken(s, MainMoves(writes)))
  {
    hide Reports, Starts, WritesReport, OnlyTakes, HandlePattern, Settle, Reply;
    var t, more := MainStep(s, writes), StartedWithToken(s, MainMoves(writes));
    MainTakes(s, writes);
    if s.main.Handling? && s.main.event.RequestEvent? && s.main.event.request.IsPatternCall() {
      PatternIsHandled(s, s.main.event.request, writes);
      PatternWrites(s, s.main.event.request, writes);
    } else {
      OtherWrites(s, writes);
    }
    MoreTokens(s, t, tokens, more);
  }

  lemma {:induction false} OtherWrites(s: State, writes: bool)
    requires !(s.main.Handling? && s.main.event.RequestEvent? && s.main.event.request.IsPatternCall())
    ensures WritesReport(s, MainStep(s, writes)) && MainStep(s, writes).worker == s.worker
  {
    hide Settle, Reply, Handle, CancelActive, NotePending;
    match s.main {
      case Handling(event) => HandleWrites(s, event, writes);
      case HasHost(request) => ReplyWrites(s.(host := Free), request, writes);
      case Completing(call, id) => SettleOnlyMain(s.(active := None, log := s.log + [Answered(call, id)]));
      case _ =>
    }
  }

  lemma {:induction false} WorkerReportsOk(s: State, progress: Progress, tokens: set<nat>)
    requires Reports(s, tokens)
    ensures Reports(WorkerSend(s), tokens) && Reports(WorkerLock(s), tokens) && Reports(WorkerFinish(s), tokens)
    ensures Reports(WorkerProgress(s, progress), tokens)
  {
    hide Reports, WorkerSend, WorkerLock, WorkerFinish, WorkerProgress;
    WorkerSendReports(s, tokens);
    WorkerTurnsReport(s, tokens);
    NewReport(s, progress, tokens);
  }

  lemma {:induction false} WorkerSendReports(s: State, tokens: set<nat>)
    requires Reports(s, tokens)
    ensures Reports(WorkerSend(s), tokens)
  {
    hide Short;
  }

  lemma {:induction false} WorkerTurnsReport(s: State, tokens: set<nat>)
    requires Reports(s, tokens)
    ensures Reports(WorkerLock(s), tokens) && Reports(WorkerFinish(s), tokens)
  {
    hide Short, ReportOk;
  }

  lemma {:induction false} NewReport(s: State, progress: Progress, tokens: set<nat>)
    requires Reports(s, tokens)
    ensures Reports(WorkerProgress(s, progress), tokens)
  {
    hide ReportOk;
  }

  lemma {:induction false} ReaderReportsOk(s: State, tokens: set<nat>)
    requires Reports(s, tokens) && (s.reader.SendingEvent? ==> !s.reader.event.FromWorker())
    ensures Reports(ReaderSend(s), tokens)
    ensures s.reader == Reading && s.input != [] ==> Reports(ReadFrame(s), tokens)
  {
    hide Short, OwedForEvent, NoteQueued;
  }

  lemma {:induction false} StepReports(s: State, step: Step, tokens: set<nat>)
    requires Reports(s, tokens) && Routed(s) && Flow(s)
    ensures Reports(Perform(s, step), tokens + StartedWithToken(s, step))
  {
    hide Reports, Starts, Routed, EndLast, AllFromWorker, ReadFrame, ReaderSend, WorkerSend, WorkerLock, WorkerFinish, WorkerProgress, MainStep;
    if step.MainMoves? {
      MainReports(s, step.writes, tokens);
    } else {
      assert StartedWithToken(s, step) == {} by { NotAStart(s, step); }
      assert tokens + {} == tokens;
      ReaderReportsOk(s, tokens);
      if step.WorkerReports? { WorkerReportsOk(s, step.progress, tokens); } else { WorkerReportsOk(s, Progress(0, ""), tokens); }
      if step.ReaderMeetsEnd? || step.ReaderMeetsError? || step.ReaderSeesShutdown? || step.MainTimesOut? || step.OutsideShutdown? {
        IdleReports(s, step, tokens);
      }
    }
  }

  lemma {:induction false} IdleReports(s: State, step: Step, tokens: set<nat>)
    requires Reports(s, tokens)
    requires step.ReaderMeetsEnd? || step.ReaderMeetsError? || step.ReaderSeesShutdown? || step.MainTimesOut? || step.OutsideShutdown?
    ensures Reports(Perform(s, step), tokens)
  {
    hide Short;
  }

  lemma {:induction false} NotAStart(s: State, step: Step)
    requires !step.MainMoves?
    ensures StartedWithToken(s, step) == {}
  {
  }

  lemma {:induction false} AlwaysReports(input: seq<Frame>, steps: seq<Step>)
    ensures Reports(After(input, steps), TokenCalls(input, steps))
  {
    hide Perform, Reports, Routed, Invariant, StartedWithToken;
    if steps == [] {
      assert Reports(Start(input), {}) by { StartReports(input); }
    } else {
      var n := |steps| - 1;
      AlwaysReports(input, steps[..n]);
      AlwaysRouted(input, steps[..n]);
      AlwaysInvariant(input, steps[..n]);
      assert Flow(After(input, steps[..n])) by { InvariantFlows(After(input, steps[..n])); }
      StepReports(After(input, steps[..n]), steps[n], TokenCalls(input, steps[..n]));
    }
  }

  lemma {:induction false} InvariantFlows(s: State)
    requires Invariant(s)
    ensures Flow(s)
  {
  }

  lemma {:induction false} StartReports(input: seq<Frame>)
    ensures Reports(Start(input), {})
  {
  }

  ghost predicate MayReport(s: State, progress: Progress) {
    && s.worker.Some? && s.worker.value.pc == Running && s.worker.value.hasToken && s.worker.value.emitted < 100
    && s.worker.value.last != Some(progress)
  }

  /** The report on its way out, with at most the first 256 characters of its stage. */
  ghost predicate Sends(s: State, t: State, progress: Progress)
    requires s.worker.Some?
  {
    t.worker.Some? && t.worker.value.pc.SendingProgress? &&
    var sent := t.worker.value.pc.progress;
    && sent.percent == progress.percent && sent.stage <= progress.stage
    && |sent.stage| == (if |progress.stage| < 256 then |progress.stage| else 256)
    && t.worker.value.last == Some(sent) && t.worker.value.emitted == s.worker.value.emitted + 1
  }

  /** A worker's report goes out exactly when it was asked for, fewer than a hundred went before, and it says something new. */
  lemma {:induction false} ReportsIff(s: State, progress: Progress)
    ensures Perform(s, WorkerReports(progress)) != s <==> MayReport(s, progress)
    ensures MayReport(s, progress) ==> Sends(s, Perform(s, WorkerReports(progress)), progress)
  {
  }

  /** In every interleaving progress is written only for calls whose request carries a token, and no queued stage is long. */
  lemma {:induction false} ProgressWasAsked(input: seq<Frame>, steps: seq<Step>)
    ensures var s := After(input, steps);
      && (forall call, id :: Progressed(call, id) in s.log ==> call in TokenCalls(input, steps))
      && (forall e :: e in s.events && e.ProgressEvent? ==> e.call in TokenCalls(input, steps) && |e.progress.stage| <= 256)
  {
    hide After, TokenCalls;
    AlwaysReports(input, steps);
  }
}
