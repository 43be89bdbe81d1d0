/** The two queues never hold more than their capacity, and nothing is dropped before a shutdown. */
module SessionQueues {
  import opened Wrappers
  import opened SessionModel
  import opened SessionCancellation

  ghost predicate Bounded(s: State) {
    && |s.events| <= 128 && |s.control| <= 128
    && (!s.shutdown ==> s.lost == multiset{} && s.lostRequests == 0)
  }

  /** No entry is added to a queue, a shutdown is not taken back, and a loss comes with one. */
  ghost predicate TakesOnly(s: State, t: State) {
    && |t.events| <= |s.events| && |t.control| <= |s.control| && (s.shutdown ==> t.shutdown)
    && (t.shutdown || (t.lost == s.lost && t.lostRequests == s.lostRequests))
  }

  lemma {:induction false} ReplyTakes(s: State, request: Request, writes: bool)
    ensures TakesOnly(s, Reply(s, request, writes))
  {
    hide Settle;
    SettleOnlyMain(s.(handled := s.handled + 1));
    SettleOnlyMain(s.(handled := s.handled + 1, log := s.log + [Replied(request.id)]));
  }

  lemma {:induction false} PatternTakes(s: State, request: Request, writes: bool)
    ensures TakesOnly(s, HandlePattern(s, request, writes))
  {
    hide Reply, Settle;
    ReplyTakes(s.(queuedIds := Without(s.queuedIds, request.id)), request, writes);
    SettleOnlyMain(s.(
      queuedIds := Without(s.queuedIds, request.id), pending := Without(s.pending, request.id),
      worker := Some(Worker(s.calls, request.id, request.hasProgressToken, WaitingForHost, 0, None)),
      active := Some(Active(s.calls, request.id, request.id in s.pending)), calls := s.calls + 1,
      log := s.log + [Started(s.calls, request.id)], handled := s.handled + 1));
  }

  lemma {:induction false} RequestTakes(s: State, request: Request, writes: bool)
    ensures TakesOnly(s, HandleRequest(s, request, writes))
  {
    hide Reply, Settle, HandlePattern, CancelActive;
    PatternTakes(s, request, writes);
    ReplyTakes(s, request, writes);
    ReplyTakes(s.(queuedIds := Without(s.queuedIds, request.id)), request, writes);
    SettleOnlyMain(s.(handled := s.handled + 1,
      active := if s.active.Some? && Targets(request, s.active.value.id) then CancelActive(s.active) else s.active));
  }

  lemma {:induction false} HandleTakes(s: State, event: RunEvent, writes: bool)
    ensures TakesOnly(s, Handle(s, event, writes))
  {
    hide Settle, HandleRequest, CancelActive;
    SettleOnlyMain(s);
    match event
    case RequestEvent(request) => RequestTakes(s, request, writes);
    case ParseErrorEvent(id) => SettleOnlyMain(s.(log := s.log + [Rejected(id)]));
    case ProgressEvent(call, id, _) => SettleOnlyMain(s.(log := s.log + [Progressed(call, id)]));
    case _ =>
  }

  lemma {:induction false} MainTakesOnly(s: State, writes: bool)
    ensures TakesOnly(s, MainStep(s, writes))
  {
    hide Settle, Handle, Reply, CancelActive, NotePending;
    match s.main {
      case Handling(event) => HandleTakes(s, event, writes);
      case HasHost(request) => ReplyTakes(s.(host := Free), request, writes);
      case Completing(call, id) => SettleOnlyMain(s.(active := None, log := s.log + [Answered(call, id)]));
      case _ =>
    }
  }

  lemma {:induction false} ReaderBounded(s: State)
    requires Bounded(s)
    ensures Bounded(ReaderSend(s))
  {
    hide OwedForEvent;
  }

  lemma {:induction false} WorkerBounded(s: State, progress: Progress)
    requires Bounded(s)
    ensures Bounded(WorkerSend(s)) && Bounded(WorkerLock(s)) && Bounded(WorkerFinish(s)) && Bounded(WorkerProgress(s, progress))
  {
    hide Progress.Shortened;
  }

  lemma {:induction false} StepBounded(s: State, step: Step)
    requires Bounded(s)
    ensures Bounded(Perform(s, step))
  {
    hide MainStep, ReaderSend, WorkerSend, WorkerLock, WorkerFinish, WorkerProgress, EventFor, NoteQueued;
    ReaderBounded(s);
    match step {
      case MainMoves(writes) => MainTakesOnly(s, writes);
      case WorkerReports(progress) => WorkerBounded(s, progress);
      case _ => WorkerBounded(s, Progress(0, ""));
    }
  }

  /** In every interleaving each queue holds at most 128 entries, and nothing is lost unless the session is shut down. */
  lemma {:induction false} NothingDropped(input: seq<Frame>, steps: seq<Step>)
    ensures var s := After(input, steps);
      && |s.events| <= 128 && |s.control| <= 128
      && (!s.shutdown ==> s.lost == multiset{} && s.lostRequests == 0)
  {
    hide Perform;
    if steps != [] {
      var n := |steps| - 1;
      NothingDropped(input, steps[..n]);
      StepBounded(After(input, steps[..n]), steps[n]);
    }
  }
}
