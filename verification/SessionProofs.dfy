/** What every interleaving of the session keeps. */
module SessionProofs {
  import opened Wrappers
  import opened SessionModel

  // ---------- Every response is owed once ----------

  /** How often `r` is owed by the queued events. */
  ghost function OwedByEvents(events: seq<RunEvent>, r: Response): nat {
    if events == [] then 0 else OwedForEvent(events[0])[r] + OwedByEvents(events[1..], r)
  }

  /** How often the frames call for `r`. */
  ghost function OwedByFrames(frames: seq<Frame>, r: Response): nat {
    if frames == [] then 0 else OwedByFrames(frames[..|frames| - 1], r) + OwedForFrame(frames[|frames| - 1])[r]
  }

  function ResponseOf(entry: Entry): multiset<Response> {
    match entry
    case Replied(id) => multiset{AnswerTo(id)}
    case Rejected(id) => multiset{ErrorTo(id)}
    case Answered(_, id) => multiset{AnswerTo(id)}
    case _ => multiset{}
  }

  /** How often `r` has been written. */
  ghost function Written(log: seq<Entry>, r: Response): nat {
    if log == [] then 0 else Written(log[..|log| - 1], r) + ResponseOf(log[|log| - 1])[r]
  }

  ghost function OwedByReader(reader: Reader, r: Response): nat {
    if reader.SendingEvent? then OwedForEvent(reader.event)[r] else 0
  }

  ghost function OwedByMain(main: Main, r: Response): nat {
    match main
    case Handling(event) => OwedForEvent(event)[r]
    case NeedsHost(request) => OwedFor(request)[r]
    case HasHost(request) => OwedFor(request)[r]
    case _ => 0
  }

  ghost function OwedByActive(active: Option<Active>, r: Response): nat {
    if active.Some? && r == AnswerTo(active.value.id) then 1 else 0
  }

  /** What is written, still owed or lost of `r` is together exactly what the frames read call for. */
  ghost predicate Balanced(s: State, r: Response) {
    Written(s.log, r) + OwedByActive(s.active, r) + OwedByMain(s.main, r) + OwedByEvents(s.events, r)
      + OwedByReader(s.reader, r) + s.lost[r] == OwedByFrames(s.read, r)
  }

  lemma {:induction false} OwedAppend(events: seq<RunEvent>, e: RunEvent, r: Response)
    ensures OwedByEvents(events + [e], r) == OwedByEvents(events, r) + OwedForEvent(e)[r]
  {
    if events == [] {
      assert [] + [e] == [e];
    } else {
      assert (events + [e])[1..] == events[1..] + [e];
      OwedAppend(events[1..], e, r);
    }
  }

  lemma {:induction false} WrittenAppend(log: seq<Entry>, e: Entry, r: Response)
    ensures Written(log + [e], r) == Written(log, r) + ResponseOf(e)[r]
  {
    assert (log + [e])[..|log|] == log;
  }

  lemma {:induction false} FramesAppend(frames: seq<Frame>, f: Frame, r: Response)
    ensures OwedByFrames(frames + [f], r) == OwedByFrames(frames, r) + OwedForFrame(f)[r]
  {
    assert (frames + [f])[..|frames|] == frames;
  }

  /** The points of the main loop at which it holds no request. */
  lemma {:induction false} Idle(main: Main, r: Response)
    requires main.Draining? || main.Receiving? || main.Returned? || main.Completing?
    ensures OwedByMain(main, r) == 0
  {
  }

  lemma {:induction false} CancelOwes(active: Option<Active>, r: Response)
    ensures OwedByActive(CancelActive(active), r) == OwedByActive(active, r)
  {
  }

  lemma {:induction false} ReadBalances(s: State, r: Response)
    requires Balanced(s, r) && s.reader == Reading && s.input != []
    ensures Balanced(ReadFrame(s), r)
  {
    hide Written, OwedByFrames, OwedByEvents, OwedByMain, OwedByActive, OwedByReader, NoteQueued;
    FramesAppend(s.read, s.input[0], r);
    ReaderOwes(s, r);
  }

  /** What the reader takes up is what the frame calls for. */
  lemma {:induction false} ReaderOwes(s: State, r: Response)
    requires s.reader == Reading && s.input != []
    ensures OwedByReader(s.reader, r) == 0 && OwedByReader(ReadFrame(s).reader, r) == OwedForFrame(s.input[0])[r]
  {
  }

  lemma {:induction false} SendBalances(s: State, r: Response)
    requires Balanced(s, r)
    ensures Balanced(ReaderSend(s), r)
  {
    hide Written, OwedByFrames, OwedByEvents, OwedByMain, OwedByActive, OwedForEvent;
    if s.reader.SendingEvent? { OwedAppend(s.events, s.reader.event, r); }
  }

  lemma {:induction false} WorkerBalances(s: State, r: Response)
    requires Balanced(s, r)
    ensures Balanced(WorkerSend(s), r)
  {
    hide Written, OwedByFrames, OwedByEvents, OwedByMain, OwedByActive, OwedByReader;
    if s.worker.Some? {
      var w := s.worker.value;
      OwedAppend(s.events, CompletedEvent(w.call, w.id), r);
      if w.pc.SendingProgress? { OwedAppend(s.events, ProgressEvent(w.call, w.id, w.pc.progress), r); }
    }
  }

  lemma {:induction false} SettleBalances(s: State, r: Response)
    requires Written(s.log, r) + OwedByActive(s.active, r) + OwedByEvents(s.events, r)
      + OwedByReader(s.reader, r) + s.lost[r] == OwedByFrames(s.read, r)
    ensures Balanced(Settle(s), r)
  {
    hide Written, OwedByFrames, OwedByEvents, OwedByMain, OwedByActive, OwedByReader;
    Idle(Draining, r);
    Idle(Returned(!s.readFailed), r);
  }

  lemma {:induction false} AbortBalances(s: State, lost: multiset<Response>, n: nat, r: Response)
    requires Written(s.log, r) + OwedByActive(s.active, r) + OwedByEvents(s.events, r)
      + OwedByReader(s.reader, r) + s.lost[r] + lost[r] == OwedByFrames(s.read, r)
    ensures Balanced(Abort(s, lost, n), r)
  {
    hide Written, OwedByFrames, OwedByEvents, OwedByMain, OwedByActive, OwedByReader;
    CancelOwes(s.active, r);
    Idle(Returned(false), r);
  }

  /** Replying to a request the main loop holds moves its response from owed to written, or to lost. */
  lemma {:induction false} ReplyBalances(s: State, request: Request, writes: bool, r: Response)
    requires Balanced(s, r) && OwedByMain(s.main, r) == OwedFor(request)[r] && request.kind != CancelledNotification
    ensures Balanced(Reply(s, request, writes), r)
  {
    hide Written, OwedByFrames, OwedByEvents, OwedByMain, OwedByActive, OwedByReader, Settle, Abort;
    WrittenAppend(s.log, Replied(request.id), r);
    if request.isNotification {
      SettleBalances(s.(handled := s.handled + 1), r);
    } else if writes {
      SettleBalances(s.(handled := s.handled + 1, log := s.log + [Replied(request.id)]), r);
    } else {
      AbortBalances(s, OwedFor(request), 1, r);
    }
  }

  lemma {:induction false} PatternBalances(s: State, request: Request, writes: bool, r: Response)
    requires Balanced(s, r) && OwedByMain(s.main, r) == OwedFor(request)[r] && request.IsPatternCall()
    ensures Balanced(HandlePattern(s, request, writes), r)
  {
    hide Written, OwedByFrames, OwedByEvents, OwedByMain, OwedByReader, Settle, Abort, Reply, Without;
    WrittenAppend(s.log, Replied(request.id), r);
    WrittenAppend(s.log, Started(s.calls, request.id), r);
    Idle(Draining, r);
    if !request.isNotification {
      if !request.argumentsValid {
        if !writes { AbortBalances(s, OwedFor(request), 1, r); }
      } else if s.active.Some? {
        ReplyBalances(s.(queuedIds := Without(s.queuedIds, request.id)), request, writes, r);
      } else {
        var id := request.id;
        SettleBalances(s.(
          queuedIds := Without(s.queuedIds, id), pending := Without(s.pending, id),
          worker := Some(Worker(s.calls, id, request.hasProgressToken, WaitingForHost, 0, None)),
          active := Some(Active(s.calls, id, id in s.pending)), calls := s.calls + 1,
          log := s.log + [Started(s.calls, id)], handled := s.handled + 1), r);
      }
    }
  }

  lemma {:induction false} RequestBalances(s: State, request: Request, writes: bool, r: Response)
    requires Balanced(s, r) && s.main == Handling(RequestEvent(request))
    ensures Balanced(HandleRequest(s, request, writes), r)
  {
    hide Written, OwedByFrames, OwedByEvents, OwedByReader, Settle, Reply, HandlePattern, Without;
    if request.kind == CancelledNotification {
      CancelOwes(s.active, r);
      SettleBalances(s.(handled := s.handled + 1,
        active := if s.active.Some? && Targets(request, s.active.value.id) then CancelActive(s.active) else s.active), r);
    } else if request.IsPatternCall() {
      PatternBalances(s, request, writes, r);
    } else {
      ReplyBalances(s, request, writes, r);
      ReplyBalances(s.(queuedIds := Without(s.queuedIds, request.id)), request, writes, r);
    }
  }

  lemma {:induction false} HandleBalances(s: State, event: RunEvent, writes: bool, r: Response)
    requires Balanced(s, r) && s.main == Handling(event)
    ensures Balanced(Handle(s, event, writes), r)
  {
    hide Written, OwedByFrames, OwedByEvents, OwedByActive, OwedByReader, HandleRequest, Settle, Abort;
    Idle(Draining, r);
    Idle(Returned(true), r);
    match event
    case RequestEvent(request) => RequestBalances(s, request, writes, r);
    case ParseErrorEvent(id) =>
      WrittenAppend(s.log, Rejected(id), r);
      SettleBalances(s.(log := s.log + [Rejected(id)]), r);
      AbortBalances(s, multiset{ErrorTo(id)}, 0, r);
    case ProgressEvent(call, id, progress) =>
      WrittenAppend(s.log, Progressed(call, id), r);
      SettleBalances(s.(log := s.log + [Progressed(call, id)]), r);
      SettleBalances(s, r);
      AbortBalances(s, multiset{}, 0, r);
    case CompletedEvent(call, id) =>
      SettleBalances(s, r);
      Idle(Completing(call, id), r);
    case EndOfInput =>
  }

  lemma {:induction false} CompleteBalances(s: State, call: nat, id: Id, writes: bool, r: Response)
    requires Balanced(s, r) && s.main == Completing(call, id) && s.active.Some? && s.active.value.id == id
    ensures Balanced(Complete(s, call, id, writes), r)
  {
    hide Written, OwedByFrames, OwedByEvents, OwedByReader, OwedByMain, Settle, Abort, CancelActive;
    Idle(s.main, r);
    CancelOwes(s.active, r);
    if s.control == [] {
      if writes { AnswerBalances(s, call, id, r); } else { AbortBalances(s.(active := None), multiset{AnswerTo(id)}, 0, r); }
    }
  }

  lemma {:induction false} AnswerBalances(s: State, call: nat, id: Id, r: Response)
    requires Balanced(s, r) && s.main == Completing(call, id) && s.active.Some? && s.active.value.id == id
    ensures Balanced(Settle(s.(active := None, log := s.log + [Answered(call, id)])), r)
  {
    hide Written, OwedByFrames, OwedByEvents, OwedByReader, OwedByMain, Settle;
    Idle(s.main, r);
    WrittenAppend(s.log, Answered(call, id), r);
    SettleBalances(s.(active := None, log := s.log + [Answered(call, id)]), r);
  }

  lemma {:induction false} DrainBalances(s: State, r: Response)
    requires Balanced(s, r) && s.main == Draining
    ensures Balanced(Drain(s), r)
  {
    hide Written, OwedByFrames, OwedByEvents, OwedByMain, OwedByActive, OwedByReader, NotePending, CancelActive;
    Idle(Draining, r);
    Idle(Receiving, r);
    Idle(Returned(!s.readFailed), r);
    CancelOwes(s.active, r);
  }

  lemma {:induction false} ReceiveBalances(s: State, r: Response)
    requires Balanced(s, r) && s.main == Receiving
    ensures Balanced(Receive(s), r)
  {
    hide Written, OwedByFrames, OwedByActive, OwedByReader;
  }

  lemma {:induction false} MainBalances(s: State, writes: bool, r: Response)
    requires Balanced(s, r)
    requires s.main.Completing? ==> s.active.Some? && s.active.value.id == s.main.id
    requires s.main.HasHost? ==> s.main.request.kind == ToolsCall
    ensures Balanced(MainStep(s, writes), r)
  {
    hide Written, OwedByFrames, OwedByEvents, OwedByActive, OwedByReader, Handle, Complete, Drain, Receive, Reply;
    match s.main {
      case Draining => DrainBalances(s, r);
      case Receiving => ReceiveBalances(s, r);
      case Handling(event) => HandleBalances(s, event, writes, r);
      case Completing(call, id) => CompleteBalances(s, call, id, writes, r);
      case HasHost(request) => ReplyBalances(s.(host := Free), request, writes, r);
      case _ =>
    }
  }
}
