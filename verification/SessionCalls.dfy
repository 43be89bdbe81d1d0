/** The pattern call: at most one, the Host lock, and the order of what is written for it. */
module SessionCalls {
  import opened Wrappers
  import opened SessionModel

  /** The event was sent by the worker of the active call. */
  ghost predicate OfActive(active: Option<Active>, e: RunEvent) {
    e.FromWorker() ==> active.Some? && e.call == active.value.call && e.id == active.value.id
  }

  /** A completed event is the last thing a worker sends. */
  ghost predicate CompletedLast(events: seq<RunEvent>) {
    forall i, j :: 0 <= i < j < |events| && events[i].CompletedEvent? ==> !events[j].FromWorker()
  }

  ghost predicate NoneFromWorker(events: seq<RunEvent>) {
    forall e :: e in events ==> !e.FromWorker()
  }

  ghost predicate HoldsCompleted(main: Main) {
    main.Completing? || (main.Handling? && main.event.CompletedEvent?)
  }

  /** Everything a worker has sent belongs to the active call, and nothing follows its completion. */
  ghost predicate EventsOk(active: Option<Active>, worker: Option<Worker>, events: seq<RunEvent>, main: Main) {
    && (forall e :: e in events ==> OfActive(active, e))
    && CompletedLast(events)
    && (main.Handling? ==> OfActive(active, main.event))
    && (main.Completing? ==> active.Some? && main.call == active.value.call && main.id == active.value.id)
    && (HoldsCompleted(main) ==> NoneFromWorker(events))
    && ((HoldsCompleted(main) || exists e :: e in events && e.CompletedEvent?) ==> worker.None?)
  }

  /** The worker is the active call's, and the Host lock is where the threads say it is. */
  ghost predicate ThreadsOk(active: Option<Active>, worker: Option<Worker>, main: Main, host: Host, calls: nat) {
    && (active.Some? ==> active.value.call + 1 == calls)
    && (worker.Some? ==> active.Some? && worker.value.call == active.value.call && worker.value.id == active.value.id)
    && (worker.Some? ==> worker.value.emitted <= MAX_PROGRESS_NOTIFICATIONS)
    && (main.NeedsHost? || main.HasHost? ==> active.None? && main.request.kind == ToolsCall)
    && (host == HeldByMain <==> main.HasHost?)
    && (host == HeldByWorker <==> worker.Some? && (worker.value.pc.Running? || worker.value.pc.SendingProgress?))
  }

  ghost predicate Sound(s: State) {
    EventsOk(s.active, s.worker, s.events, s.main) && ThreadsOk(s.active, s.worker, s.main, s.host, s.calls)
  }

  /** The worker's fields that matter are unchanged. */
  ghost predicate SameCall(a: Option<Active>, b: Option<Active>) {
    a.Some? == b.Some? && (a.Some? ==> a.value.call == b.value.call && a.value.id == b.value.id)
  }

  lemma {:induction false} CancelIsSameCall(a: Option<Active>)
    ensures SameCall(a, CancelActive(a))
  {
  }

  /** The main loop is at a point where it holds no event and no lock. */
  ghost predicate AtRest(main: Main) {
    main.Draining? || main.Receiving? || main.Returned?
  }

  lemma {:induction false} RestKeepsSound(s: State, t: State)
    requires Sound(s) && AtRest(t.main) && SameCall(s.active, t.active)
    requires t.worker == s.worker && t.events == s.events && t.calls == s.calls
    requires t.host == if s.main.HasHost? then Free else s.host
    ensures Sound(t)
  {
    hide CompletedLast, NoneFromWorker;
  }

  /** After the completion of a call nothing of it is left. */
  lemma {:induction false} EndKeepsSound(s: State, t: State)
    requires Sound(s) && s.main.Completing? && AtRest(t.main) && t.active.None?
    requires t.worker == s.worker && t.events == s.events && t.calls == s.calls && t.host == s.host
    ensures Sound(t)
  {
    hide CompletedLast;
  }

  /** A new call finds no trace of an earlier one. */
  lemma {:induction false} StartKeepsSound(s: State, t: State, w: Worker)
    requires Sound(s) && s.active.None? && s.main.Handling? && AtRest(t.main)
    requires t.active.Some? && t.active.value.call == s.calls == w.call && t.active.value.id == w.id && t.calls == s.calls + 1
    requires t.worker == Some(w) && w.pc == WaitingForHost && w.emitted == 0
    requires t.events == s.events && t.host == s.host
    ensures Sound(t)
  {
    hide CompletedLast;
  }

  lemma {:induction false} SettleRests(s: State)
    ensures AtRest(Settle(s).main)
    ensures var t := Settle(s); t.active == s.active && t.worker == s.worker && t.events == s.events && t.calls == s.calls && t.host == s.host
  {
  }

  lemma {:induction false} AbortRests(s: State, lost: multiset<Response>, n: nat)
    ensures AtRest(Abort(s, lost, n).main)
    ensures var t := Abort(s, lost, n);
      SameCall(s.active, t.active) && t.worker == s.worker && t.events == s.events && t.calls == s.calls && t.host == s.host
  {
  }

  lemma {:induction false} ReplyRests(s: State, request: Request, writes: bool)
    ensures AtRest(Reply(s, request, writes).main)
    ensures var t := Reply(s, request, writes);
      SameCall(s.active, t.active) && t.worker == s.worker && t.events == s.events && t.calls == s.calls && t.host == s.host
  {
    hide Settle, Abort;
    SettleRests(s.(handled := s.handled + 1));
    SettleRests(s.(handled := s.handled + 1, log := s.log + [Replied(request.id)]));
    AbortRests(s, OwedFor(request), 1);
  }

  // ---------- The main loop ----------

  lemma {:induction false} PatternSound(s: State, request: Request, writes: bool)
    requires Sound(s) && s.main == Handling(RequestEvent(request))
    ensures Sound(HandlePattern(s, request, writes))
  {
    hide Sound, Settle, Abort, Reply, Without;
    var t := HandlePattern(s, request, writes);
    AbortRests(s, OwedFor(request), 1);
    if !request.isNotification && request.argumentsValid && s.active.None? {
      var w := Worker(s.calls, request.id, request.hasProgressToken, WaitingForHost, 0, None);
      SettleRests(s.(
          queuedIds := Without(s.queuedIds, request.id), pending := Without(s.pending, request.id), worker := Some(w),
          active := Some(Active(s.calls, request.id, request.id in s.pending)), calls := s.calls + 1,
          log := s.log + [Started(s.calls, request.id)], handled := s.handled + 1));
      StartKeepsSound(s, t, w);
    } else {
      ReplyRests(s.(queuedIds := Without(s.queuedIds, request.id)), request, writes);
      RestKeepsSound(s, t);
    }
  }

  lemma {:induction false} RequestSound(s: State, request: Request, writes: bool)
    requires Sound(s) && s.main == Handling(RequestEvent(request))
    ensures Sound(HandleRequest(s, request, writes))
  {
    hide EventsOk, Settle, Reply, HandlePattern, Without;
    var t := HandleRequest(s, request, writes);
    if request.kind == CancelledNotification {
      CancelIsSameCall(s.active);
      SettleRests(s.(handled := s.handled + 1,
        active := if s.active.Some? && Targets(request, s.active.value.id) then CancelActive(s.active) else s.active));
      RestKeepsSound(s, t);
    } else if request.IsPatternCall() {
      PatternSound(s, request, writes);
    } else if s.active.None? && request.kind == ToolsCall && request.reachesHost {
      NeedsHostSound(s, t, request);
    } else {
      ReplyRests(s, request, writes);
      ReplyRests(s.(queuedIds := Without(s.queuedIds, request.id)), request, writes);
      RestKeepsSound(s, t);
    }
  }

  lemma {:induction false} NeedsHostSound(s: State, t: State, request: Request)
    requires Sound(s) && s.main == Handling(RequestEvent(request)) && t.main == NeedsHost(request)
    requires s.active.None? && request.kind == ToolsCall
    requires t.active == s.active && t.worker == s.worker && t.events == s.events && t.calls == s.calls && t.host == s.host
    ensures Sound(t)
  {
    hide CompletedLast;
  }

  lemma {:induction false} HandleSound(s: State, event: RunEvent, writes: bool)
    requires Sound(s) && s.main == Handling(event)
    ensures Sound(Handle(s, event, writes))
  {
    hide EventsOk, Settle, Abort, HandleRequest;
    var t := Handle(s, event, writes);
    match event
    case RequestEvent(request) => RequestSound(s, request, writes);
    case ParseErrorEvent(id) =>
      SettleRests(s.(log := s.log + [Rejected(id)]));
      AbortRests(s, multiset{ErrorTo(id)}, 0);
      RestKeepsSound(s, t);
    case EndOfInput => RestKeepsSound(s, t);
    case ProgressEvent(call, id, progress) =>
      SettleRests(s.(log := s.log + [Progressed(call, id)]));
      SettleRests(s);
      AbortRests(s, multiset{}, 0);
      RestKeepsSound(s, t);
    case CompletedEvent(call, id) =>
      SettleRests(s);
      if s.active.Some? && s.active.value.id == id { CompletingSound(s, t, call, id); } else { RestKeepsSound(s, t); }
  }

  lemma {:induction false} CompletingSound(s: State, t: State, call: nat, id: Id)
    requires Sound(s) && s.main == Handling(CompletedEvent(call, id)) && t.main == Completing(call, id)
    requires t.active == s.active && t.worker == s.worker && t.events == s.events && t.calls == s.calls && t.host == s.host
    ensures Sound(t)
  {
    hide CompletedLast;
  }

  lemma {:induction false} CompleteSound(s: State, call: nat, id: Id, writes: bool)
    requires Sound(s) && s.main == Completing(call, id)
    ensures Sound(Complete(s, call, id, writes))
  {
    hide Settle, CompletedLast, NoneFromWorker;
    var t := Complete(s, call, id, writes);
    if s.control == [] {
      SettleRests(s.(active := None, log := s.log + [Answered(call, id)]));
      AbortRests(s.(active := None), multiset{AnswerTo(id)}, 0);
      EndKeepsSound(s, t);
    } else {
      CancelIsSameCall(s.active);
    }
  }

  lemma {:induction false} ReceiveSound(s: State)
    requires Sound(s) && s.main == Receiving
    ensures Sound(Receive(s))
  {
    if s.events != [] {
      var e, rest := s.events[0], s.events[1..];
      assert e in s.events;
      assert CompletedLast(rest);
      if e.CompletedEvent? {
        forall x | x in rest ensures !x.FromWorker() {
          var j :| 0 <= j < |rest| && rest[j] == x;
          assert s.events[j + 1] == x;
        }
      }
    }
  }

  lemma {:induction false} MainSound(s: State, writes: bool)
    requires Sound(s)
    ensures Sound(MainStep(s, writes))
  {
    hide EventsOk, Handle, Complete, Receive, Reply, NotePending;
    var t := MainStep(s, writes);
    match s.main {
      case Draining =>
        CancelIsSameCall(s.active);
        RestKeepsSound(s, t);
      case Receiving => ReceiveSound(s);
      case Handling(event) => HandleSound(s, event, writes);
      case Completing(call, id) => CompleteSound(s, call, id, writes);
      case NeedsHost(request) => LockSound(s, t);
      case HasHost(request) =>
        ReplyRests(s.(host := Free), request, writes);
        RestKeepsSound(s, t);
      case Returned(_) =>
    }
  }

  lemma {:induction false} LockSound(s: State, t: State)
    requires Sound(s) && s.main.NeedsHost?
    requires t == if s.host == Free then s.(host := HeldByMain, main := HasHost(s.main.request)) else s
    ensures Sound(t)
  {
    hide CompletedLast;
  }

  // ---------- The other threads ----------

  lemma {:induction false} AppendSound(s: State, t: State, e: RunEvent)
    requires Sound(s) && t.events == s.events + [e]
    requires t.active == s.active && t.main == s.main && t.calls == s.calls
    requires e.FromWorker() ==> s.worker.Some? && e.call == s.worker.value.call && e.id == s.worker.value.id
    requires if e.CompletedEvent? then t.worker.None? else t.worker.Some? == s.worker.Some?
    requires ThreadsOk(t.active, t.worker, t.main, t.host, t.calls)
    ensures Sound(t)
  {
    assert forall x :: x in t.events <==> x in s.events || x == e;
    forall i, j | 0 <= i < j < |t.events| && t.events[i].CompletedEvent? ensures !t.events[j].FromWorker() {
      assert t.events[i] in s.events;
      if j < |s.events| { assert s.events[i].CompletedEvent?; }
    }
  }

  lemma {:induction false} ReaderSound(s: State)
    requires Sound(s)
    requires s.reader.SendingEvent? ==> !s.reader.event.FromWorker()
    ensures Sound(ReaderSend(s))
  {
    hide EventsOk, OwedForEvent;
    if s.reader.SendingEvent? && |s.events| < QUEUE_CAPACITY { AppendSound(s, ReaderSend(s), s.reader.event); }
  }

  lemma {:induction false} WorkerSound(s: State, progress: Progress)
    requires Sound(s)
    ensures Sound(WorkerLock(s)) && Sound(WorkerFinish(s)) && Sound(WorkerProgress(s, progress))
  {
    hide CompletedLast, NoneFromWorker, Progress.Shortened;
  }

  lemma {:induction false} WorkerSendSound(s: State)
    requires Sound(s)
    ensures Sound(WorkerSend(s))
  {
    hide EventsOk;
    if s.worker.Some? {
      var w := s.worker.value;
      if |s.events| < QUEUE_CAPACITY {
        if w.pc.SendingProgress? { AppendSound(s, WorkerSend(s), ProgressEvent(w.call, w.id, w.pc.progress)); }
        if w.pc.SendingCompleted? { AppendSound(s, WorkerSend(s), CompletedEvent(w.call, w.id)); }
      } else {
        WorkerGone(s, WorkerSend(s));
      }
    }
  }

  lemma {:induction false} WorkerGone(s: State, t: State)
    requires Sound(s) && t.events == s.events && t.active == s.active && t.main == s.main && t.calls == s.calls
    requires t.worker.None? || t.worker.Some? == s.worker.Some?
    requires ThreadsOk(t.active, t.worker, t.main, t.host, t.calls)
    ensures Sound(t)
  {
  }

  // ---------- What is written for a call ----------

  predicate IsStart(e: Entry, c: nat) { e.Started? && e.call == c }
  predicate IsAnswer(e: Entry, c: nat) { e.Answered? && e.call == c }
  predicate IsProgress(e: Entry, c: nat) { e.Progressed? && e.call == c }

  ghost predicate HasStart(log: seq<Entry>, c: nat) { exists e :: e in log && IsStart(e, c) }
  ghost predicate HasAnswer(log: seq<Entry>, c: nat) { exists e :: e in log && IsAnswer(e, c) }

  /** Progress and the answer of call `c` come after its start, and nothing of it after its answer. */
  ghost predicate InOrder(log: seq<Entry>, c: nat) {
    && (forall i :: 0 <= i < |log| && (IsProgress(log[i], c) || IsAnswer(log[i], c)) ==>
          HasStart(log[..i], c) && !HasAnswer(log[..i], c))
    && (forall i :: 0 <= i < |log| && IsStart(log[i], c) ==> !HasStart(log[..i], c))
  }

  function ProgressCount(log: seq<Entry>, c: nat): nat {
    if log == [] then 0 else
    ProgressCount(log[..|log| - 1], c) + if IsProgress(log[|log| - 1], c) then 1 else 0
  }

  function QueuedProgress(events: seq<RunEvent>, c: nat): nat {
    if events == [] then 0 else
    (if events[0].ProgressEvent? && events[0].call == c then 1 else 0) + QueuedProgress(events[1..], c)
  }

  function HeldProgress(main: Main, c: nat): nat {
    if main.Handling? && main.event.ProgressEvent? && main.event.call == c then 1 else 0
  }

  function SendingCount(worker: Option<Worker>, c: nat): nat {
    if worker.Some? && worker.value.pc.SendingProgress? && worker.value.call == c then 1 else 0
  }

  function Allowed(worker: Option<Worker>, calls: nat, c: nat): nat {
    if c >= calls then 0
    else if worker.Some? && worker.value.call == c then worker.value.emitted
    else MAX_PROGRESS_NOTIFICATIONS
  }

  /** The progress of call `c`, written or on its way, never exceeds what its worker emitted. */
  ghost predicate Limited(s: State, c: nat) {
    ProgressCount(s.log, c) + QueuedProgress(s.events, c) + HeldProgress(s.main, c) + SendingCount(s.worker, c)
      <= Allowed(s.worker, s.calls, c)
  }

  /** A call has started exactly when it has a number, and the active call has not been answered. */
  ghost predicate Numbered(s: State, c: nat) {
    && (HasStart(s.log, c) <==> c < s.calls)
    && (HasAnswer(s.log, c) ==> c < s.calls)
    && (s.active.Some? && s.active.value.call == c ==> !HasAnswer(s.log, c))
  }

  ghost predicate Journal(s: State, c: nat) {
    InOrder(s.log, c) && Numbered(s, c) && Limited(s, c)
  }

  lemma {:induction false} MemberAppend(log: seq<Entry>, e: Entry, c: nat)
    ensures HasStart(log + [e], c) <==> HasStart(log, c) || IsStart(e, c)
    ensures HasAnswer(log + [e], c) <==> HasAnswer(log, c) || IsAnswer(e, c)
  {
    assert forall x :: x in log + [e] <==> x in log || x == e;
  }

  lemma {:induction false} InOrderAppend(log: seq<Entry>, e: Entry, c: nat)
    requires InOrder(log, c)
    requires IsProgress(e, c) || IsAnswer(e, c) ==> HasStart(log, c) && !HasAnswer(log, c)
    requires IsStart(e, c) ==> !HasStart(log, c)
    ensures InOrder(log + [e], c)
  {
    hide HasStart, HasAnswer, IsProgress, IsAnswer, IsStart;
    var all := log + [e];
    forall i | 0 <= i < |all| ensures all[..i] == if i < |log| then log[..i] else log {}
  }

  lemma {:induction false} LogAppend(log: seq<Entry>, e: Entry, c: nat)
    ensures HasStart(log + [e], c) <==> HasStart(log, c) || IsStart(e, c)
    ensures HasAnswer(log + [e], c) <==> HasAnswer(log, c) || IsAnswer(e, c)
    ensures ProgressCount(log + [e], c) == ProgressCount(log, c) + if IsProgress(e, c) then 1 else 0
    ensures InOrder(log, c)
      && (IsProgress(e, c) || IsAnswer(e, c) ==> HasStart(log, c) && !HasAnswer(log, c))
      && (IsStart(e, c) ==> !HasStart(log, c))
      ==> InOrder(log + [e], c)
  {
    hide HasStart, HasAnswer, InOrder;
    MemberAppend(log, e, c);
    assert (log + [e])[..|log|] == log;
    if InOrder(log, c)
      && (IsProgress(e, c) || IsAnswer(e, c) ==> HasStart(log, c) && !HasAnswer(log, c))
      && (IsStart(e, c) ==> !HasStart(log, c))
    {
      InOrderAppend(log, e, c);
    }
  }

  lemma {:induction false} QueueAppend(events: seq<RunEvent>, e: RunEvent, c: nat)
    ensures QueuedProgress(events + [e], c) == QueuedProgress(events, c) + if e.ProgressEvent? && e.call == c then 1 else 0
  {
    if events == [] {
      assert [] + [e] == [e];
    } else {
      assert (events + [e])[1..] == events[1..] + [e];
      QueueAppend(events[1..], e, c);
    }
  }

  /** A step of the main loop that writes nothing about a call, or one thing at the right time, keeps its journal. */
  lemma {:induction false} JournalStep(s: State, t: State, e: Entry, c: nat)
    requires Journal(s, c)
    requires t.log == s.log || t.log == s.log + [e]
    requires t.worker == s.worker && t.calls == s.calls && t.events == s.events && HeldProgress(t.main, c) == 0
    requires t.active.Some? ==> SameCall(s.active, t.active)
    requires t.log != s.log && IsProgress(e, c) ==> HeldProgress(s.main, c) == 1 && s.active.Some? && s.active.value.call == c < s.calls
    requires t.log != s.log && IsAnswer(e, c) ==> s.active.Some? && s.active.value.call == c < s.calls && t.active.None?
    requires t.log != s.log ==> !IsStart(e, c)
    ensures Journal(t, c)
  {
    hide InOrder, HasStart, HasAnswer, ProgressCount, QueuedProgress;
    LogAppend(s.log, e, c);
  }

  lemma {:induction false} StartJournal(s: State, t: State, w: Worker, e: Entry, c: nat)
    requires Journal(s, c) && Sound(s) && s.active.None? && s.main.Handling? && s.main.event.RequestEvent? && AtRest(t.main)
    requires t.active.Some? && t.active.value.call == s.calls == w.call && t.calls == s.calls + 1
    requires t.worker == Some(w) && w.pc == WaitingForHost && w.emitted == 0 && t.events == s.events
    requires e == Started(s.calls, w.id) && t.log == s.log + [e]
    ensures Journal(t, c)
  {
    hide InOrder, HasStart, HasAnswer, ProgressCount, QueuedProgress, EventsOk;
    LogAppend(s.log, e, c);
  }

  lemma {:induction false} SettleLogs(s: State)
    ensures var t := Settle(s); t.log == s.log && (forall c :: HeldProgress(t.main, c) == 0)
  {
  }

  lemma {:induction false} ReplyLogs(s: State, request: Request, writes: bool)
    ensures var t := Reply(s, request, writes);
      (t.log == s.log || t.log == s.log + [Replied(request.id)]) && (forall c :: HeldProgress(t.main, c) == 0)
  {
    hide Settle;
    SettleLogs(s.(handled := s.handled + 1));
    SettleLogs(s.(handled := s.handled + 1, log := s.log + [Replied(request.id)]));
  }

  lemma {:induction false} PatternJournal(s: State, request: Request, writes: bool, c: nat)
    requires Journal(s, c) && Sound(s) && s.main == Handling(RequestEvent(request))
    ensures Journal(HandlePattern(s, request, writes), c)
  {
    hide Sound, Journal, Settle, Abort, Reply, Without;
    var t := HandlePattern(s, request, writes);
    AbortRests(s, OwedFor(request), 1);
    AbortLogs(s, OwedFor(request), 1);
    if !request.isNotification && request.argumentsValid && s.active.None? {
      var w := Worker(s.calls, request.id, request.hasProgressToken, WaitingForHost, 0, None);
      var u := s.(
          queuedIds := Without(s.queuedIds, request.id), pending := Without(s.pending, request.id), worker := Some(w),
          active := Some(Active(s.calls, request.id, request.id in s.pending)), calls := s.calls + 1,
          log := s.log + [Started(s.calls, request.id)], handled := s.handled + 1);
      SettleRests(u);
      SettleLogs(u);
      StartJournal(s, t, w, Started(s.calls, request.id), c);
    } else {
      ReplyRests(s.(queuedIds := Without(s.queuedIds, request.id)), request, writes);
      ReplyLogs(s.(queuedIds := Without(s.queuedIds, request.id)), request, writes);
      JournalStep(s, t, Replied(request.id), c);
    }
  }

  lemma {:induction false} AbortLogs(s: State, lost: multiset<Response>, n: nat)
    ensures Abort(s, lost, n).log == s.log && forall c :: HeldProgress(Abort(s, lost, n).main, c) == 0
  {
  }

  lemma {:induction false} RequestJournal(s: State, request: Request, writes: bool, c: nat)
    requires Journal(s, c) && Sound(s) && s.main == Handling(RequestEvent(request))
    ensures Journal(HandleRequest(s, request, writes), c)
  {
    hide Sound, Journal, Settle, Reply, HandlePattern, Without;
    var t := HandleRequest(s, request, writes);
    if request.kind == CancelledNotification {
      CancelIsSameCall(s.active);
      var u := s.(handled := s.handled + 1,
        active := if s.active.Some? && Targets(request, s.active.value.id) then CancelActive(s.active) else s.active);
      SettleRests(u);
      SettleLogs(u);
      JournalStep(s, t, Replied(request.id), c);
    } else if request.IsPatternCall() {
      PatternJournal(s, request, writes, c);
    } else {
      ReplyRests(s, request, writes);
      ReplyRests(s.(queuedIds := Without(s.queuedIds, request.id)), request, writes);
      ReplyLogs(s, request, writes);
      ReplyLogs(s.(queuedIds := Without(s.queuedIds, request.id)), request, writes);
      JournalStep(s, t, Replied(request.id), c);
    }
  }

  lemma {:induction false} HandleJournal(s: State, event: RunEvent, writes: bool, c: nat)
    requires Journal(s, c) && Sound(s) && s.main == Handling(event)
    ensures Journal(Handle(s, event, writes), c)
  {
    hide CompletedLast, Journal, Settle, Abort, HandleRequest;
    var t := Handle(s, event, writes);
    match event
    case RequestEvent(request) => RequestJournal(s, request, writes, c);
    case ParseErrorEvent(id) =>
      SettleRests(s.(log := s.log + [Rejected(id)]));
      SettleLogs(s.(log := s.log + [Rejected(id)]));
      AbortRests(s, multiset{ErrorTo(id)}, 0);
      AbortLogs(s, multiset{ErrorTo(id)}, 0);
      JournalStep(s, t, Rejected(id), c);
    case EndOfInput => JournalStep(s, t, Rejected(NullId), c);
    case ProgressEvent(call, id, progress) =>
      SettleRests(s.(log := s.log + [Progressed(call, id)]));
      SettleLogs(s.(log := s.log + [Progressed(call, id)]));
      SettleRests(s);
      SettleLogs(s);
      AbortRests(s, multiset{}, 0);
      AbortLogs(s, multiset{}, 0);
      JournalStep(s, t, Progressed(call, id), c);
    case CompletedEvent(call, id) =>
      SettleRests(s);
      SettleLogs(s);
      JournalStep(s, t, Rejected(NullId), c);
  }

  lemma {:induction false} CompleteJournal(s: State, call: nat, id: Id, writes: bool, c: nat)
    requires Journal(s, c) && Sound(s) && s.main == Completing(call, id)
    ensures Journal(Complete(s, call, id, writes), c)
  {
    hide Journal, Settle, Abort, CompletedLast, NoneFromWorker;
    var t := Complete(s, call, id, writes);
    var u := s.(active := None, log := s.log + [Answered(call, id)]);
    SettleRests(u);
    SettleLogs(u);
    AbortRests(s.(active := None), multiset{AnswerTo(id)}, 0);
    AbortLogs(s.(active := None), multiset{AnswerTo(id)}, 0);
    CancelIsSameCall(s.active);
    JournalStep(s, t, Answered(call, id), c);
  }

  lemma {:induction false} ReceiveJournal(s: State, c: nat)
    requires Journal(s, c) && s.main == Receiving
    ensures Journal(Receive(s), c)
  {
    hide InOrder, HasStart, HasAnswer, ProgressCount;
  }

  lemma {:induction false} MainJournal(s: State, writes: bool, c: nat)
    requires Journal(s, c) && Sound(s)
    ensures Journal(MainStep(s, writes), c)
  {
    hide Journal, Sound, Handle, Complete, Receive, Reply, Drain;
    var t := MainStep(s, writes);
    match s.main {
      case Draining => DrainJournal(s, c);
      case Receiving => ReceiveJournal(s, c);
      case Handling(event) => HandleJournal(s, event, writes, c);
      case Completing(call, id) => CompleteJournal(s, call, id, writes, c);
      case NeedsHost(request) => JournalStep(s, t, Rejected(NullId), c);
      case HasHost(request) => HostJournal(s, request, writes, c);
      case Returned(_) =>
    }
  }

  lemma {:induction false} DrainJournal(s: State, c: nat)
    requires Journal(s, c) && s.main == Draining
    ensures Journal(Drain(s), c)
  {
    hide Journal, NotePending;
    CancelIsSameCall(s.active);
    JournalStep(s, Drain(s), Rejected(NullId), c);
  }

  lemma {:induction false} HostJournal(s: State, request: Request, writes: bool, c: nat)
    requires Journal(s, c) && Sound(s) && s.main == HasHost(request)
    ensures Journal(Reply(s.(host := Free), request, writes), c)
  {
    hide Journal, Sound, Reply;
    ReplyRests(s.(host := Free), request, writes);
    ReplyLogs(s.(host := Free), request, writes);
    JournalStep(s, Reply(s.(host := Free), request, writes), Replied(request.id), c);
  }

  lemma {:induction false} ReaderJournal(s: State, c: nat)
    requires Journal(s, c)
    requires s.reader.SendingEvent? ==> !s.reader.event.FromWorker()
    ensures Journal(ReaderSend(s), c)
  {
    hide InOrder, HasStart, HasAnswer, ProgressCount, QueuedProgress, OwedForEvent;
    if s.reader.SendingEvent? { QueueAppend(s.events, s.reader.event, c); }
  }

  lemma {:induction false} WorkerJournal(s: State, progress: Progress, c: nat)
    requires Journal(s, c) && Sound(s)
    ensures Journal(WorkerLock(s), c) && Journal(WorkerFinish(s), c) && Journal(WorkerProgress(s, progress), c)
  {
    hide InOrder, HasStart, HasAnswer, ProgressCount, QueuedProgress, EventsOk, Progress.Shortened;
  }

  lemma {:induction false} WorkerSendJournal(s: State, c: nat)
    requires Journal(s, c) && Sound(s)
    ensures Journal(WorkerSend(s), c)
  {
    hide InOrder, HasStart, HasAnswer, ProgressCount, QueuedProgress, EventsOk;
    if s.worker.Some? {
      var w := s.worker.value;
      QueueAppend(s.events, CompletedEvent(w.call, w.id), c);
      if w.pc.SendingProgress? { QueueAppend(s.events, ProgressEvent(w.call, w.id, w.pc.progress), c); }
    }
  }
}
