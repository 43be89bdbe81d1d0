/** Why a request is answered: its work was done under the Host lock, or it was refused, or it needs no Host. */
module SessionReplies {
  import opened Wrappers
  import opened SessionModel
  import opened SessionCalls
  import opened SessionGuarantees
  import opened SessionCancellation

  /** A tool call that is not the pattern call and gets as far as the Host. */
  ghost predicate WorksInHost(request: Request) {
    request.kind == ToolsCall && !request.namesPattern && request.reachesHost
  }

  ghost predicate HostIsFor(main: Main) {
    main.NeedsHost? || main.HasHost? ==> WorksInHost(main.request)
  }

  /** The main loop holds the Host for this request, and no pattern call runs. */
  ghost predicate AfterWork(s: State, request: Request) {
    s.main == HasHost(request) && s.host == HeldByMain && s.active.None? && WorksInHost(request)
  }

  /** Another call is active, or the arguments of a pattern call are bad, or the request never gets to the Host. */
  ghost predicate AtOnce(s: State, request: Request) {
    s.main == Handling(RequestEvent(request)) &&
    if request.kind != ToolsCall then true
    else if request.namesPattern then !request.argumentsValid || s.active.Some?
    else s.active.Some? || !request.reachesHost
  }

  ghost predicate MayAnswer(s: State, request: Request) {
    !request.isNotification && request.kind != CancelledNotification && (AfterWork(s, request) || AtOnce(s, request))
  }

  /** At one step either no answer is written, or it answers such a request. */
  ghost predicate AnswersOne(s: State, t: State) {
    forall id :: t.log == s.log + [Replied(id)] ==> exists request: Request :: request.id == id && MayAnswer(s, request)
  }

  lemma {:induction false} SettleLog(s: State)
    ensures Settle(s).log == s.log && HostIsFor(Settle(s).main)
  {
  }

  /** What answering does to the log. */
  lemma {:induction false} ReplyLog(s: State, request: Request, writes: bool)
    ensures var t := Reply(s, request, writes);
      t.log == (if writes && !request.isNotification then s.log + [Replied(request.id)] else s.log) && HostIsFor(t.main)
  {
    hide Settle;
    SettleLog(s.(handled := s.handled + 1));
    SettleLog(s.(handled := s.handled + 1, log := s.log + [Replied(request.id)]));
  }

  lemma {:induction false} Answering(s: State, t: State, request: Request)
    requires t.log == s.log || (t.log == s.log + [Replied(request.id)] && MayAnswer(s, request))
    ensures AnswersOne(s, t)
  {
    forall id | t.log == s.log + [Replied(id)] ensures request.id == id {
      assert t.log[|s.log|] == Replied(id);
    }
  }

  lemma {:induction false} OtherEntry(s: State, t: State, e: Entry)
    requires t.log == s.log + [e] && !e.Replied?
    ensures AnswersOne(s, t)
  {
    assert t.log[|s.log|] == e;
  }

  lemma {:induction false} PatternAnswers(s: State, request: Request, writes: bool)
    requires s.main == Handling(RequestEvent(request)) && request.IsPatternCall()
    ensures var t := HandlePattern(s, request, writes); AnswersOne(s, t) && HostIsFor(t.main)
  {
    hide Reply, Settle, AnswersOne;
    var t := HandlePattern(s, request, writes);
    ReplyLog(s.(queuedIds := Without(s.queuedIds, request.id)), request, writes);
    if request.isNotification || !request.argumentsValid || s.active.Some? {
      Answering(s, t, request);
    } else {
      SettleLog(s.(
        queuedIds := Without(s.queuedIds, request.id), pending := Without(s.pending, request.id),
        worker := Some(Worker(s.calls, request.id, request.hasProgressToken, WaitingForHost, 0, None)),
        active := Some(Active(s.calls, request.id, request.id in s.pending)), calls := s.calls + 1,
        log := s.log + [Started(s.calls, request.id)], handled := s.handled + 1));
      OtherEntry(s, t, Started(s.calls, request.id));
    }
  }

  lemma {:induction false} RequestAnswers(s: State, request: Request, writes: bool)
    requires s.main == Handling(RequestEvent(request))
    ensures var t := HandleRequest(s, request, writes); AnswersOne(s, t) && HostIsFor(t.main)
  {
    hide Reply, Settle, AnswersOne, HandlePattern, CancelActive;
    var t := HandleRequest(s, request, writes);
    if request.kind == CancelledNotification {
      SettleLog(s.(handled := s.handled + 1,
        active := if s.active.Some? && Targets(request, s.active.value.id) then CancelActive(s.active) else s.active));
      Answering(s, t, request);
    } else if request.IsPatternCall() {
      PatternAnswers(s, request, writes);
    } else {
      ReplyLog(s, request, writes);
      ReplyLog(s.(queuedIds := Without(s.queuedIds, request.id)), request, writes);
      Answering(s, t, request);
    }
  }

  lemma {:induction false} EventAnswers(s: State, writes: bool)
    requires s.main.Handling? && !s.main.event.RequestEvent?
    ensures var t := MainStep(s, writes); AnswersOne(s, t) && HostIsFor(t.main)
  {
    var e := match s.main.event
      case ParseErrorEvent(id) => Rejected(id)
      case ProgressEvent(call, id, _) => Progressed(call, id)
      case _ => Rejected(NullId);
    EventLog(s, s.main.event, e, writes);
    assert MainStep(s, writes) == Handle(s, s.main.event, writes) by { hide Handle; }
    hide *;
    NoAnswer(s, MainStep(s, writes), e);
  }

  lemma {:induction false} EventLog(s: State, event: RunEvent, e: Entry, writes: bool)
    requires !event.RequestEvent?
    requires event.ParseErrorEvent? ==> e == Rejected(event.errorId)
    requires event.ProgressEvent? ==> e == Progressed(event.call, event.id)
    ensures var t := Handle(s, event, writes); (t.log == s.log || t.log == s.log + [e]) && HostIsFor(t.main)
  {
    hide Settle, HandleRequest, WorksInHost, CancelActive;
    SettleLog(s);
    SettleLog(s.(log := s.log + [e]));
  }

  lemma {:induction false} NoAnswer(s: State, t: State, e: Entry)
    requires (t.log == s.log || t.log == s.log + [e]) && !e.Replied?
    ensures AnswersOne(s, t)
  {
    if t.log != s.log { assert t.log[|s.log|] == e; }
  }

  lemma {:induction false} MainAnswers(s: State, writes: bool)
    requires Sound(s) && HostIsFor(s.main)
    ensures var t := MainStep(s, writes); AnswersOne(s, t) && HostIsFor(t.main)
  {
    hide AnswersOne, HandleRequest, MainStep, Sound, HostIsFor;
    match s.main {
      case Handling(event) =>
        if event.RequestEvent? {
          RequestAnswers(s, event.request, writes);
          assert MainStep(s, writes) == HandleRequest(s, event.request, writes) by { StepHandles(s, event.request, writes); }
        } else {
          EventAnswers(s, writes);
        }
      case HasHost(request) => HostAnswers(s, writes);
      case Completing(_, _) => CompletionAnswers(s, writes);
      case _ =>
        RestAnswers(s, writes);
        NoAnswer(s, MainStep(s, writes), Rejected(NullId));
    }
  }

  lemma {:induction false} StepHandles(s: State, request: Request, writes: bool)
    requires s.main == Handling(RequestEvent(request))
    ensures MainStep(s, writes) == HandleRequest(s, request, writes)
  {
    hide HandleRequest;
  }

  lemma {:induction false} HostAnswers(s: State, writes: bool)
    requires s.main.HasHost? && Sound(s) && HostIsFor(s.main)
    ensures var t := MainStep(s, writes); AnswersOne(s, t) && HostIsFor(t.main)
  {
    hide AnswersOne, HostIsFor, Reply, EventsOk;
    ReplyLog(s.(host := Free), s.main.request, writes);
    assert WorksInHost(s.main.request) by { HostWorks(s.main); }
    Answering(s, MainStep(s, writes), s.main.request);
  }

  lemma {:induction false} HostWorks(main: Main)
    requires main.HasHost? && HostIsFor(main)
    ensures WorksInHost(main.request)
  {
  }

  lemma {:induction false} CompletionAnswers(s: State, writes: bool)
    requires s.main.Completing?
    ensures var t := MainStep(s, writes); AnswersOne(s, t) && HostIsFor(t.main)
  {
    hide Settle, AnswersOne, CancelActive;
    SettleLog(s.(active := None, log := s.log + [Answered(s.main.call, s.main.id)]));
    NoAnswer(s, MainStep(s, writes), Answered(s.main.call, s.main.id));
  }

  lemma {:induction false} RestAnswers(s: State, writes: bool)
    requires s.main.Draining? || s.main.Receiving? || s.main.NeedsHost? || s.main.Returned?
    requires HostIsFor(s.main)
    ensures MainStep(s, writes).log == s.log && HostIsFor(MainStep(s, writes).main)
  {
    hide WorksInHost, CancelActive, NotePending;
  }

  lemma {:induction false} OthersAnswerNothing(s: State, step: Step)
    requires !step.MainMoves? && HostIsFor(s.main)
    ensures Perform(s, step).log == s.log && HostIsFor(Perform(s, step).main)
  {
    hide OwedForEvent, NoteQueued, Progress.Shortened, WorksInHost;
  }

  lemma {:induction false} StepAnswers(s: State, step: Step)
    requires Sound(s) && HostIsFor(s.main)
    ensures AnswersOne(s, Perform(s, step)) && HostIsFor(Perform(s, step).main)
  {
    hide Sound, HostIsFor, MainStep, AnswersOne;
    if step.MainMoves? {
      MainAnswers(s, step.writes);
    } else {
      OthersAnswerNothing(s, step);
      NoAnswer(s, Perform(s, step), Rejected(NullId));
    }
  }

  lemma {:induction false} AlwaysHostFor(input: seq<Frame>, steps: seq<Step>)
    ensures HostIsFor(After(input, steps).main)
  {
    hide Perform, Invariant, Sound;
    if steps != [] {
      var n := |steps| - 1;
      AlwaysHostFor(input, steps[..n]);
      AlwaysSound(input, steps[..n]);
      StepAnswers(After(input, steps[..n]), steps[n]);
    }
  }

  lemma {:induction false} AlwaysSound(input: seq<Frame>, steps: seq<Step>)
    ensures Sound(After(input, steps))
  {
    hide After, Sound;
    AlwaysInvariant(input, steps);
  }

  /**
   * In every interleaving an answer of the main loop answers a request that needs one, and a tool call that works in the
   * Host is answered only while the main loop holds the Host for it, or at once because a pattern call is active.
   */
  lemma {:induction false} AnswersAreDue(input: seq<Frame>, steps: seq<Step>, step: Step, id: Id)
    requires Perform(After(input, steps), step).log == After(input, steps).log + [Replied(id)]
    ensures exists request: Request :: request.id == id && MayAnswer(After(input, steps), request)
  {
    hide After, Perform, Sound, HostIsFor, MayAnswer;
    AlwaysHostFor(input, steps);
    AlwaysSound(input, steps);
    StepAnswers(After(input, steps), step);
  }
}
