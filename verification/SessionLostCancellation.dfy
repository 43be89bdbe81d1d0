/** A cancellation that is lost: it is taken while another call completes, and then only that call is looked at. */
module SessionLostCancellation {
  import opened Wrappers
  import opened SessionModel
  import opened SessionCancellation

  const ONE := Id.Named("1")
  const TWO := Id.Named("2")
  const CALL_ONE := Request(ONE, false, ToolsCall, true, true, true, false, None)
  const CALL_TWO := Request(TWO, false, ToolsCall, true, true, true, false, None)
  const CANCEL_TWO := Request(NullId, true, CancelledNotification, false, false, false, false, Some(TWO))

  const FRAMES: seq<Frame> := [Good(CALL_ONE), Good(CALL_TWO), Good(CANCEL_TWO)]

  function Play(s: State, steps: seq<Step>): State
    decreases |steps|
  {
    if steps == [] then s else Play(Perform(s, steps[0]), steps[1..])
  }

  lemma {:induction false} PlayedAfter(input: seq<Frame>, first: seq<Step>, rest: seq<Step>)
    ensures After(input, first + rest) == Play(After(input, first), rest)
    decreases |rest|
  {
    hide Perform;
    if rest == [] {
      assert first + rest == first;
    } else {
      assert (first + [rest[0]])[..|first|] == first;
      PlayedAfter(input, first + [rest[0]], rest[1..]);
      assert first + rest == first + [rest[0]] + rest[1..];
    }
  }

  lemma {:induction false} PlayOne(s: State, step: Step, rest: seq<Step>)
    ensures Play(s, [step] + rest) == Play(Perform(s, step), rest)
  {
    hide Perform;
    assert ([step] + rest)[1..] == rest;
  }

  lemma {:induction false} PlayThree(s: State, a: Step, b: Step, c: Step)
    ensures Play(s, [a, b, c]) == Perform(Perform(Perform(s, a), b), c)
  {
    hide Perform;
    assert [a, b, c] == [a] + ([b] + [c]) && [c] == [c] + [];
    PlayOne(s, a, [b] + [c]);
    PlayOne(Perform(s, a), b, [c]);
    PlayOne(Perform(Perform(s, a), b), c, []);
  }

  /** What does not change until the second call starts. */
  ghost predicate Running(s: State, calls: nat) {
    s.reader == Reading && s.pending == {} && s.host == Free && !s.shutdown && !s.inputFinished && !s.readFailed && s.calls == calls
  }

  /** The first call is read. */
  const READ_ONE: seq<Step> := [ReaderReads, ReaderSends, MainTimesOut]

  /** The main loop takes and handles the request at the front of the event queue. */
  const HANDLE: seq<Step> := [MainMoves(true), MainMoves(true), MainMoves(true)]

  /** The worker of a call runs to its end. */
  const WORK: seq<Step> := [WorkerLocks, WorkerFinishes, WorkerSends]

  /** The main loop takes the completion; then the second call is read. */
  const TAKE: seq<Step> := [MainMoves(true), MainMoves(true), ReaderReads]

  /** The second call is queued and its cancellation read and queued. */
  const READ_CANCEL: seq<Step> := [ReaderSends, ReaderReads, ReaderSends]

  /** The first call completes, the cancellation is taken, and the answer is written. */
  const COMPLETE: seq<Step> := [MainMoves(true), MainMoves(true), MainMoves(true)]

  ghost predicate QueuedOne(s: State) {
    && Running(s, 0) && s.input == [Good(CALL_TWO), Good(CANCEL_TWO)] && s.events == [RequestEvent(CALL_ONE)] && s.control == []
    && s.queuedIds == {ONE} && s.main == Draining && s.worker.None? && s.active.None?
  }

  ghost predicate StartedOne(s: State) {
    && Running(s, 1) && s.input == [Good(CALL_TWO), Good(CANCEL_TWO)] && s.events == [] && s.control == []
    && s.queuedIds == {} && s.main == Draining && s.active == Some(Active(0, ONE, false))
    && s.worker == Some(Worker(0, ONE, false, WaitingForHost, 0, None))
  }

  ghost predicate FinishedOne(s: State) {
    && Running(s, 1) && s.input == [Good(CALL_TWO), Good(CANCEL_TWO)] && s.events == [CompletedEvent(0, ONE)] && s.control == []
    && s.queuedIds == {} && s.main == Draining && s.active == Some(Active(0, ONE, false)) && s.worker.None?
  }

  ghost predicate TakenOne(s: State) {
    && Running(s.(reader := Reading), 1) && s.input == [Good(CANCEL_TWO)] && s.events == [] && s.control == []
    && s.reader == SendingEvent(RequestEvent(CALL_TWO)) && s.queuedIds == {TWO}
    && s.main == Handling(CompletedEvent(0, ONE)) && s.active == Some(Active(0, ONE, false)) && s.worker.None?
  }

  ghost predicate CancelQueued(s: State) {
    && Running(s, 1) && s.input == [] && s.events == [RequestEvent(CALL_TWO)] && s.control == [Cancellation(CANCEL_TWO)]
    && s.queuedIds == {TWO} && s.main == Handling(CompletedEvent(0, ONE)) && s.active == Some(Active(0, ONE, false)) && s.worker.None?
  }

  ghost predicate AnsweredOne(s: State) {
    && Running(s, 1) && s.input == [] && s.events == [RequestEvent(CALL_TWO)] && s.control == []
    && s.queuedIds == {TWO} && s.main == Draining && s.active.None? && s.worker.None?
  }

  lemma {:induction false} ReadsOne()
    ensures QueuedOne(Play(Start(FRAMES), READ_ONE))
  {
    PlayThree(Start(FRAMES), ReaderReads, ReaderSends, MainTimesOut);
    assert FRAMES[1..] == [Good(CALL_TWO), Good(CANCEL_TWO)];
  }

  lemma {:induction false} StartsOne(s: State)
    requires QueuedOne(s)
    ensures StartedOne(Play(s, HANDLE))
  {
    PlayThree(s, MainMoves(true), MainMoves(true), MainMoves(true));
    var s1 := Perform(s, MainMoves(true));
    assert s1 == s.(main := Receiving);
    var s2 := Perform(s1, MainMoves(true));
    assert s2 == s.(main := Handling(RequestEvent(CALL_ONE)), events := []);
    var none: set<Id> := {};
    assert {ONE} - {ONE} == none && none - {ONE} == none;
  }

  lemma {:induction false} FinishesOne(s: State)
    requires StartedOne(s)
    ensures FinishedOne(Play(s, WORK))
  {
    PlayThree(s, WorkerLocks, WorkerFinishes, WorkerSends);
  }

  lemma {:induction false} TakesOne(s: State)
    requires FinishedOne(s)
    ensures TakenOne(Play(s, TAKE))
  {
    PlayThree(s, MainMoves(true), MainMoves(true), ReaderReads);
    var s1 := Perform(s, MainMoves(true));
    assert s1 == s.(main := Receiving);
    var s2 := Perform(s1, MainMoves(true));
    assert s2 == s.(main := Handling(CompletedEvent(0, ONE)), events := []);
    var none: set<Id> := {};
    assert none + {TWO} == {TWO};
    assert s.input[1..] == [Good(CANCEL_TWO)];
  }

  lemma {:induction false} ReadsCancel(s: State)
    requires TakenOne(s)
    ensures CancelQueued(Play(s, READ_CANCEL))
  {
    PlayThree(s, ReaderSends, ReaderReads, ReaderSends);
    var s1 := Perform(s, ReaderSends);
    assert s1 == s.(events := [RequestEvent(CALL_TWO)], reader := Reading);
    assert s1.input[1..] == [];
  }

  /** Here the cancellation is taken while the named call is queued, and nothing remembers it. */
  lemma {:induction false} CompletesOne(s: State)
    requires CancelQueued(s)
    ensures AnsweredOne(Play(s, COMPLETE))
    ensures var s1 := Perform(s, MainMoves(true));
      TakesCancelOf(s1, MainMoves(true), TWO) && TWO in s1.queuedIds && s1.pending == {}
  {
    PlayThree(s, MainMoves(true), MainMoves(true), MainMoves(true));
    var s1 := Perform(s, MainMoves(true));
    assert s1 == s.(main := Completing(0, ONE));
    var s2 := Perform(s1, MainMoves(true));
    assert s2.control == [] && s2.active == Some(Active(0, ONE, false)) && s2.main == Completing(0, ONE);
  }

  lemma {:induction false} StartsTwo(s: State)
    requires AnsweredOne(s)
    ensures Play(s, HANDLE).active == Some(Active(1, TWO, false))
  {
    PlayThree(s, MainMoves(true), MainMoves(true), MainMoves(true));
    var s1 := Perform(s, MainMoves(true));
    assert s1 == s.(main := Receiving);
    var s2 := Perform(s1, MainMoves(true));
    assert s2 == s.(main := Handling(RequestEvent(CALL_TWO)), events := []);
  }

  const BEFORE: seq<Step> := READ_ONE + HANDLE + WORK + TAKE + READ_CANCEL

  lemma {:induction false} UpToCancel()
    ensures CancelQueued(After(FRAMES, BEFORE))
  {
    hide Play, QueuedOne, StartedOne, FinishedOne, TakenOne, CancelQueued;
    PlayedAfter(FRAMES, [], READ_ONE);
    assert [] + READ_ONE == READ_ONE;
    ReadsOne();
    PlayedAfter(FRAMES, READ_ONE, HANDLE);
    StartsOne(After(FRAMES, READ_ONE));
    PlayedAfter(FRAMES, READ_ONE + HANDLE, WORK);
    FinishesOne(After(FRAMES, READ_ONE + HANDLE));
    PlayedAfter(FRAMES, READ_ONE + HANDLE + WORK, TAKE);
    TakesOne(After(FRAMES, READ_ONE + HANDLE + WORK));
    PlayedAfter(FRAMES, READ_ONE + HANDLE + WORK + TAKE, READ_CANCEL);
    ReadsCancel(After(FRAMES, READ_ONE + HANDLE + WORK + TAKE));
  }

  /**
   * Two calls and a cancellation of the second: it is taken while its call is queued and none waits, but during the
   * completion of the first call, and the second call starts and runs uncancelled.
   */
  lemma {:induction false} CancellationLost()
    ensures var steps := BEFORE + COMPLETE + HANDLE;
      var i := |BEFORE| + 1;
      && TakesCancelOf(At(FRAMES, steps, i), steps[i], TWO)
      && TWO in At(FRAMES, steps, i).queuedIds && At(FRAMES, steps, i).pending == {}
      && After(FRAMES, steps).active == Some(Active(1, TWO, false))
  {
    hide Play, CancelQueued, AnsweredOne, Perform, TakesCancelOf;
    var steps := BEFORE + COMPLETE + HANDLE;
    var i := |BEFORE| + 1;
    UpToCancel();
    CompletesOne(After(FRAMES, BEFORE));
    PlayedAfter(FRAMES, BEFORE, COMPLETE);
    PlayedAfter(FRAMES, BEFORE + COMPLETE, HANDLE);
    StartsTwo(After(FRAMES, BEFORE + COMPLETE));
    assert steps[..i] == BEFORE + [MainMoves(true)] && steps[i] == MainMoves(true);
    assert (BEFORE + [MainMoves(true)])[..|BEFORE|] == BEFORE;
  }
}
