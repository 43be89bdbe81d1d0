/** Undo and redo: the cursor is recomputed from the log each time, and when that works. */
module HistoryCursor {
  import opened Wrappers
  import opened Text
  import opened HistoryModel
  import opened HistoryEvents
  import opened HistoryOperations
  import opened HistoryAcceptance
  import opened HistoryRuns

  /** The cursor replayed from the log is on the timeline and its position is the active snapshot. */
  ghost predicate Reproduces(x: Session) {
    CursorInRange(x.log) && Positions(x.log)[Cursor(x.log)].snapshot == x.state.active
  }

  lemma {:induction false} AppendEvent(log: seq<Event>, e: Event)
    ensures !MovesCursor(e) ==>
      Positions(log + [e]) == Positions(log) + [Position(e.ordinal, e.active)] && Cursor(log + [e]) == |Positions(log)|
    ensures MovesCursor(e) ==> Positions(log + [e]) == Positions(log)
    ensures e.operation.Undo? ==> Cursor(log + [e]) == Cursor(log) - 1
    ensures e.operation.Redo? ==> Cursor(log + [e]) == Cursor(log) + 1
  {
    assert (log + [e])[..|log|] == log;
  }

  /** Any new work puts the cursor back on the newest position. */
  lemma {:induction false} NewWorkReproduces(x: Session, e: Event)
    requires !MovesCursor(e) && Apply(x.state, e).Ok?
    ensures Reproduces(Session(Apply(x.state, e).value, x.log + [e]))
    ensures Cursor(x.log + [e]) == |Positions(x.log + [e])| - 1
  {
    hide Positions, Cursor, Apply, ValidFeatures, ValidNamed;
    AppendEvent(x.log, e);
    ApplySound(x.state, e);
  }

  function Neighbour(log: seq<Event>, direction: Direction): int {
    if direction == Backward then Cursor(log) - 1 else Cursor(log) + 1
  }

  /** A cursor move can only be built where the log reproduces the state, and it names a position on that side. */
  lemma {:induction false} MoveTarget(s: State, log: seq<Event>, direction: Direction) returns (t: nat)
    requires CursorTarget(s, log, direction).Ok?
    ensures Reproduces(Session(s, log)) && t < |Positions(log)|
    ensures CursorTarget(s, log, direction).value == Positions(log)[t]
    ensures Positions(log)[t].snapshot != s.active
    ensures direction == Backward ==> t < Cursor(log) && forall j :: t < j < Cursor(log) ==> Positions(log)[j].snapshot == s.active
    ensures direction == Forward ==> Cursor(log) < t && forall j :: Cursor(log) < j < t ==> Positions(log)[j].snapshot == s.active
  {
    hide Positions, Cursor, NearestBefore, NearestFrom;
    var positions, cursor := Positions(log), Cursor(log);
    t := if direction == Backward then NearestBefore(positions, s.active, cursor).value
         else NearestFrom(positions, s.active, cursor + 1).value;
  }

  /**
   * On any accepted log, whoever wrote it: after an accepted undo or redo the log still reproduces the active
   * snapshot exactly when the neighbouring position held a different snapshot, that is when the move was one step.
   */
  lemma {:induction false} MoveReproducesIff(x: Session, direction: Direction)
    requires MoveCursor(x.state, x.log, direction).Ok?
    requires Apply(x.state, MoveCursor(x.state, x.log, direction).value).Ok?
    ensures 0 <= Neighbour(x.log, direction) < |Positions(x.log)|
    ensures var e := MoveCursor(x.state, x.log, direction).value;
      Reproduces(Session(Apply(x.state, e).value, x.log + [e])) <==>
        Positions(x.log)[Neighbour(x.log, direction)].snapshot != x.state.active
  {
    hide Positions, Cursor, CursorTarget, Apply, RecoveryName;
    var e := MoveCursor(x.state, x.log, direction).value;
    var t := MoveTarget(x.state, x.log, direction);
    ApplySound(x.state, e);
    AppendEvent(x.log, e);
  }

  // ---------- Runs of edits, undos and redos ----------

  predicate EditsAndMoves(commands: seq<Command>) {
    forall c :: c in commands ==> MakesSnapshot(c) || c.MoveBack? || c.MoveForward?
  }

  /** Each timeline position has the revision name of its own ordinal, and ordinals increase. */
  ghost predicate DistinctPositions(log: seq<Event>) {
    && (forall i :: 0 <= i < |Positions(log)| ==> Positions(log)[i].snapshot.revisionId == RevisionName(Positions(log)[i].ordinal))
    && (forall i :: 0 <= i < |Positions(log)| ==> Positions(log)[i].ordinal <= |log|)
    && (forall i, j :: 0 <= i < j < |Positions(log)| ==> Positions(log)[i].ordinal < Positions(log)[j].ordinal)
  }

  /** Every name in use was generated for an ordinal already reached. */
  ghost predicate NamesAreOld(s: State) {
    forall n :: n in s.named ==> exists kind, m: nat :: m <= s.ordinal && n == RecoveryName(kind, m)
  }

  ghost predicate Walkable(x: Session) {
    Reproduces(x) && DistinctPositions(x.log) && NamesAreOld(x.state) && Replay(x.log) == Ok(x.state)
  }

  lemma {:induction false} RevisionNamesDiffer(m: nat, n: nat)
    requires m != n
    ensures RevisionName(m) != RevisionName(n)
  {
    if RevisionName(m) == RevisionName(n) { NumberedNameInjective("history-revision", m, "history-revision", n); }
  }

  lemma {:induction false} NextNameFree(s: State, kind: string)
    requires NamesAreOld(s)
    ensures RecoveryName(kind, s.ordinal + 1) !in s.named
  {
    if RecoveryName(kind, s.ordinal + 1) in s.named {
      var k, m: nat :| m <= s.ordinal && RecoveryName(kind, s.ordinal + 1) == RecoveryName(k, m);
      NumberedNameInjective("recovered-before-" + kind, s.ordinal + 1, "recovered-before-" + k, m);
    }
  }

  lemma {:induction false} PositionsDiffer(log: seq<Event>, i: nat, j: nat)
    requires DistinctPositions(log) && i < |Positions(log)| && j < |Positions(log)| && i != j
    ensures Positions(log)[i].snapshot != Positions(log)[j].snapshot
  {
    hide RevisionName, Positions;
    RevisionNamesDiffer(Positions(log)[i].ordinal, Positions(log)[j].ordinal);
  }

  /**
   * On a walkable session undo fails only at the first position and only with NothingToUndo, redo only at the
   * newest and only with NothingToRedo; otherwise the move is built for exactly the neighbouring position.
   */
  lemma {:induction false} MovesAreExact(x: Session, direction: Direction)
    requires Walkable(x)
    ensures var r := MoveCursor(x.state, x.log, direction);
      var n := Neighbour(x.log, direction);
      if 0 <= n < |Positions(x.log)|
      then r.Ok? && r.value.active == Positions(x.log)[n].snapshot
           && (if direction == Backward then r.value.operation.Undo? else r.value.operation.Redo?)
      else r == Err(if direction == Backward then NothingToUndo else NothingToRedo)
  {
    hide Positions, Cursor, RecoveryName, DistinctPositions, NearestBefore, NearestFrom, Replay;
    EndsHere(x);
    NextNameFree(x.state, if direction == Backward then "undo" else "redo");
    var n := Neighbour(x.log, direction);
    if 0 <= n < |Positions(x.log)| { PositionsDiffer(x.log, n, Cursor(x.log)); }
  }

  lemma {:induction false} EndsHere(x: Session)
    requires Replay(x.log) == Ok(x.state)
    ensures LogEndsHere(x.state, x.log) && x.state.ordinal == |x.log|
  {
    hide Apply, ValidFeatures, ValidNamed;
    AcceptedLog(x.log);
    if x.log != [] { assert SoundEntry(x.log, |x.log| - 1); }
  }

  lemma {:induction false} OneGeneratedName(h: Digest, s: State, log: seq<Event>, c: Command) returns (kind: string)
    requires MakesSnapshot(c) || c.MoveBack? || c.MoveForward?
    requires Build(h, s, log, c).Ok?
    ensures forall n :: n in Build(h, s, log, c).value.named ==> n in s.named || n == RecoveryName(kind, s.ordinal + 1)
    ensures Build(h, s, log, c).value.ordinal == s.ordinal + 1
  {
    hide RecoveryName, RevisionName, FeatureId, CursorTarget, RecomputedAll;
    kind := if c.MoveBack? then "undo" else if c.MoveForward? then "redo" else "historical-edit";
  }

  lemma {:induction false} ExecutedNames(h: Digest, x: Session, c: Command)
    requires NamesAreOld(x.state) && (MakesSnapshot(c) || c.MoveBack? || c.MoveForward?)
    requires Build(h, x.state, x.log, c).Ok? && Apply(x.state, Build(h, x.state, x.log, c).value).Ok?
    ensures NamesAreOld(Execute(h, x, c).state)
  {
    hide RecoveryName, Build, Apply, ValidFeatures, ValidNamed;
    var named := Build(h, x.state, x.log, c).value.named;
    var kind := OneGeneratedName(h, x.state, x.log, c);
    ApplySound(x.state, Build(h, x.state, x.log, c).value);
    forall n | n in named ensures exists k, m: nat :: m <= x.state.ordinal + 1 && n == RecoveryName(k, m) {
      if n in x.state.named {
        var k, m: nat :| m <= x.state.ordinal && n == RecoveryName(k, m);
      }
    }
  }

  lemma {:induction false} ExecuteStaysWalkable(h: Digest, x: Session, c: Command)
    requires Walkable(x) && (MakesSnapshot(c) || c.MoveBack? || c.MoveForward?)
    ensures Walkable(Execute(h, x, c))
  {
    hide RevisionName, RecoveryName, Positions, Cursor, Build, Apply, Replay, DistinctPositions, NamesAreOld, MoveCursor;
    var built := Build(h, x.state, x.log, c);
    if built.Ok? && Apply(x.state, built.value).Ok? {
      ExecutedNames(h, x, c);
      ReplayExtends(x.log, built.value);
      if MakesSnapshot(c) {
        NewRevisionName(h, x, c);
        NewWorkReproduces(x, built.value);
        NewPositionDistinct(x, built.value);
      } else {
        var direction := if c.MoveBack? then Backward else Forward;
        MoveStays(h, x, c, direction);
      }
    }
  }

  lemma {:induction false} NewPositionDistinct(x: Session, e: Event)
    requires Walkable(x) && !MovesCursor(e) && e.ordinal == x.state.ordinal + 1
    requires e.active.revisionId == RevisionName(x.state.ordinal + 1)
    ensures DistinctPositions(x.log + [e])
  {
    hide RevisionName, Positions, Cursor, Replay;
    EndsHere(x);
    AppendEvent(x.log, e);
  }

  lemma {:induction false} MoveStays(h: Digest, x: Session, c: Command, direction: Direction)
    requires Walkable(x) && c == (if direction == Backward then MoveBack else MoveForward)
    requires Build(h, x.state, x.log, c).Ok? && Apply(x.state, Build(h, x.state, x.log, c).value).Ok?
    ensures var e := Build(h, x.state, x.log, c).value;
      && DistinctPositions(x.log + [e]) && Reproduces(Session(Apply(x.state, e).value, x.log + [e]))
      && Positions(x.log + [e]) == Positions(x.log) && Cursor(x.log + [e]) == Neighbour(x.log, direction)
  {
    hide RevisionName, Positions, Cursor, Apply, Replay, MoveCursor;
    var e := Build(h, x.state, x.log, c).value;
    MovesAreExact(x, direction);
    AppendEvent(x.log, e);
    MoveReproducesIff(x, direction);
    var n := Neighbour(x.log, direction);
    if n != Cursor(x.log) { PositionsDiffer(x.log, n, Cursor(x.log)); }
  }

  /** In every run of initializations, edits, undos and redos the cursor is exact. */
  lemma {:induction false} RunStaysWalkable(h: Digest, commands: seq<Command>)
    requires EditsAndMoves(commands)
    ensures Walkable(Run(h, commands))
  {
    hide Execute, Walkable;
    if commands == [] {
      EmptyWalkable();
    } else {
      var n := |commands| - 1;
      RunStaysWalkable(h, commands[..n]);
      ExecuteStaysWalkable(h, Run(h, commands[..n]), commands[n]);
    }
  }

  lemma {:induction false} EmptyWalkable()
    ensures Walkable(Session(INITIAL, []))
  {
    NonemptyRevision(0);
  }

  /** The main result on single moves: in such a run, at every point, undo and redo do exactly one step or report the end. */
  lemma {:induction false} RunMovesAreExact(h: Digest, commands: seq<Command>, direction: Direction)
    requires EditsAndMoves(commands)
    ensures var x := Run(h, commands);
      var r := MoveCursor(x.state, x.log, direction);
      var n := Neighbour(x.log, direction);
      && Reproduces(x)
      && (0 <= n < |Positions(x.log)| ==>
           r.Ok? && Apply(x.state, r.value).Ok? && r.value.active == Positions(x.log)[n].snapshot)
      && (!(0 <= n < |Positions(x.log)|) ==> r == Err(if direction == Backward then NothingToUndo else NothingToRedo))
  {
    hide Execute, MoveCursor, Apply, Positions, Cursor, Run;
    RunStaysWalkable(h, commands);
    var x := Run(h, commands);
    MovesAreExact(x, direction);
    if MoveCursor(x.state, x.log, direction).Ok? { MoveAccepted(h, commands, direction); }
  }

  // ---------- Many steps ----------

  function Times(c: Command, k: nat): (r: seq<Command>)
    ensures |r| == k && forall x :: x in r ==> x == c
  {
    if k == 0 then [] else Times(c, k - 1) + [c]
  }

  function Step(direction: Direction): Command {
    if direction == Backward then MoveBack else MoveForward
  }

  function Ahead(log: seq<Event>, direction: Direction, k: nat): int {
    if direction == Backward then Cursor(log) - k else Cursor(log) + k
  }

  /** `k` moves in one direction walk `k` positions of the same timeline. */
  lemma {:induction false} ManyMoves(h: Digest, commands: seq<Command>, direction: Direction, k: nat)
    requires EditsAndMoves(commands)
    requires var x := Run(h, commands); 0 <= Ahead(x.log, direction, k) < |Positions(x.log)|
    ensures var x, y := Run(h, commands), Run(h, commands + Times(Step(direction), k));
      && Positions(y.log) == Positions(x.log) && Cursor(y.log) == Ahead(x.log, direction, k)
      && y.state.active == Positions(x.log)[Ahead(x.log, direction, k)].snapshot
      && EditsAndMoves(commands + Times(Step(direction), k))
  {
    hide Execute, Positions, Cursor, Walkable;
    var all := commands + Times(Step(direction), k);
    RunStaysWalkable(h, commands);
    WalkableReproduces(Run(h, commands));
    if k == 0 {
      assert all == commands;
    } else {
      ManyMoves(h, commands, direction, k - 1);
      var pre := commands + Times(Step(direction), k - 1);
      assert all == pre + [Step(direction)];
      assert all[..|all| - 1] == pre;
      RunStaysWalkable(h, pre);
      OneMove(h, pre, direction);
    }
  }

  lemma {:induction false} WalkableReproduces(x: Session)
    requires Walkable(x)
    ensures Reproduces(x)
  {
  }

  lemma {:induction false} OneMove(h: Digest, pre: seq<Command>, direction: Direction)
    requires EditsAndMoves(pre)
    requires var x := Run(h, pre); 0 <= Neighbour(x.log, direction) < |Positions(x.log)|
    ensures var x := Run(h, pre);
      var y := Execute(h, x, Step(direction));
      && Positions(y.log) == Positions(x.log) && Cursor(y.log) == Neighbour(x.log, direction)
      && y.state.active == Positions(x.log)[Neighbour(x.log, direction)].snapshot
  {
    hide Positions, Cursor, Apply, MoveCursor, Run, DistinctPositions, NamesAreOld;
    var x := Run(h, pre);
    RunStaysWalkable(h, pre);
    RunMovesAreExact(h, pre, direction);
    MoveStays(h, x, Step(direction), direction);
  }

  /** `k` undos and then `k` redos restore the exact snapshot, and in between the k-th previous one was active. */
  lemma {:induction false} UndoThenRedo(h: Digest, commands: seq<Command>, k: nat)
    requires EditsAndMoves(commands) && k <= Cursor(Run(h, commands).log)
    ensures var x := Run(h, commands);
      var back := Run(h, commands + Times(MoveBack, k));
      var again := Run(h, commands + Times(MoveBack, k) + Times(MoveForward, k));
      && CursorInRange(x.log)
      && back.state.active == Positions(x.log)[Cursor(x.log) - k].snapshot
      && again.state.active == x.state.active
  {
    hide Run, Positions, Cursor, Times, EditsAndMoves, MoveCursor, Apply;
    RunMovesAreExact(h, commands, Backward);
    ManyMoves(h, commands, Backward, k);
    ManyMoves(h, commands + Times(MoveBack, k), Forward, k);
  }

  /**
   * Undoing new work returns to what was active before it exactly when there was nothing to redo then: after an undo,
   * the next undo of new work brings back the undone snapshot instead.
   */
  lemma {:induction false} NewWorkThenUndo(h: Digest, commands: seq<Command>, c: Command)
    requires EditsAndMoves(commands) && MakesSnapshot(c)
    requires var x := Run(h, commands);
      Build(h, x.state, x.log, c).Ok? && Apply(x.state, Build(h, x.state, x.log, c).value).Ok?
    ensures var x := Run(h, commands);
      Run(h, commands + [c] + [MoveBack]).state.active == x.state.active <==>
        MoveCursor(x.state, x.log, Forward) == Err(NothingToRedo)
  {
    hide Run, Execute, Positions, Cursor, Apply, MoveCursor, Build, DistinctPositions, NamesAreOld;
    var x := Run(h, commands);
    var e := Build(h, x.state, x.log, c).value;
    var y := Run(h, commands + [c]);
    RunStaysWalkable(h, commands);
    RunStep(h, commands, c);
    NewRevisionName(h, x, c);
    AppendEvent(x.log, e);
    ExecutedIs(h, x, c);
    OneMove(h, commands + [c], Backward);
    RunStep(h, commands + [c], MoveBack);
    MovesAreExact(x, Forward);
    var last: nat := |Positions(x.log)| - 1;
    assert Positions(y.log)[last] == Positions(x.log)[last];
    if last != Cursor(x.log) { PositionsDiffer(x.log, last, Cursor(x.log)); }
  }

  lemma {:induction false} ExecutedIs(h: Digest, x: Session, c: Command)
    requires Build(h, x.state, x.log, c).Ok? && Apply(x.state, Build(h, x.state, x.log, c).value).Ok?
    ensures Execute(h, x, c).log == x.log + [Build(h, x.state, x.log, c).value]
  {
    hide Build, Apply;
  }

  // ---------- Where single steps fail ----------

  lemma {:induction false} RunStep(h: Digest, commands: seq<Command>, c: Command)
    ensures Run(h, commands + [c]) == Execute(h, Run(h, commands), c)
  {
    assert (commands + [c])[..|commands|] == commands;
  }

  lemma {:induction false} Initialized(h: Digest, bracket: string, dims: Dimensions)
    requires bracket != "" && dims.Positive()
    ensures var x := Run(h, [Init(bracket, dims)]);
      && Positions(x.log) == [Position(0, GENESIS), Position(1, x.state.active)] && Cursor(x.log) == 1
      && x.state.named == map[] && x.state.active != GENESIS && x.state.ordinal == 1 && ValidState(x.state)
      && x.state.active.features == BracketFeatures(h, bracket, dims)
  {
    hide RevisionName, Positions, Cursor, Apply, WithParts, ValidFeatures, FeatureId;
    var start := Session(INITIAL, []);
    var e := Initialize(h, INITIAL, bracket, dims).value;
    NothingIsValid();
    InitializeAccepted(h, INITIAL, bracket, dims);
    ApplySound(INITIAL, e);
    AppendEvent([], e);
    assert Positions([]) == [Position(0, GENESIS)] by { NoPositions(); }
    assert [] + [e] == [e];
    RunStep(h, [], Init(bracket, dims));
    assert [] + [Init(bracket, dims)] == [Init(bracket, dims)];
    BracketShape(h, bracket, dims, Base);
    assert FeatureId(bracket, Base) in e.active.features;
    assert map[] + BracketFeatures(h, bracket, dims) == BracketFeatures(h, bracket, dims);
  }

  lemma {:induction false} NoPositions()
    ensures Positions([]) == [Position(0, GENESIS)]
  {
  }

  /**
   * Naming a revision and then undoing loses the cursor: the undo steps over the duplicate snapshot while the replayed
   * cursor moves one position, so from then on every undo and redo is refused.
   */
  lemma {:induction false} NameThenUndoLosesCursor(h: Digest, bracket: string, dims: Dimensions, name: string)
    requires bracket != "" && dims.Positive() && name != "" && name != RecoveryName("undo", 3)
    ensures var x := Run(h, [Init(bracket, dims), NameRevision(name), MoveBack]);
      && |x.log| == 3 && x.state.active == GENESIS && !Reproduces(x)
      && forall d :: MoveCursor(x.state, x.log, d) == Err(InvalidEvent(SnapshotNotReproduced))
  {
    hide RevisionName, RecoveryName, Positions, Cursor, Apply, ValidFeatures, WithParts;
    Initialized(h, bracket, dims);
    var one, two, all := [Init(bracket, dims)], [Init(bracket, dims), NameRevision(name)],
                         [Init(bracket, dims), NameRevision(name), MoveBack];
    assert two == one + [NameRevision(name)] && all == two + [MoveBack];
    RunStep(h, one, NameRevision(name));
    RunStep(h, two, MoveBack);
    var x1, x2, x3 := Run(h, one), Run(h, two), Run(h, all);
    var named := CreateRevision(x1.state, name).value;
    CreateAccepted(x1.state, name);
    ApplySound(x1.state, named);
    AppendEvent(x1.log, named);
    LogsGrow(h, one);
    LogsGrow(h, two);
    UndoNamed(h, two, x2);
    LogsGrow(h, all);
  }

  lemma {:induction false} LogsGrow(h: Digest, commands: seq<Command>)
    ensures var x := Run(h, commands); Replay(x.log) == Ok(x.state) && LogEndsHere(x.state, x.log) && x.state.ordinal == |x.log|
  {
    hide Run;
    RunReplays(h, commands);
    EndsHere(Run(h, commands));
  }

  lemma {:induction false} UndoNamed(h: Digest, commands: seq<Command>, x: Session)
    requires x == Run(h, commands) && LogEndsHere(x.state, x.log) && x.state.ordinal == |x.log| == 2
    requires Positions(x.log) == [Position(0, GENESIS), Position(1, x.state.active), Position(2, x.state.active)]
    requires Cursor(x.log) == 2 && x.state.active != GENESIS && RecoveryName("undo", 3) !in x.state.named
    ensures var y := Execute(h, x, MoveBack);
      && |y.log| == 3 && y.state.active == GENESIS && !Reproduces(y)
      && forall d :: MoveCursor(y.state, y.log, d) == Err(InvalidEvent(SnapshotNotReproduced))
  {
    hide RecoveryName, Positions, Cursor, Apply, Run;
    var e := MoveCursor(x.state, x.log, Backward);
    assert NearestBefore(Positions(x.log), x.state.active, 2) == Some(0) by {
      assert NearestBefore(Positions(x.log), x.state.active, 1) == Some(0);
    }
    assert e.Ok? && e.value.active == GENESIS;
    MoveAccepted(h, commands, Backward);
    ApplySound(x.state, e.value);
    AppendEvent(x.log, e.value);
  }
}
