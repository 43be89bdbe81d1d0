/** Whole runs: what every session keeps, and which commands a session accepts. */
module HistoryRuns {
  import opened Wrappers
  import opened Text
  import opened HistoryModel
  import opened HistoryGraph
  import opened HistoryEvaluation
  import opened HistoryEvents
  import opened HistoryOperations
  import opened HistoryAcceptance

  /** A position holds the genesis or the snapshot of a logged event. */
  lemma {:induction false} PositionsComeFromLog(log: seq<Event>, i: nat) returns (k: int)
    requires i < |Positions(log)|
    ensures -1 <= k < |log|
    ensures Positions(log)[i] ==
      if k == -1 then Position(0, GENESIS) else Position(log[k].ordinal, log[k].active)
  {
    if log == [] {
      k := -1;
    } else {
      var n := |log| - 1;
      var rest := Positions(log[..n]);
      if i < |rest| {
        k := PositionsComeFromLog(log[..n], i);
      } else {
        k := n;
      }
    }
  }

  /** A moved cursor lands on the genesis or on a logged snapshot other than the active one. */
  lemma {:induction false} TargetComesFromLog(s: State, log: seq<Event>, direction: Direction) returns (k: int)
    requires CursorTarget(s, log, direction).Ok?
    ensures -1 <= k < |log|
    ensures CursorTarget(s, log, direction).value ==
      if k == -1 then Position(0, GENESIS) else Position(log[k].ordinal, log[k].active)
    ensures CursorTarget(s, log, direction).value.snapshot != s.active
  {
    var positions, cursor := Positions(log), Cursor(log);
    var target := if direction == Backward then NearestBefore(positions, s.active, cursor).value
                  else NearestFrom(positions, s.active, cursor + 1).value;
    k := PositionsComeFromLog(log, target);
  }

  // ---------- Acceptance of the remaining commands ----------

  lemma {:induction false} CreateAccepted(s: State, name: string)
    requires ValidState(s) && CreateRevision(s, name).Ok?
    ensures Apply(s, CreateRevision(s, name).value).Ok?
  {
    hide ValidFeatures;
    var event := CreateRevision(s, name).value;
    forall n | n in event.named ensures ValidRevision(event.named, n) {
      if n != name { assert ValidRevision(s.named, n); }
    }
    Accepted(s, event);
  }

  lemma {:induction false} RestoreAccepted(s: State, name: string)
    requires ValidState(s) && RestoreRevision(s, name).Ok?
    ensures Apply(s, RestoreRevision(s, name).value).Ok?
  {
    hide ValidFeatures, RecoveryName;
    var event := RestoreRevision(s, name).value;
    assert ValidRevision(s.named, name);
    DisplaceKeeps(s, "restore", "restore:" + name);
    Accepted(s, event);
  }

  /** An undo or redo is accepted exactly when the snapshot it restores has a revision id. */
  lemma {:induction false} MoveAcceptedIff(s: State, log: seq<Event>, direction: Direction)
    requires Replay(log) == Ok(s) && MoveCursor(s, log, direction).Ok?
    ensures Apply(s, MoveCursor(s, log, direction).value).Ok? <==>
      CursorTarget(s, log, direction).value.snapshot.revisionId != ""
  {
    hide ValidFeatures, RecoveryName, CursorTarget, SnapshotFault, NamedFault;
    var event := MoveCursor(s, log, direction).value;
    AcceptedLog(log);
    var k := TargetComesFromLog(s, log, direction);
    if k >= 0 { assert SoundEntry(log, k); } else { NothingIsValid(); }
    var kind := if direction == Backward then "undo" else "redo";
    DisplaceKeeps(s, kind, kind);
    if CursorTarget(s, log, direction).value.snapshot.revisionId != "" { Accepted(s, event); }
  }

  // ---------- What a command can put into a session ----------

  /** Every snapshot a session can still reach: the active one, the named ones and the logged ones. */
  ghost predicate Everywhere(x: Session, good: Snapshot -> bool) {
    && good(x.state.active)
    && (forall n :: n in x.state.named ==> good(x.state.named[n].snapshot))
    && (forall i :: 0 <= i < |x.log| ==> good(x.log[i].active))
  }

  predicate MakesSnapshot(c: Command) {
    c.Init? || c.ReviseBracket? || c.ReviseFeature?
  }

  /** The named revisions of an event are the old ones, and possibly the active snapshot under a free name. */
  lemma {:induction false} NamedGrows(h: Digest, s: State, log: seq<Event>, c: Command)
    requires Build(h, s, log, c).Ok?
    ensures var named := Build(h, s, log, c).value.named;
      && (forall n :: n in s.named ==> n in named && named[n] == s.named[n])
      && (forall n :: n in named && n !in s.named ==> named[n].snapshot == s.active)
      && (!c.Init? ==> exists n :: n in named && n !in s.named && named[n].snapshot == s.active)
  {
    hide Initialize, EditBracket, EditFeature, CreateRevision, RestoreRevision, MoveCursor;
    match c {
      case Init(b, d) => InitializeKeepsNames(h, s, b, d);
      case ReviseBracket(b, d) => EditBracketKeepsNames(h, s, b, d);
      case ReviseFeature(id, p, v) => EditFeatureKeepsNames(h, s, id, p, v);
      case NameRevision(n) => CreateKeepsNames(s, n);
      case RestoreNamed(n) => RestoreKeepsNames(s, n);
      case RestoreNamedFor(_, n) => RestoreKeepsNames(s, n);
      case MoveBack => MoveKeepsNames(s, log, Backward);
      case MoveForward => MoveKeepsNames(s, log, Forward);
    }
  }

  /** Nothing named is lost, and one new name keeps the active snapshot. */
  ghost predicate KeepsNames(s: State, named: NamedMap) {
    && (forall n :: n in s.named ==> n in named && named[n] == s.named[n])
    && (forall n :: n in named && n !in s.named ==> named[n].snapshot == s.active)
    && (exists n :: n in named && n !in s.named && named[n].snapshot == s.active)
  }

  lemma {:induction false} DisplaceKeepsNames(s: State, kind: string, provenance: string)
    requires Displace(s, kind, provenance).Ok?
    ensures KeepsNames(s, Displace(s, kind, provenance).value.1)
  {
    hide RecoveryName;
    var (name, named) := Displace(s, kind, provenance).value;
    assert name in named && name !in s.named;
  }

  lemma {:induction false} InitializeKeepsNames(h: Digest, s: State, bracket: string, dims: Dimensions)
    requires Initialize(h, s, bracket, dims).Ok?
    ensures Initialize(h, s, bracket, dims).value.named == s.named
  {
    hide RevisionName, BracketFeatures;
  }

  lemma {:induction false} EditBracketKeepsNames(h: Digest, s: State, bracket: string, dims: Dimensions)
    requires EditBracket(h, s, bracket, dims).Ok?
    ensures KeepsNames(s, EditBracket(h, s, bracket, dims).value.0.named)
  {
    hide RevisionName, FeatureId, Displace, WithValues, RecomputedAll, KeepsNames;
    DisplaceKeepsNames(s, "historical-edit", "historical-edit:" + bracket);
  }

  lemma {:induction false} EditFeatureKeepsNames(h: Digest, s: State, id: string, parameter: string, value: F64)
    requires EditFeature(h, s, id, parameter, value).Ok?
    ensures KeepsNames(s, EditFeature(h, s, id, parameter, value).value.0.named)
  {
    hide RevisionName, Displace, Reachable, Order, EvaluateAll, KeepsNames;
    DisplaceKeepsNames(s, "historical-edit", "historical-edit:" + id);
  }

  lemma {:induction false} CreateKeepsNames(s: State, name: string)
    requires CreateRevision(s, name).Ok?
    ensures KeepsNames(s, CreateRevision(s, name).value.named)
  {
    var named := CreateRevision(s, name).value.named;
    assert name in named && name !in s.named;
  }

  lemma {:induction false} RestoreKeepsNames(s: State, name: string)
    requires RestoreRevision(s, name).Ok?
    ensures KeepsNames(s, RestoreRevision(s, name).value.named)
  {
    hide Displace, KeepsNames;
    DisplaceKeepsNames(s, "restore", "restore:" + name);
  }

  lemma {:induction false} MoveKeepsNames(s: State, log: seq<Event>, direction: Direction)
    requires MoveCursor(s, log, direction).Ok?
    ensures KeepsNames(s, MoveCursor(s, log, direction).value.named)
  {
    hide Displace, KeepsNames, CursorTarget;
    var kind := if direction == Backward then "undo" else "redo";
    DisplaceKeepsNames(s, kind, kind);
  }

  /** Only the three editing commands bring a new snapshot; all others activate one the session already has. */
  lemma {:induction false} ActiveComesFromSession(h: Digest, x: Session, c: Command, good: Snapshot -> bool)
    requires Everywhere(x, good) && good(GENESIS)
    requires Build(h, x.state, x.log, c).Ok? && !MakesSnapshot(c)
    ensures good(Build(h, x.state, x.log, c).value.active)
  {
    hide RecoveryName, CursorTarget;
    if c.MoveBack? {
      var k := TargetComesFromLog(x.state, x.log, Backward);
    } else if c.MoveForward? {
      var k := TargetComesFromLog(x.state, x.log, Forward);
    }
  }

  /** A property of snapshots that the genesis and every new snapshot have is had by every snapshot of the session. */
  lemma {:induction false} ExecuteKeeps(h: Digest, x: Session, c: Command, good: Snapshot -> bool)
    requires Everywhere(x, good) && good(GENESIS)
    requires MakesSnapshot(c) && Build(h, x.state, x.log, c).Ok? && Apply(x.state, Build(h, x.state, x.log, c).value).Ok?
      ==> good(Build(h, x.state, x.log, c).value.active)
    ensures Everywhere(Execute(h, x, c), good)
  {
    hide Build, Apply;
    var built := Build(h, x.state, x.log, c);
    if built.Ok? {
      NamedGrows(h, x.state, x.log, c);
      if !MakesSnapshot(c) { ActiveComesFromSession(h, x, c, good); }
      if Apply(x.state, built.value).Ok? { ApplySound(x.state, built.value); }
    }
  }

  // ---------- Every built event is accepted ----------

  lemma {:induction false} NonemptyRevision(n: nat)
    ensures RevisionName(n) != "" && GENESIS.revisionId == RevisionName(0)
  {
    assert Decimal(0) == "0";
  }

  lemma {:induction false} NewRevisionName(h: Digest, x: Session, c: Command)
    requires MakesSnapshot(c) && Build(h, x.state, x.log, c).Ok?
    ensures Build(h, x.state, x.log, c).value.active.revisionId == RevisionName(x.state.ordinal + 1)
    ensures Build(h, x.state, x.log, c).value.ordinal == x.state.ordinal + 1
    ensures !MovesCursor(Build(h, x.state, x.log, c).value)
  {
    hide RevisionName, Initialize, EditBracket, EditFeature;
    match c {
      case Init(b, d) => InitializeNames(h, x.state, b, d);
      case ReviseBracket(b, d) => EditBracketNames(h, x.state, b, d);
      case ReviseFeature(id, p, v) => EditFeatureNames(h, x.state, id, p, v);
    }
  }

  ghost predicate NewlyNamed(s: State, event: Event) {
    event.active.revisionId == RevisionName(s.ordinal + 1) && event.ordinal == s.ordinal + 1 && !MovesCursor(event)
  }

  lemma {:induction false} InitializeNames(h: Digest, s: State, bracket: string, dims: Dimensions)
    requires Initialize(h, s, bracket, dims).Ok?
    ensures NewlyNamed(s, Initialize(h, s, bracket, dims).value)
  {
    hide RevisionName, BracketFeatures;
  }

  lemma {:induction false} EditBracketNames(h: Digest, s: State, bracket: string, dims: Dimensions)
    requires EditBracket(h, s, bracket, dims).Ok?
    ensures NewlyNamed(s, EditBracket(h, s, bracket, dims).value.0)
  {
    hide RevisionName, FeatureId, Displace, WithValues, RecomputedAll;
  }

  lemma {:induction false} EditFeatureNames(h: Digest, s: State, id: string, parameter: string, value: F64)
    requires EditFeature(h, s, id, parameter, value).Ok?
    ensures NewlyNamed(s, EditFeature(h, s, id, parameter, value).value.0)
  {
    hide RevisionName, Displace, Reachable, Order, EvaluateAll;
  }

  lemma {:induction false} RunNamesRevisions(h: Digest, commands: seq<Command>)
    ensures Everywhere(Run(h, commands), (x: Snapshot) => x.revisionId != "")
  {
    hide Build, Apply, RevisionName, Execute;
    var good := (x: Snapshot) => x.revisionId != "";
    NonemptyRevision(0);
    if commands != [] {
      var n := |commands| - 1;
      RunNamesRevisions(h, commands[..n]);
      var x := Run(h, commands[..n]);
      if MakesSnapshot(commands[n]) && Build(h, x.state, x.log, commands[n]).Ok? {
        NewRevisionName(h, x, commands[n]);
        NonemptyRevision(x.state.ordinal + 1);
      }
      ExecuteKeeps(h, x, commands[n], good);
    }
  }

  /**
   * In every run, every event that is built is accepted, except a feature edit that breaks something
   * which held no current fingerprint; those are exactly the edits that are rejected.
   */
  lemma {:induction false} RunAccepts(h: Digest, commands: seq<Command>, c: Command)
    ensures var x := Run(h, commands);
      var built := Build(h, x.state, x.log, c);
      built.Ok? ==>
        (Apply(x.state, built.value).Ok? <==>
          (c.ReviseFeature? ==>
            BreaksOnlyCurrent(x.state.active.features, EditFeature(h, x.state, c.id, c.parameter, c.value).value.1.diagnostics)))
  {
    var x := Run(h, commands);
    var built := Build(h, x.state, x.log, c);
    RunReplays(h, commands);
    if built.Ok? {
      BuiltAccepted(h, x, c, commands);
    }
  }

  lemma {:induction false} BuiltAccepted(h: Digest, x: Session, c: Command, commands: seq<Command>)
    requires Replay(x.log) == Ok(x.state) && x == Run(h, commands)
    requires Build(h, x.state, x.log, c).Ok?
    ensures c.ReviseFeature? ==> EditFeature(h, x.state, c.id, c.parameter, c.value).Ok?
    ensures Apply(x.state, Build(h, x.state, x.log, c).value).Ok? <==>
      (c.ReviseFeature? ==>
        BreaksOnlyCurrent(x.state.active.features, EditFeature(h, x.state, c.id, c.parameter, c.value).value.1.diagnostics))
  {
    hide Apply, Initialize, EditBracket, EditFeature, CreateRevision, RestoreRevision, MoveCursor, ValidState, Run;
    AcceptedLog(x.log);
    match c {
      case Init(b, d) => InitializeAccepted(h, x.state, b, d);
      case ReviseBracket(b, d) => EditBracketAccepted(h, x.state, b, d);
      case ReviseFeature(id, p, v) => EditFeatureAcceptedIff(h, x.state, id, p, v);
      case NameRevision(n) => CreateAccepted(x.state, n);
      case RestoreNamed(n) => RestoreAccepted(x.state, n);
      case RestoreNamedFor(_, n) => RestoreAccepted(x.state, n);
      case MoveBack => MoveAccepted(h, commands, Backward);
      case MoveForward => MoveAccepted(h, commands, Forward);
    }
  }

  lemma {:induction false} MoveAccepted(h: Digest, commands: seq<Command>, direction: Direction)
    requires var x := Run(h, commands); MoveCursor(x.state, x.log, direction).Ok?
    ensures var x := Run(h, commands); Apply(x.state, MoveCursor(x.state, x.log, direction).value).Ok?
  {
    hide Apply, CursorTarget;
    var x := Run(h, commands);
    RunReplays(h, commands);
    RunNamesRevisions(h, commands);
    NonemptyRevision(0);
    MoveAcceptedIff(x.state, x.log, direction);
    var k := TargetComesFromLog(x.state, x.log, direction);
  }
}
