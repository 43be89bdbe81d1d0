/** The operations that build events, as functions of the current state (and, for undo and redo, of the log). */
module HistoryOperations {
  import opened Wrappers
  import opened Text
  import opened HistoryModel
  import opened HistoryGraph
  import opened HistoryEvaluation
  import opened HistoryEvents

  // ---------- The five features of a bracket ----------

  datatype Part = Base | Bend | Finish | IndependentBase | IndependentFinish

  const PARTS: seq<Part> := [Base, Bend, Finish, IndependentBase, IndependentFinish]

  datatype Dimensions = Dimensions(length: F64, width: F64, height: F64, thickness: F64)
  {
    predicate Positive() {
      length.IsPositive() && width.IsPositive() && height.IsPositive() && thickness.IsPositive()
    }

    function Of(part: Part): F64 {
      match part
      case Base => length
      case Bend => width
      case Finish => height
      case IndependentBase => thickness
      case IndependentFinish => height
    }
  }

  function Suffix(part: Part): string {
    match part
    case Base => "-base"
    case Bend => "-bend"
    case Finish => "-finish"
    case IndependentBase => "-independent-base"
    case IndependentFinish => "-independent-finish"
  }

  function FeatureId(bracket: string, part: Part): string {
    bracket + Suffix(part)
  }

  function DependencyPart(part: Part): Option<Part> {
    match part
    case Base => None
    case Bend => Some(Base)
    case Finish => Some(Bend)
    case IndependentBase => None
    case IndependentFinish => Some(IndependentBase)
  }

  function PartDependencies(bracket: string, part: Part): seq<string> {
    match DependencyPart(part)
    case None => []
    case Some(d) => [FeatureId(bracket, d)]
  }

  function BracketIds(bracket: string): seq<string> {
    [FeatureId(bracket, Base), FeatureId(bracket, Bend), FeatureId(bracket, Finish),
     FeatureId(bracket, IndependentBase), FeatureId(bracket, IndependentFinish)]
  }

  /** Insert one bracket feature, fingerprinted from the features inserted before it. */
  function WithPart(h: Digest, bracket: string, dims: Dimensions, features: FeatureMap, part: Part): FeatureMap {
    var f := Feature(FeatureId(bracket, part), PartDependencies(bracket, part), dims.Of(part), None, None, CurrentValid, None);
    features[f.id := f.(fingerprint := Some(GeometryFingerprint(h, f, features)))]
  }

  function WithParts(h: Digest, bracket: string, dims: Dimensions, parts: seq<Part>): FeatureMap {
    if parts == [] then map[] else
    WithPart(h, bracket, dims, WithParts(h, bracket, dims, parts[..|parts| - 1]), parts[|parts| - 1])
  }

  function BracketFeatures(h: Digest, bracket: string, dims: Dimensions): FeatureMap {
    WithParts(h, bracket, dims, PARTS)
  }

  function WithValue(features: FeatureMap, bracket: string, dims: Dimensions, part: Part): FeatureMap {
    var id := FeatureId(bracket, part);
    if id in features then features[id := features[id].(inputValue := dims.Of(part))] else features
  }

  function WithValues(features: FeatureMap, bracket: string, dims: Dimensions, parts: seq<Part>): FeatureMap {
    if parts == [] then features else
    WithValue(WithValues(features, bracket, dims, parts[..|parts| - 1]), bracket, dims, parts[|parts| - 1])
  }

  function Recomputed(h: Digest, features: FeatureMap, bracket: string, part: Part): FeatureMap {
    var id := FeatureId(bracket, part);
    if id in features then features[id := EvaluatedFeature(h, features[id], features)] else features
  }

  function RecomputedAll(h: Digest, features: FeatureMap, bracket: string, parts: seq<Part>): FeatureMap {
    if parts == [] then features else
    Recomputed(h, RecomputedAll(h, features, bracket, parts[..|parts| - 1]), bracket, parts[|parts| - 1])
  }

  // ---------- Generated names ----------

  function RevisionName(ordinal: nat): string {
    "history-revision" + "-" + Decimal(ordinal)
  }

  function RecoveryName(kind: string, ordinal: nat): string {
    ("recovered-before-" + kind) + "-" + Decimal(ordinal)
  }

  /** Keep the active snapshot under a generated name before replacing it; the name must be free. */
  function Displace(s: State, kind: string, provenance: string): Result<(string, NamedMap), HistoryError> {
    var name := RecoveryName(kind, s.ordinal + 1);
    if name in s.named then Err(DuplicateName(name))
    else Ok((name, s.named[name := NamedRevision(name, s.active, provenance, None)]))
  }

  function NextEvent(s: State, operation: Operation, active: Snapshot, named: NamedMap): Event {
    Event(HISTORY_EVENT_SCHEMA, s.ordinal + 1, operation, active, named)
  }

  // ---------- Operations ----------

  datatype Evaluation = Evaluation(
    dirty: seq<string>, evaluated: seq<string>, blocked: seq<string>, diagnostics: seq<Diagnostic>)

  type Edited = (Event, Evaluation)

  function Initialize(h: Digest, s: State, bracket: string, dims: Dimensions): Result<Event, HistoryError> {
    if bracket == "" || !dims.Positive() then Err(InvalidValue)
    else Ok(InitialEvent(s, bracket, dims, BracketFeatures(h, bracket, dims)))
  }

  function InitialEvent(s: State, bracket: string, dims: Dimensions, features: FeatureMap): Event {
    var active := Snapshot(RevisionName(s.ordinal + 1), s.active.features + features);
    NextEvent(s, InitializeLBracket(bracket, dims.length, dims.width, dims.height, dims.thickness), active, s.named)
  }

  function EditBracket(h: Digest, s: State, bracket: string, dims: Dimensions): Result<Edited, HistoryError> {
    if bracket == "" || !dims.Positive()
      || dims.thickness.value >= dims.length.value || dims.thickness.value >= dims.width.value
    then Err(InvalidValue) else
    var ids := BracketIds(bracket);
    if exists id :: id in ids && id !in s.active.features then Err(FeatureNotFound(bracket)) else
    var displaced := Displace(s, "historical-edit", "historical-edit:" + bracket);
    if displaced.Err? then Err(displaced.error) else
    var (name, named) := displaced.value;
    var features := RecomputedAll(h, WithValues(s.active.features, bracket, dims, PARTS), bracket, PARTS);
    var operation := HistoricalEdit(FeatureId(bracket, Base), "dimensions", dims.length, ids, ids, [], [], Some(name));
    Ok((NextEvent(s, operation, Snapshot(RevisionName(s.ordinal + 1), features), named), Evaluation(ids, ids, [], [])))
  }

  function EditFeature(h: Digest, s: State, id: string, parameter: string, value: F64): Result<Edited, HistoryError> {
    if !value.Finite? then Err(InvalidValue) else
    if id !in s.active.features then Err(FeatureNotFound(id)) else
    var displaced := Displace(s, "historical-edit", "historical-edit:" + id);
    if displaced.Err? then Err(displaced.error) else
    var (name, named) := displaced.value;
    var dirty := Reachable(s.active.features, id);
    if dirty.Err? then Err(dirty.error) else
    var order := Order(s.active.features, dirty.value);
    if order.Err? then Err(order.error) else
    OrderSound(s.active.features, set x | x in dirty.value);
    var p := EvaluateAll(h, Edit(id, parameter, value, dirty.value), s.active.features, order.value);
    var operation := HistoricalEdit(id, parameter, value, dirty.value, p.evaluated, p.blocked, p.diagnostics, Some(name));
    Ok((NextEvent(s, operation, Snapshot(RevisionName(s.ordinal + 1), p.features), named),
        Evaluation(dirty.value, p.evaluated, p.blocked, p.diagnostics)))
  }

  function CreateRevision(s: State, name: string): Result<Event, HistoryError> {
    if name == "" then Err(EmptyName)
    else if name in s.named then Err(DuplicateName(name))
    else Ok(NextEvent(s, CreateNamedRevision(name), s.active,
                      s.named[name := NamedRevision(name, s.active, "explicit-create", None)]))
  }

  function RestoreRevision(s: State, name: string): Result<Event, HistoryError> {
    if name !in s.named then Err(NamedRevisionNotFound(name)) else
    var displaced := Displace(s, "restore", "restore:" + name);
    if displaced.Err? then Err(displaced.error) else
    var (displacedName, named) := displaced.value;
    Ok(NextEvent(s, RestoreNamedRevision(name, Some(displacedName)), s.named[name].snapshot, named))
  }

  function RestoreRevisionFor(s: State, featureId: string, name: string): Result<Event, HistoryError> {
    if name !in s.named then Err(NamedRevisionNotFound(name)) else
    var features := s.named[name].snapshot.features;
    if featureId !in s.active.features && featureId !in features then Err(FeatureNotFound(featureId))
    else if featureId !in features then Err(FeatureNotInNamedRevision(featureId, name))
    else RestoreRevision(s, name)
  }

  // ---------- Undo and redo ----------

  datatype Direction = Backward | Forward

  /** A point of the timeline: the ordinal of a sealed transaction and the snapshot it made active. */
  datatype Position = Position(ordinal: nat, snapshot: Snapshot)

  predicate MovesCursor(event: Event) {
    event.operation.Undo? || event.operation.Redo?
  }

  /** The genesis and every event that is not itself an undo or a redo. */
  function Positions(log: seq<Event>): (r: seq<Position>)
    ensures |r| >= 1 && r[0] == Position(0, GENESIS)
  {
    if log == [] then [Position(0, GENESIS)] else
    var last := log[|log| - 1];
    var rest := Positions(log[..|log| - 1]);
    if MovesCursor(last) then rest else rest + [Position(last.ordinal, last.active)]
  }

  /** How far the undos and redos at the end of the log have moved the cursor from the newest position. */
  function TrailingShift(log: seq<Event>): int {
    if log == [] then 0 else
    match log[|log| - 1].operation
    case Undo(_, _, _) => TrailingShift(log[..|log| - 1]) - 1
    case Redo(_, _, _) => TrailingShift(log[..|log| - 1]) + 1
    case _ => 0
  }

  function Cursor(log: seq<Event>): int {
    |Positions(log)| - 1 + TrailingShift(log)
  }

  predicate CursorInRange(log: seq<Event>) {
    0 <= Cursor(log) < |Positions(log)|
  }

  /** The nearest position before `i` whose snapshot is not `active`. */
  function NearestBefore(positions: seq<Position>, active: Snapshot, i: nat): (r: Option<nat>)
    requires i <= |positions|
    ensures r.Some? ==> r.value < i && positions[r.value].snapshot != active
    ensures r.Some? ==> forall j :: r.value < j < i ==> positions[j].snapshot == active
    ensures r.None? ==> forall j :: 0 <= j < i ==> positions[j].snapshot == active
  {
    if i == 0 then None
    else if positions[i - 1].snapshot != active then Some(i - 1)
    else NearestBefore(positions, active, i - 1)
  }

  /** The nearest position from `i` on whose snapshot is not `active`. */
  function NearestFrom(positions: seq<Position>, active: Snapshot, i: nat): (r: Option<nat>)
    requires i <= |positions|
    ensures r.Some? ==> i <= r.value < |positions| && positions[r.value].snapshot != active
    ensures r.Some? ==> forall j :: i <= j < r.value ==> positions[j].snapshot == active
    ensures r.None? ==> forall j :: i <= j < |positions| ==> positions[j].snapshot == active
    decreases |positions| - i
  {
    if i == |positions| then None
    else if positions[i].snapshot != active then Some(i)
    else NearestFrom(positions, active, i + 1)
  }

  predicate LogEndsHere(s: State, log: seq<Event>) {
    if log == [] then s.ordinal == 0 else log[|log| - 1].ordinal == s.ordinal
  }

  function CursorTarget(s: State, log: seq<Event>, direction: Direction): Result<Position, HistoryError> {
    if !LogEndsHere(s, log) then Err(InvalidEvent(LogEndsElsewhere)) else
    if !CursorInRange(log) then Err(InvalidEvent(CursorLeftTimeline)) else
    var positions, cursor := Positions(log), Cursor(log);
    if positions[cursor].snapshot != s.active then Err(InvalidEvent(SnapshotNotReproduced)) else
    match direction
    case Backward =>
      var target := NearestBefore(positions, s.active, cursor);
      if target.None? then Err(NothingToUndo) else Ok(positions[target.value])
    case Forward =>
      var target := NearestFrom(positions, s.active, cursor + 1);
      if target.None? then Err(NothingToRedo) else Ok(positions[target.value])
  }

  function MoveCursor(s: State, log: seq<Event>, direction: Direction): Result<Event, HistoryError> {
    var target := CursorTarget(s, log, direction);
    if target.Err? then Err(target.error) else MoveTo(s, direction, target.value)
  }

  function MoveTo(s: State, direction: Direction, target: Position): Result<Event, HistoryError> {
    var kind := if direction == Backward then "undo" else "redo";
    var displaced := Displace(s, kind, kind);
    if displaced.Err? then Err(displaced.error) else
    var (name, named) := displaced.value;
    var Position(ordinal, snapshot) := target;
    var operation := if direction == Backward then Undo(ordinal, snapshot.revisionId, name)
                     else Redo(ordinal, snapshot.revisionId, name);
    Ok(NextEvent(s, operation, snapshot, named))
  }

  // ---------- Sessions ----------

  datatype Command =
    | Init(bracket: string, dims: Dimensions)
    | ReviseBracket(bracket: string, dims: Dimensions)
    | ReviseFeature(id: string, parameter: string, value: F64)
    | NameRevision(name: string)
    | RestoreNamed(name: string)
    | RestoreNamedFor(featureId: string, name: string)
    | MoveBack
    | MoveForward

  function Build(h: Digest, s: State, log: seq<Event>, command: Command): Result<Event, HistoryError> {
    match command
    case Init(b, d) => Initialize(h, s, b, d)
    case ReviseBracket(b, d) =>
      var r := EditBracket(h, s, b, d); if r.Err? then Err(r.error) else Ok(r.value.0)
    case ReviseFeature(id, p, v) =>
      var r := EditFeature(h, s, id, p, v); if r.Err? then Err(r.error) else Ok(r.value.0)
    case NameRevision(n) => CreateRevision(s, n)
    case RestoreNamed(n) => RestoreRevision(s, n)
    case RestoreNamedFor(f, n) => RestoreRevisionFor(s, f, n)
    case MoveBack => MoveCursor(s, log, Backward)
    case MoveForward => MoveCursor(s, log, Forward)
  }

  /** A state together with the log that led to it. */
  datatype Session = Session(state: State, log: seq<Event>)

  /** Build the event and apply it; a command that fails at either point leaves the session as it was. */
  function Execute(h: Digest, x: Session, command: Command): Session {
    var event := Build(h, x.state, x.log, command);
    if event.Err? then x else
    var next := Apply(x.state, event.value);
    if next.Err? then x else Session(next.value, x.log + [event.value])
  }

  /** A run: any list of commands from the empty history. */
  function Run(h: Digest, commands: seq<Command>): Session {
    if commands == [] then Session(INITIAL, []) else
    Execute(h, Run(h, commands[..|commands| - 1]), commands[|commands| - 1])
  }

  /** Every state of a run is the one its own log replays to. */
  lemma {:induction false} RunReplays(h: Digest, commands: seq<Command>)
    ensures var x := Run(h, commands); Replay(x.log) == Ok(x.state)
  {
    hide Apply, Build;
    if commands != [] {
      var pre := commands[..|commands| - 1];
      RunReplays(h, pre);
      var x := Run(h, pre);
      var event := Build(h, x.state, x.log, commands[|commands| - 1]);
      if event.Ok? { ReplayExtends(x.log, event.value); }
    }
  }
}
