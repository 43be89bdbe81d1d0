/** The values of the history engine. */
module HistoryModel {
  import opened Wrappers

  /** A double: a finite value, taken as a real number, or one of the three non-finite values. */
  datatype F64 = Finite(value: real) | PosInf | NegInf | NaN
  {
    predicate IsPositive() { Finite? && value > 0.0 }

    /** The comparison `self <= 0.0`, which NaN fails. */
    predicate NotAboveZero() { NegInf? || (Finite? && value <= 0.0) }
  }

  datatype Status = CurrentValid | Broken | BlockedByFailure | Suppressed

  datatype Diagnostic = Diagnostic(
    code: string, featureId: string, detail: string, affectedIds: seq<string>, recovery: Option<string>)

  datatype Feature = Feature(
    id: string,
    dependencies: seq<string>,
    inputValue: F64,
    fingerprint: Option<string>,
    lastValid: Option<string>,
    status: Status,
    diagnostic: Option<Diagnostic>)

  type FeatureMap = map<string, Feature>

  datatype Snapshot = Snapshot(revisionId: string, features: FeatureMap)

  datatype NamedRevision = NamedRevision(
    name: string, snapshot: Snapshot, provenance: string, logPosition: Option<nat>)

  type NamedMap = map<string, NamedRevision>

  datatype Operation =
    | InitializeLBracket(bracketId: string, length: F64, width: F64, height: F64, thickness: F64)
    | HistoricalEdit(featureId: string, parameter: string, value: F64, dirty: seq<string>, evaluated: seq<string>,
                     blocked: seq<string>, diagnostics: seq<Diagnostic>, preservedName: Option<string>)
    | CreateNamedRevision(name: string)
    | RestoreNamedRevision(name: string, displacedName: Option<string>)
    | Undo(restoredOrdinal: nat, restoredRevisionId: string, preserved: string)
    | Redo(restoredOrdinal: nat, restoredRevisionId: string, preserved: string)

  datatype Event = Event(
    schemaVersion: string, ordinal: nat, operation: Operation, active: Snapshot, named: NamedMap)

  datatype State = State(active: Snapshot, named: NamedMap, ordinal: nat)

  const HISTORY_EVENT_SCHEMA := "threeterm.history.event/1"

  const GENESIS: Snapshot := Snapshot("history-revision-0", map[])

  const INITIAL: State := State(GENESIS, map[], 0)

  /** Why an event or a log is invalid; the message texts are not modelled. */
  datatype Fault =
    | UnsupportedSchema | UnexpectedOrdinal | KeyMismatch | MissingDependency | InconsistentStatus
    | DependencyCycle | InvalidNamedRevision | EmptyInitialization | MissingEditState | AffectedSetMismatch
    | UnbrokenDiagnostic | MissingCreatedRevision | CreatedRevisionMismatch | MissingRestoredRevision
    | RestoredRevisionMismatch | MissingCursorState | LogEndsElsewhere | CursorLeftTimeline | SnapshotNotReproduced

  datatype HistoryError =
    | InvalidEvent(fault: Fault)
    | FeatureNotFound(id: string)
    | DuplicateName(name: string)
    | EmptyName
    | NamedRevisionNotFound(name: string)
    | FeatureNotInNamedRevision(featureId: string, name: string)
    | InvalidValue
    | NothingToUndo
    | NothingToRedo

  /** The text hashed for one feature: its own id, value and dependency count, and its predecessors' fingerprints. */
  datatype Preimage = Preimage(id: string, value: F64, count: nat, predecessors: seq<string>)

  /** SHA-256 over the rendered preimage, left uninterpreted. */
  type Digest = Preimage -> string

  function PredecessorFingerprint(features: FeatureMap, dependency: string): string {
    if dependency in features && features[dependency].fingerprint.Some?
    then features[dependency].fingerprint.value
    else "missing"
  }

  function Predecessors(features: FeatureMap, dependencies: seq<string>): (r: seq<string>)
    ensures |r| == |dependencies|
    ensures forall i :: 0 <= i < |r| ==> r[i] == PredecessorFingerprint(features, dependencies[i])
  {
    seq(|dependencies|, i requires 0 <= i < |dependencies| => PredecessorFingerprint(features, dependencies[i]))
  }

  function GeometryFingerprint(h: Digest, feature: Feature, features: FeatureMap): string {
    h(Preimage(feature.id, feature.inputValue, |feature.dependencies|, Predecessors(features, feature.dependencies)))
  }
}
