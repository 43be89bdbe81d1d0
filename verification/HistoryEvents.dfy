/** What makes a snapshot, a named revision and an event acceptable, and the application of one event. */
module HistoryEvents {
  import opened Wrappers
  import opened Text
  import opened HistoryModel
  import opened HistoryGraph

  /** The stored fields of a feature agree with its status. */
  predicate StatusConsistent(f: Feature) {
    match f.status
    case CurrentValid => f.fingerprint.Some? && f.lastValid.None? && f.diagnostic.None?
    case Broken => f.fingerprint.None? && f.lastValid.Some? && f.diagnostic.Some?
    case _ => f.fingerprint.None? && f.diagnostic.None?
  }

  predicate ValidFeature(features: FeatureMap, id: string)
    requires id in features
  {
    var f := features[id];
    && f.id == id
    && f.inputValue.Finite?
    && (forall d :: d in f.dependencies ==> d in features)
    && StatusConsistent(f)
  }

  ghost predicate ValidFeatures(features: FeatureMap) {
    (forall id :: id in features ==> ValidFeature(features, id)) && Acyclic(features)
  }

  ghost predicate ValidNamed(named: NamedMap) {
    forall n :: n in named ==> ValidRevision(named, n)
  }

  ghost predicate ValidRevision(named: NamedMap, n: string)
    requires n in named
  {
    n != "" && named[n].name == n && ValidFeatures(named[n].snapshot.features)
  }

  ghost predicate ValidState(s: State) {
    ValidFeatures(s.active.features) && ValidNamed(s.named)
  }

  function FeatureFault(features: FeatureMap, id: string): (r: Option<HistoryError>)
    requires id in features
    ensures r.None? <==> ValidFeature(features, id)
  {
    var f := features[id];
    if f.id != id then Some(InvalidEvent(KeyMismatch))
    else if !f.inputValue.Finite? then Some(InvalidValue)
    else if exists d :: d in f.dependencies && d !in features then Some(InvalidEvent(MissingDependency))
    else if !StatusConsistent(f) then Some(InvalidEvent(InconsistentStatus))
    else None
  }

  function FirstFeatureFault(features: FeatureMap, keys: seq<string>): Option<HistoryError>
    requires forall k :: k in keys ==> k in features
  {
    if keys == [] then None else
    assert keys[0] in keys;
    var fault := FeatureFault(features, keys[0]);
    if fault.Some? then fault else
    FirstFeatureFault(features, keys[1..])
  }

  lemma {:induction false} NoFeatureFault(features: FeatureMap, keys: seq<string>)
    requires forall k :: k in keys ==> k in features
    ensures FirstFeatureFault(features, keys).None? <==> forall k :: k in keys ==> ValidFeature(features, k)
  {
    if keys != [] {
      NoFeatureFault(features, keys[1..]);
      assert keys == [keys[0]] + keys[1..];
    }
  }

  lemma {:induction false} NoNamedFault(named: NamedMap, keys: seq<string>)
    requires forall k :: k in keys ==> k in named
    ensures FirstNamedFault(named, keys).None? <==> forall k :: k in keys ==> ValidRevision(named, k)
  {
    if keys != [] {
      NoNamedFault(named, keys[1..]);
      assert keys == [keys[0]] + keys[1..];
      assert keys[0] in keys;
    }
  }

  function SnapshotFault(snapshot: Snapshot): (r: Option<HistoryError>)
    ensures r.None? <==> ValidFeatures(snapshot.features)
  {
    NoFeatureFault(snapshot.features, Sorted(snapshot.features.Keys));
    var fault := FirstFeatureFault(snapshot.features, Sorted(snapshot.features.Keys));
    if fault.Some? then fault else
    AcyclicIffOrdered(snapshot.features);
    if TopologicalOrder(snapshot.features, snapshot.features.Keys).None? then Some(InvalidEvent(DependencyCycle)) else None
  }

  function FirstNamedFault(named: NamedMap, keys: seq<string>): Option<HistoryError>
    requires forall k :: k in keys ==> k in named
  {
    if keys == [] then None else
    assert keys[0] in keys;
    if keys[0] == "" || named[keys[0]].name != keys[0] then Some(InvalidEvent(InvalidNamedRevision)) else
    var fault := SnapshotFault(named[keys[0]].snapshot);
    if fault.Some? then fault else FirstNamedFault(named, keys[1..])
  }

  function NamedFault(named: NamedMap): (r: Option<HistoryError>)
    ensures r.None? <==> ValidNamed(named)
  {
    NoNamedFault(named, Sorted(named.Keys));
    FirstNamedFault(named, Sorted(named.Keys))
  }

  /** The lists a historical edit reports agree with each other and with the snapshot. */
  predicate AffectedSetsAgree(op: Operation, features: FeatureMap)
    requires op.HistoricalEdit?
  {
    && (forall id :: id in op.evaluated ==> id in op.dirty)
    && (forall id :: id in op.blocked ==> id in op.dirty)
    && (forall id :: id in op.evaluated ==> id !in op.blocked)
    && (forall id :: id in op.dirty ==> id in features)
  }

  predicate DiagnosticsNameBroken(diagnostics: seq<Diagnostic>, features: FeatureMap) {
    forall d :: d in diagnostics ==> d.featureId in features && features[d.featureId].status == Broken
  }

  function OperationFault(event: Event): Option<HistoryError> {
    match event.operation
    case InitializeLBracket(bracketId, _, _, _, _) =>
      if bracketId == "" || event.active.features == map[] then Some(InvalidEvent(EmptyInitialization)) else None
    case HistoricalEdit(featureId, _, _, _, _, _, diagnostics, preservedName) =>
      if featureId !in event.active.features || preservedName.None? || preservedName.value !in event.named then
        Some(InvalidEvent(MissingEditState))
      else if !AffectedSetsAgree(event.operation, event.active.features) then
        Some(InvalidEvent(AffectedSetMismatch))
      else if !DiagnosticsNameBroken(diagnostics, event.active.features) then
        Some(InvalidEvent(UnbrokenDiagnostic))
      else None
    case CreateNamedRevision(name) =>
      if name !in event.named then Some(InvalidEvent(MissingCreatedRevision))
      else if event.named[name].snapshot != event.active || event.named[name].provenance != "explicit-create" then
        Some(InvalidEvent(CreatedRevisionMismatch))
      else None
    case RestoreNamedRevision(name, _) =>
      if name !in event.named then Some(InvalidEvent(MissingRestoredRevision))
      else if event.named[name].snapshot != event.active then Some(InvalidEvent(RestoredRevisionMismatch))
      else None
    case Undo(ordinal, revision, preserved) => CursorFault(event, ordinal, revision, preserved)
    case Redo(ordinal, revision, preserved) => CursorFault(event, ordinal, revision, preserved)
  }

  function CursorFault(event: Event, ordinal: nat, revision: string, preserved: string): Option<HistoryError> {
    if ordinal >= event.ordinal || revision == "" || revision != event.active.revisionId || preserved !in event.named then
      Some(InvalidEvent(MissingCursorState))
    else None
  }

  function EventFault(event: Event): Option<HistoryError> {
    var snapshot := SnapshotFault(event.active);
    if snapshot.Some? then snapshot else
    var named := NamedFault(event.named);
    if named.Some? then named else OperationFault(event)
  }

  function Apply(s: State, event: Event): Result<State, HistoryError> {
    if event.schemaVersion != HISTORY_EVENT_SCHEMA then Err(InvalidEvent(UnsupportedSchema))
    else if event.ordinal != s.ordinal + 1 then Err(InvalidEvent(UnexpectedOrdinal))
    else
      var fault := EventFault(event);
      if fault.Some? then Err(fault.value) else Ok(State(event.active, event.named, event.ordinal))
  }

  /** The state a log leads to from the empty history, if every event is accepted. */
  function Replay(log: seq<Event>): Result<State, HistoryError> {
    if log == [] then Ok(INITIAL) else
    var before := Replay(log[..|log| - 1]);
    if before.Err? then before else Apply(before.value, log[|log| - 1])
  }

  lemma {:induction false} ReplayExtends(log: seq<Event>, event: Event)
    requires Replay(log).Ok?
    ensures Replay(log + [event]) == Apply(Replay(log).value, event)
  {
    assert (log + [event])[..|log|] == log;
  }

  lemma {:induction false} ApplySound(s: State, event: Event)
    requires Apply(s, event).Ok?
    ensures event.ordinal == s.ordinal + 1
    ensures Apply(s, event).value == State(event.active, event.named, event.ordinal)
    ensures ValidFeatures(event.active.features) && ValidNamed(event.named)
  {
  }

  /** An entry of an accepted log: numbered by its position, with valid snapshots. */
  ghost predicate SoundEntry(log: seq<Event>, i: nat)
    requires i < |log|
  {
    log[i].ordinal == i + 1 && ValidFeatures(log[i].active.features) && ValidNamed(log[i].named)
  }

  /** Whoever wrote an accepted log, its states are valid, its ordinals count up and every snapshot in it is valid. */
  lemma {:induction false} AcceptedLog(log: seq<Event>)
    requires Replay(log).Ok?
    ensures ValidState(Replay(log).value) && Replay(log).value.ordinal == |log|
    ensures forall i :: 0 <= i < |log| ==> SoundEntry(log, i)
    ensures Replay(log).value ==
      if log == [] then INITIAL else State(log[|log| - 1].active, log[|log| - 1].named, |log|)
  {
    hide Apply, ValidFeatures, ValidNamed;
    if log == [] {
      assert ValidState(INITIAL) by { NothingIsValid(); }
    } else {
      var pre, last := log[..|log| - 1], log[|log| - 1];
      AcceptedLog(pre);
      ApplySound(Replay(pre).value, last);
      forall i | 0 <= i < |log| ensures SoundEntry(log, i) {
        if i < |pre| { assert SoundEntry(pre, i); }
      }
    }
  }

  lemma {:induction false} NothingIsValid()
    ensures ValidState(INITIAL)
  {
  }

  lemma {:induction false} PrefixAccepted(log: seq<Event>, n: nat)
    requires Replay(log).Ok? && n <= |log|
    ensures Replay(log[..n]).Ok?
  {
    hide Apply;
    if n == |log| {
      assert log[..n] == log;
    } else {
      PrefixAccepted(log[..|log| - 1], n);
      assert log[..|log| - 1][..n] == log[..n];
    }
  }

  // ---------- The validators as the program runs them ----------

  method CheckFeatures(features: FeatureMap, keys: seq<string>) returns (r: Option<HistoryError>)
    requires forall k :: k in keys ==> k in features
    ensures r == FirstFeatureFault(features, keys)
  {
    hide FeatureFault, ValidFeature;
    for n := 0 to |keys|
      invariant FirstFeatureFault(features, keys) == FirstFeatureFault(features, keys[n..])
    {
      assert keys[n..][1..] == keys[n + 1..];
      var fault := FeatureFault(features, keys[n]);
      if fault.Some? { return fault; }
    }
    r := None;
  }

  method ValidateSnapshot(snapshot: Snapshot) returns (r: Option<HistoryError>)
    ensures r == SnapshotFault(snapshot)
  {
    hide FirstFeatureFault, ValidFeature, Acyclic, TopologicalOrder;
    var keys := Sorted(snapshot.features.Keys);
    r := CheckFeatures(snapshot.features, keys);
    if r.Some? { return; }
    assert (set id | id in keys) == snapshot.features.Keys;
    var order := OrderDirty(snapshot.features, keys);
    r := if order.Err? then Some(order.error) else None;
  }

  method CheckRevisions(named: NamedMap, keys: seq<string>) returns (r: Option<HistoryError>)
    requires forall k :: k in keys ==> k in named
    ensures r == FirstNamedFault(named, keys)
  {
    hide SnapshotFault, ValidFeatures;
    for n := 0 to |keys|
      invariant FirstNamedFault(named, keys) == FirstNamedFault(named, keys[n..])
    {
      assert keys[n..][1..] == keys[n + 1..];
      if keys[n] == "" || named[keys[n]].name != keys[n] { return Some(InvalidEvent(InvalidNamedRevision)); }
      var fault := ValidateSnapshot(named[keys[n]].snapshot);
      if fault.Some? { return fault; }
    }
    r := None;
  }

  method ValidateNamedRevisions(named: NamedMap) returns (r: Option<HistoryError>)
    ensures r == NamedFault(named)
  {
    r := CheckRevisions(named, Sorted(named.Keys));
  }

  method ValidateEvent(event: Event) returns (r: Option<HistoryError>)
    ensures r == EventFault(event)
  {
    r := ValidateSnapshot(event.active);
    if r.Some? { return; }
    r := ValidateNamedRevisions(event.named);
    if r.Some? { return; }
    r := OperationFault(event);
  }
}
