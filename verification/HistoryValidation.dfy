/** What it takes for an event to be accepted, written as facts about its fields. */
module HistoryValidation {
  import opened Wrappers
  import opened Text
  import opened HistoryModel
  import opened HistoryGraph
  import opened HistoryEvents

  ghost predicate InitializationFacts(event: Event) {
    event.operation.InitializeLBracket? ==> event.operation.bracketId != "" && exists k :: k in event.active.features
  }

  /** The edited feature is there, the replaced snapshot is named, and the reported lists fit together and the snapshot. */
  ghost predicate EditFacts(event: Event) {
    var op, features := event.operation, event.active.features;
    op.HistoricalEdit? ==>
      && op.featureId in features
      && (exists n :: n in event.named && op.preservedName == Some(n))
      && (forall x :: x in op.dirty ==> x in features)
      && (forall x :: x in op.evaluated ==> x in op.dirty && x !in op.blocked)
      && (forall x :: x in op.blocked ==> x in op.dirty)
      && (forall d :: d in op.diagnostics ==> d.featureId in features && features[d.featureId].status == Broken)
  }

  ghost predicate CreationFacts(event: Event) {
    event.operation.CreateNamedRevision? ==>
      exists n :: n in event.named && n == event.operation.name
        && event.named[n].snapshot == event.active && event.named[n].provenance == "explicit-create"
  }

  ghost predicate RestoreFacts(event: Event) {
    event.operation.RestoreNamedRevision? ==>
      exists n :: n in event.named && n == event.operation.name && event.named[n].snapshot == event.active
  }

  ghost predicate MoveFacts(event: Event) {
    var op := event.operation;
    op.Undo? || op.Redo? ==>
      && op.restoredOrdinal < event.ordinal
      && op.restoredRevisionId == event.active.revisionId != ""
      && exists n :: n in event.named && n == op.preserved
  }

  ghost predicate OperationFacts(event: Event) {
    InitializationFacts(event) && EditFacts(event) && CreationFacts(event) && RestoreFacts(event) && MoveFacts(event)
  }

  lemma {:induction false} InitializationFaultIff(event: Event)
    requires event.operation.InitializeLBracket?
    ensures OperationFault(event).None? <==> InitializationFacts(event)
  {
    assert event.active.features == map[] <==> !exists k :: k in event.active.features;
  }

  lemma {:induction false} EditFaultIff(event: Event)
    requires event.operation.HistoricalEdit?
    ensures OperationFault(event).None? <==> EditFacts(event)
  {
  }

  lemma {:induction false} RevisionFaultIff(event: Event)
    requires event.operation.CreateNamedRevision? || event.operation.RestoreNamedRevision?
    ensures OperationFault(event).None? <==> CreationFacts(event) && RestoreFacts(event)
  {
  }

  lemma {:induction false} MoveFaultIff(event: Event)
    requires event.operation.Undo? || event.operation.Redo?
    ensures OperationFault(event).None? <==> MoveFacts(event)
  {
  }

  lemma {:induction false} OperationFaultIff(event: Event)
    ensures OperationFault(event).None? <==> OperationFacts(event)
  {
    hide OperationFault;
    match event.operation
    case InitializeLBracket(_, _, _, _, _) => InitializationFaultIff(event);
    case HistoricalEdit(_, _, _, _, _, _, _, _) => EditFaultIff(event);
    case CreateNamedRevision(_) => RevisionFaultIff(event);
    case RestoreNamedRevision(_, _) => RevisionFaultIff(event);
    case Undo(_, _, _) => MoveFaultIff(event);
    case Redo(_, _, _) => MoveFaultIff(event);
  }

  /** The features agree with their keys, their values are finite, their dependencies present and their fields consistent. */
  ghost predicate FeatureFacts(features: FeatureMap) {
    forall k :: k in features ==>
      var f := features[k];
      && f.id == k && f.inputValue.Finite?
      && (forall d :: d in f.dependencies ==> d in features)
      && (f.status == CurrentValid <==> f.fingerprint.Some?)
      && (f.status == Broken <==> f.diagnostic.Some?)
      && (f.status == CurrentValid ==> f.lastValid.None?) && (f.status == Broken ==> f.lastValid.Some?)
  }

  /** No nonempty set of features has only members that depend on a member. */
  ghost predicate NoCycle(features: FeatureMap) {
    forall s: set<string> :: s != {} && s <= features.Keys ==>
      exists x :: x in s && forall d :: d in features[x].dependencies ==> d !in s
  }

  ghost predicate SnapshotFacts(snapshot: Snapshot) {
    FeatureFacts(snapshot.features) && NoCycle(snapshot.features)
  }

  ghost predicate NameFacts(named: NamedMap) {
    forall n :: n in named ==> n != "" && named[n].name == n && SnapshotFacts(named[n].snapshot)
  }

  lemma {:induction false} FeatureFactsIff(features: FeatureMap)
    ensures FeatureFacts(features) <==> forall k :: k in features ==> ValidFeature(features, k)
  {
  }

  lemma {:induction false} SnapshotFactsIff(features: FeatureMap)
    ensures ValidFeatures(features) <==> FeatureFacts(features) && NoCycle(features)
  {
    hide FeatureFacts, ValidFeature;
    FeatureFactsIff(features);
    AcyclicIffNoCycle(features);
  }

  lemma {:induction false} AcyclicIffNoCycle(features: FeatureMap)
    ensures Acyclic(features) <==> NoCycle(features)
  {
    forall s: set<string> | s <= features.Keys && s != {}
      ensures Stuck(features, s) <==> !exists x :: x in s && forall d :: d in features[x].dependencies ==> d !in s
    {
    }
  }

  lemma {:induction false} NameFactsIff(named: NamedMap)
    ensures ValidNamed(named) <==> NameFacts(named)
  {
    hide ValidFeatures, FeatureFacts, NoCycle;
    forall n | n in named ensures ValidRevision(named, n) <==> n != "" && named[n].name == n && SnapshotFacts(named[n].snapshot) {
      SnapshotFactsIff(named[n].snapshot.features);
    }
  }

  /** An event is accepted exactly when its schema, ordinal, snapshots and names are right and the facts of its operation hold. */
  lemma {:induction false} AcceptedIff(s: State, event: Event)
    ensures Apply(s, event).Ok? <==>
      && event.schemaVersion == "threeterm.history.event/1" && event.ordinal == s.ordinal + 1
      && SnapshotFacts(event.active) && NameFacts(event.named) && OperationFacts(event)
    ensures Apply(s, event).Ok? ==> Apply(s, event).value == State(event.active, event.named, event.ordinal)
  {
    hide OperationFault, OperationFacts, ValidFeatures, ValidNamed, NameFacts, FeatureFacts, NoCycle;
    OperationFaultIff(event);
    SnapshotFactsIff(event.active.features);
    NameFactsIff(event.named);
  }

  /** So every entry of an accepted log, whoever wrote it, has all of these. */
  lemma {:induction false} LoggedFacts(log: seq<Event>, i: nat)
    requires Replay(log).Ok? && i < |log|
    ensures log[i].schemaVersion == "threeterm.history.event/1" && log[i].ordinal == i + 1
    ensures SnapshotFacts(log[i].active) && NameFacts(log[i].named) && OperationFacts(log[i])
  {
    hide Apply, OperationFacts, SnapshotFacts, NameFacts, ValidFeatures, ValidNamed;
    PrefixAccepted(log, i + 1);
    PrefixAccepted(log, i);
    assert log[..i + 1][..i] == log[..i];
    AcceptedLog(log[..i]);
    AcceptedIff(Replay(log[..i]).value, log[i]);
  }

  /** A revision that claims to be created explicitly but holds another snapshot or another provenance is refused. */
  lemma {:induction false} ForgedCreationRefused(s: State, event: Event)
    requires event.operation.CreateNamedRevision? && event.operation.name in event.named
    requires var r := event.named[event.operation.name]; r.snapshot != event.active || r.provenance != "explicit-create"
    ensures Apply(s, event).Err?
  {
    hide Apply;
    AcceptedIff(s, event);
  }

  // ---------- What a refusal says ----------

  /** What the fault of a single feature stands for. */
  ghost predicate FaultOf(features: FeatureMap, k: string, e: HistoryError)
    requires k in features
  {
    var f := features[k];
    || (e == InvalidEvent(KeyMismatch) && f.id != k)
    || (e == InvalidValue && !f.inputValue.Finite?)
    || (e == InvalidEvent(MissingDependency) && exists d :: d in f.dependencies && d !in features)
    || (e == InvalidEvent(InconsistentStatus) && !StatusConsistent(f))
  }

  lemma {:induction false} FirstFaultTells(features: FeatureMap, keys: seq<string>)
    requires forall k :: k in keys ==> k in features
    ensures FirstFeatureFault(features, keys).Some? ==>
      exists k :: k in features && FaultOf(features, k, FirstFeatureFault(features, keys).value)
  {
    if keys != [] && FeatureFault(features, keys[0]).None? {
      FirstFaultTells(features, keys[1..]);
    } else if keys != [] {
      assert keys[0] in keys && FaultOf(features, keys[0], FeatureFault(features, keys[0]).value);
    }
  }

  /** The error of an invalid snapshot names something wrong with it. */
  lemma {:induction false} SnapshotFaultTells(snapshot: Snapshot)
    ensures var fault := SnapshotFault(snapshot);
      fault.Some? ==>
        || (fault.value == InvalidEvent(DependencyCycle) && FeatureFacts(snapshot.features) && !NoCycle(snapshot.features))
        || (exists k :: k in snapshot.features && FaultOf(snapshot.features, k, fault.value))
  {
    var features := snapshot.features;
    var keys := Sorted(features.Keys);
    SnapshotFaultIs(snapshot);
    if FirstFeatureFault(features, keys).Some? {
      FirstFaultTells(features, keys);
    } else {
      CycleFaultTells(features, keys);
    }
    hide *;
  }

  lemma {:induction false} SnapshotFaultIs(snapshot: Snapshot)
    ensures var features := snapshot.features;
      var fault := FirstFeatureFault(features, Sorted(features.Keys));
      SnapshotFault(snapshot) == if fault.Some? then fault
        else if Acyclic(features) then None else Some(InvalidEvent(DependencyCycle))
    ensures forall k :: k in Sorted(snapshot.features.Keys) <==> k in snapshot.features
  {
    var keys := Sorted(snapshot.features.Keys);
    if FirstFeatureFault(snapshot.features, keys).None? {
      NoFeatureFault(snapshot.features, keys);
      AcyclicIffOrdered(snapshot.features);
    }
    hide FirstFeatureFault, TopologicalOrder, Acyclic, ValidFeature, ValidFeatures;
  }

  lemma {:induction false} CycleFaultTells(features: FeatureMap, keys: seq<string>)
    requires (forall k :: k in keys <==> k in features) && FirstFeatureFault(features, keys).None?
    ensures FeatureFacts(features) && (Acyclic(features) <==> NoCycle(features))
  {
    AllFeatureFacts(features, keys);
    AcyclicIffNoCycle(features);
  }

  lemma {:induction false} AllFeatureFacts(features: FeatureMap, keys: seq<string>)
    requires (forall k :: k in keys <==> k in features) && FirstFeatureFault(features, keys).None?
    ensures FeatureFacts(features)
  {
    hide ValidFeature, FirstFeatureFault;
    NoFeatureFault(features, keys);
    FeatureFactsIff(features);
  }

  /** The schema is looked at first, then the ordinal, then the snapshot. */
  lemma {:induction false} RefusalTells(s: State, event: Event)
    ensures var r := Apply(s, event);
      && (event.schemaVersion != "threeterm.history.event/1" ==> r == Err(InvalidEvent(UnsupportedSchema)))
      && (event.schemaVersion == "threeterm.history.event/1" && event.ordinal != s.ordinal + 1 ==>
            r == Err(InvalidEvent(UnexpectedOrdinal)))
      && (event.schemaVersion == "threeterm.history.event/1" && event.ordinal == s.ordinal + 1 ==>
            SnapshotFault(event.active).Some? ==> r == Err(SnapshotFault(event.active).value))
  {
    hide SnapshotFault, NamedFault, OperationFault;
  }
}
