/** What a built event records, field by field, and when it is built. */
module HistoryRecords {
  import opened Wrappers
  import opened Text
  import opened HistoryModel
  import opened HistoryGraph
  import opened HistoryEvaluation
  import opened HistoryEvents
  import opened HistoryOperations
  import opened HistoryAcceptance
  import opened HistoryFingerprints
  import opened HistoryCollisions

  ghost predicate Header(s: State, event: Event) {
    event.schemaVersion == "threeterm.history.event/1" && event.ordinal == s.ordinal + 1
  }

  /** The replaced snapshot is kept under a new name, and nothing else about the names changes. */
  ghost predicate Preserved(s: State, event: Event, name: string, provenance: string) {
    && name !in s.named
    && event.named == s.named[name := NamedRevision(name, s.active, provenance, None)]
  }

  ghost predicate NewSnapshot(s: State, event: Event) {
    event.active.revisionId == "history-revision-" + Decimal(s.ordinal + 1)
  }

  lemma {:induction false} NamesWritten(n: nat)
    ensures RevisionName(n) == "history-revision-" + Decimal(n)
    ensures RecoveryName("historical-edit", n) == "recovered-before-historical-edit-" + Decimal(n)
    ensures RecoveryName("restore", n) == "recovered-before-restore-" + Decimal(n)
    ensures RecoveryName("undo", n) == "recovered-before-undo-" + Decimal(n)
    ensures RecoveryName("redo", n) == "recovered-before-redo-" + Decimal(n)
  {
    assert "history-revision" + "-" == "history-revision-";
    assert "recovered-before-" + "historical-edit" + "-" == "recovered-before-historical-edit-";
    assert "recovered-before-" + "restore" + "-" == "recovered-before-restore-";
    assert "recovered-before-" + "undo" + "-" == "recovered-before-undo-";
    assert "recovered-before-" + "redo" + "-" == "recovered-before-redo-";
  }

  ghost predicate IsPositive(value: F64) { value.Finite? && value.value > 0.0 }

  ghost predicate IsDiagnosed(d: Diagnostic, id: string, parameter: string, dirty: seq<string>) {
    d == Diagnostic("historical_geometry_invalid", id, parameter + " must produce positive material", dirty,
                    Some("correct_geometry_or_restore_revision"))
  }

  // ---------- A single-feature edit ----------

  /** The lists of an edit event: exactly the dependents, told apart by what the event's own snapshot says of them. */
  ghost predicate EditLists(before: FeatureMap, after: FeatureMap, op: Operation, id: string, parameter: string) {
    op.HistoricalEdit?
    && (forall x :: x in op.dirty <==> DependsOn(before, x, id))
    && (forall x :: x in op.evaluated <==> x in op.dirty && x in after && after[x].status == CurrentValid)
    && (forall x :: x in op.blocked <==> x in op.dirty && x in after && after[x].status == BlockedByFailure)
    && |op.diagnostics| <= 1
    && (forall x :: (exists d :: d in op.diagnostics && d.featureId == x) <==> x in op.dirty && x in after && after[x].status == Broken)
    && (forall d :: d in op.diagnostics ==> IsDiagnosed(d, d.featureId, parameter, op.dirty))
  }

  /** The dirty ids ascend; the evaluated and the blocked ones come each once, and after what they depend on. */
  ghost predicate EditListsOrdered(before: FeatureMap, op: Operation) {
    op.HistoricalEdit?
    && (forall i, j :: 0 <= i < j < |op.dirty| ==> op.dirty[i] != op.dirty[j] && TextLe(op.dirty[i], op.dirty[j]))
    && (forall i :: 0 <= i < |op.evaluated| ==> op.evaluated[i] in before)
    && (forall i :: 0 <= i < |op.blocked| ==> op.blocked[i] in before)
    && (forall i, j :: 0 <= i < j < |op.evaluated| ==>
          op.evaluated[i] != op.evaluated[j] && op.evaluated[j] !in before[op.evaluated[i]].dependencies)
    && (forall i, j :: 0 <= i < j < |op.blocked| ==>
          op.blocked[i] != op.blocked[j] && op.blocked[j] !in before[op.blocked[i]].dependencies)
  }

  /** The fingerprints of what a feature depends on, as a map holds them. */
  ghost predicate Reads(features: FeatureMap, dependencies: seq<string>, predecessors: seq<string>) {
    |predecessors| == |dependencies| && forall i :: 0 <= i < |dependencies| ==>
      dependencies[i] in features && features[dependencies[i]].fingerprint == Some(predecessors[i])
  }

  /** A re-evaluated feature: the value it has now, hashed with the fingerprints its dependencies have now. */
  ghost predicate Reevaluated(h: Digest, before: Feature, after: Feature, value: F64, features: FeatureMap) {
    exists predecessors :: Reads(features, before.dependencies, predecessors)
      && after == Feature(before.id, before.dependencies, value,
                          Some(h(Preimage(before.id, value, |before.dependencies|, predecessors))), None, CurrentValid, None)
  }

  /** A blocked feature keeps even the value it had, and remembers its last good fingerprint. */
  ghost predicate Blocked(before: Feature, after: Feature) {
    after == Feature(before.id, before.dependencies, before.inputValue, None,
                     if before.lastValid.Some? then before.lastValid else before.fingerprint, BlockedByFailure, None)
  }

  ghost predicate BrokenBy(before: Feature, after: Feature, value: F64, parameter: string, dirty: seq<string>) {
    after.diagnostic.Some? && IsDiagnosed(after.diagnostic.value, before.id, parameter, dirty)
    && after == Feature(before.id, before.dependencies, value, None, before.fingerprint, Broken, after.diagnostic)
  }

  /** The whole new feature of everything dirty. */
  ghost predicate EditWrites(h: Digest, before: FeatureMap, after: FeatureMap, op: Operation, x: string)
    requires op.HistoricalEdit? && x in before && x in after
  {
    var value := if x == op.featureId then op.value else before[x].inputValue;
    match after[x].status
    case CurrentValid => Reevaluated(h, before[x], after[x], value, after)
    case BlockedByFailure => Blocked(before[x], after[x])
    case Broken => BrokenBy(before[x], after[x], value, op.parameter, op.dirty)
    case Suppressed => false
  }

  lemma {:induction false} SequencedLists(h: Digest, edit: Edit, before: FeatureMap, order: seq<string>)
    requires Sequenced(before, order)
    ensures forall x :: x in order ==> x in before
    ensures var p := EvaluateAll(h, edit, before, order);
      && Subsequence(before, order, p.evaluated) && Subsequence(before, order, p.blocked)
  {
    if order != [] {
      var n := |order| - 1;
      SequencedPrefix(before, order);
      SequencedLists(h, edit, before, order[..n]);
      var p := EvaluateAll(h, edit, before, order[..n]);
      var q := EvaluateAll(h, edit, before, order);
      assert q == EvaluateOne(h, edit, p, order[n]);
      hide EvaluateAll;
      assert q.evaluated == p.evaluated || q.evaluated == p.evaluated + [order[n]];
      assert q.blocked == p.blocked || q.blocked == p.blocked + [order[n]];
      hide EvaluateOne;
      OneMoreInOrder(before, order, p.evaluated);
      OneMoreInOrder(before, order, p.blocked);
    }
  }

  ghost predicate Subsequence(before: FeatureMap, order: seq<string>, list: seq<string>) {
    && (forall i :: 0 <= i < |list| ==> list[i] in order && list[i] in before)
    && (forall i, j :: 0 <= i < j < |list| ==> list[i] != list[j] && list[j] !in before[list[i]].dependencies)
  }

  lemma {:induction false} OneMoreInOrder(before: FeatureMap, order: seq<string>, list: seq<string>)
    requires Sequenced(before, order) && order != [] && Subsequence(before, order[..|order| - 1], list)
    ensures Subsequence(before, order, list) && Subsequence(before, order, list + [order[|order| - 1]])
  {
    var n := |order| - 1;
    SequencedPrefix(before, order);
    forall i | 0 <= i < |list|
      ensures list[i] in order && list[i] != order[n] && list[i] in before && order[n] !in before[list[i]].dependencies
    {
      var k :| 0 <= k < n && order[..n][k] == list[i];
    }
    assert order[n] in order;
  }

  lemma {:induction false} FateWrites(h: Digest, edit: Edit, before: FeatureMap, order: seq<string>, p: Progress, b: nat, x: string)
    requires Outcome(h, edit, before, order, p, b) && ValidFeatures(before) && x in order
    ensures x in before && x in p.features
    ensures x in p.evaluated <==> p.features[x].status == CurrentValid
    ensures x in p.blocked <==> p.features[x].status == BlockedByFailure
    ensures b < |order| && x == order[b] <==> p.features[x].status == Broken
    ensures var op := HistoricalEdit(edit.target, edit.parameter, edit.value, edit.dirty, [], [], [], None);
      EditWrites(h, before, p.features, op, x)
  {
    hide Acyclic, StatusConsistent;
    var i :| 0 <= i < |order| && order[i] == x;
    assert FateAt(h, edit, before, order, p, b, i);
    assert ValidFeature(before, x);
    if b < |order| { assert FateAt(h, edit, before, order, p, b, b); }
    if p.features[x].status == CurrentValid {
      EditSettles(h, edit, before, order, p, b, x);
      var deps := before[x].dependencies;
      var predecessors := Predecessors(p.features, deps);
      forall d | d in deps ensures d in p.features && p.features[d].fingerprint.Some? {
        CurrentIsFingerprinted(h, edit, before, order, p, b, d);
      }
      SettledReads(h, p.features, x);
      assert Reads(p.features, deps, predecessors);
    }
  }

  lemma {:induction false} CurrentIsFingerprinted(
    h: Digest, edit: Edit, before: FeatureMap, order: seq<string>, p: Progress, b: nat, d: string)
    requires Outcome(h, edit, before, order, p, b) && ValidFeatures(before)
    requires d in p.features && p.features[d].status == CurrentValid
    ensures p.features[d].fingerprint.Some?
  {
    hide Acyclic;
    assert ValidFeature(before, d);
    if d in order {
      var i :| 0 <= i < |order| && order[i] == d;
      assert FateAt(h, edit, before, order, p, b, i);
    }
  }

  lemma {:induction false} SettledReads(h: Digest, features: FeatureMap, x: string)
    requires Settled(h, features, x) && forall d :: d in features[x].dependencies ==> d in features && features[d].fingerprint.Some?
    ensures Reads(features, features[x].dependencies, Predecessors(features, features[x].dependencies))
  {
  }

  /** How the event of an edit is put together. */
  lemma {:induction false} EditEvent(h: Digest, s: State, id: string, parameter: string, value: F64)
    requires EditFeature(h, s, id, parameter, value).Ok?
    ensures var (event, ev) := EditFeature(h, s, id, parameter, value).value;
      && Header(s, event) && NewSnapshot(s, event)
      && event.operation == HistoricalEdit(id, parameter, value, ev.dirty, ev.evaluated, ev.blocked, ev.diagnostics,
           Some("recovered-before-historical-edit-" + Decimal(s.ordinal + 1)))
      && Preserved(s, event, event.operation.preservedName.value, "historical-edit:" + id)
  {
    hide Reachable, Order, EvaluateAll, Decimal;
    NamesWritten(s.ordinal + 1);
    hide RecoveryName, RevisionName;
  }

  lemma {:induction false} OutcomeWrites(h: Digest, edit: Edit, before: FeatureMap, order: seq<string>, p: Progress, b: nat)
    requires Outcome(h, edit, before, order, p, b) && ValidFeatures(before) && p == EvaluateAll(h, edit, before, order)
    requires forall x :: x in edit.dirty <==> x in order
    requires forall x :: x in order <==> DependsOn(before, x, edit.target)
    ensures forall name :: EditLists(before, p.features,
      HistoricalEdit(edit.target, edit.parameter, edit.value, edit.dirty, p.evaluated, p.blocked, p.diagnostics, name), edit.target, edit.parameter)
  {
    hide DependsOn, FateAt, ValidFeatures, EditWrites, EvaluateAll;
    forall x | x in order
      ensures x in p.features
      ensures x in p.evaluated <==> p.features[x].status == CurrentValid
      ensures x in p.blocked <==> p.features[x].status == BlockedByFailure
      ensures b < |order| && x == order[b] <==> p.features[x].status == Broken
    {
      FateWrites(h, edit, before, order, p, b, x);
    }
    if b < |order| {
      assert order[b] in order;
      assert p.diagnostics[0] in p.diagnostics && p.diagnostics[0].featureId == order[b];
    }
  }

  /** Everything a built feature edit records, over the event alone. */
  lemma {:induction false} EditRecords(h: Digest, s: State, id: string, parameter: string, value: F64)
    requires ValidState(s) && EditFeature(h, s, id, parameter, value).Ok?
    ensures var event := EditFeature(h, s, id, parameter, value).value.0;
      var op, before, after := event.operation, s.active.features, event.active.features;
      && Header(s, event) && NewSnapshot(s, event)
      && op.HistoricalEdit? && op.featureId == id && op.parameter == parameter && op.value == value
      && EditLists(before, after, op, id, parameter) && EditListsOrdered(before, op)
      && op.preservedName == Some("recovered-before-historical-edit-" + Decimal(s.ordinal + 1))
      && Preserved(s, event, op.preservedName.value, "historical-edit:" + id)
      && after.Keys == before.Keys && (forall x :: x in before && x !in op.dirty ==> after[x] == before[x])
      && forall x :: x in op.dirty ==> x in before && x in after && EditWrites(h, before, after, op, x)
    ensures var (event, ev) := EditFeature(h, s, id, parameter, value).value;
      ev == Evaluation(event.operation.dirty, event.operation.evaluated, event.operation.blocked, event.operation.diagnostics)
  {
    hide EditFeature, EvaluateAll, DependsOn, EditLists, EditWrites, FateAt, ValidFeatures, Preserved, Header, NewSnapshot, Decimal, Reachable;
    var before := s.active.features;
    EditEvent(h, s, id, parameter, value);
    var edit, order, p, b := EditOutcome(h, s, id, parameter, value);
    forall x ensures x in order <==> DependsOn(before, x, id) { ClosureIsReachability(before, id, x); }
    assert ValidFeatures(before) by { StateIsValid(s); }
    DirtyOrdered(before, id);
    DirtyAscends(before, id);
    SequencedLists(h, edit, before, order);
    OutcomeWrites(h, edit, before, order, p, b);
    AllWritten(h, edit, before, order, p, b, EditFeature(h, s, id, parameter, value).value.0.operation);
  }

  lemma {:induction false} AllWritten(
    h: Digest, edit: Edit, before: FeatureMap, order: seq<string>, p: Progress, b: nat, op: Operation)
    requires Outcome(h, edit, before, order, p, b) && ValidFeatures(before) && forall x :: x in edit.dirty ==> x in order
    requires op.HistoricalEdit? && op.featureId == edit.target && op.parameter == edit.parameter
    requires op.value == edit.value && op.dirty == edit.dirty
    ensures forall x :: x in op.dirty ==> x in before && x in p.features && EditWrites(h, before, p.features, op, x)
  {
    hide Outcome, ValidFeatures, EditWrites;
    forall x | x in edit.dirty ensures x in before && x in p.features && EditWrites(h, before, p.features, op, x) {
      FateWrites(h, edit, before, order, p, b, x);
      SameWrites(h, before, p.features, edit, op, x);
    }
  }

  lemma {:induction false} StateIsValid(s: State)
    requires ValidState(s)
    ensures ValidFeatures(s.active.features)
  {
  }

  lemma {:induction false} DirtyAscends(features: FeatureMap, id: string)
    requires Reachable(features, id).Ok?
    ensures var dirty := Reachable(features, id).value;
      forall i, j :: 0 <= i < j < |dirty| ==> dirty[i] != dirty[j] && TextLe(dirty[i], dirty[j])
  {
    hide Closure;
  }

  lemma {:induction false} SameWrites(h: Digest, before: FeatureMap, after: FeatureMap, edit: Edit, op: Operation, x: string)
    requires op.HistoricalEdit? && x in before && x in after && op.featureId == edit.target && op.parameter == edit.parameter
    requires op.value == edit.value && op.dirty == edit.dirty
    requires EditWrites(h, before, after, HistoricalEdit(edit.target, edit.parameter, edit.value, edit.dirty, [], [], [], None), x)
    ensures EditWrites(h, before, after, op, x)
  {
    hide Reevaluated;
  }

  /** When a feature edit is built, and what is answered otherwise. */
  lemma {:induction false} EditAnswers(h: Digest, s: State, id: string, parameter: string, value: F64)
    requires ValidState(s)
    ensures var r := EditFeature(h, s, id, parameter, value);
      var name := "recovered-before-historical-edit-" + Decimal(s.ordinal + 1);
      && (r.Ok? <==> value.Finite? && id in s.active.features && name !in s.named)
      && (r == Err(InvalidValue) <==> !value.Finite?)
      && (value.Finite? && id !in s.active.features ==> r == Err(FeatureNotFound(id)))
      && (value.Finite? && id in s.active.features && name in s.named ==> r == Err(DuplicateName(name)))
  {
    hide EvaluateAll, Decimal, Reachable, Order, ValidFeatures;
    NamesWritten(s.ordinal + 1);
    hide RecoveryName, RevisionName;
    if id in s.active.features {
      assert ValidFeatures(s.active.features) by { StateIsValid(s); }
      DirtyOrdered(s.active.features, id);
    }
  }

  // ---------- Brackets ----------

  ghost predicate AllPositive(dims: Dimensions) {
    IsPositive(dims.length) && IsPositive(dims.width) && IsPositive(dims.height) && IsPositive(dims.thickness)
  }

  ghost predicate HoldsFeature(h: Digest, features: FeatureMap, id: string, dependencies: seq<string>, value: F64) {
    exists predecessors :: Reads(features, dependencies, predecessors) && id in features
      && features[id] == Feature(id, dependencies, value, Some(h(Preimage(id, value, |dependencies|, predecessors))), None, CurrentValid, None)
  }

  /** The five features of a bracket, each with its name, its dependency and its dimension. */
  ghost predicate BracketWritten(h: Digest, features: FeatureMap, bracket: string, dims: Dimensions) {
    && HoldsFeature(h, features, bracket + "-base", [], dims.length)
    && HoldsFeature(h, features, bracket + "-bend", [bracket + "-base"], dims.width)
    && HoldsFeature(h, features, bracket + "-finish", [bracket + "-bend"], dims.height)
    && HoldsFeature(h, features, bracket + "-independent-base", [], dims.thickness)
    && HoldsFeature(h, features, bracket + "-independent-finish", [bracket + "-independent-base"], dims.height)
  }

  ghost function BracketNames(bracket: string): seq<string> {
    [bracket + "-base", bracket + "-bend", bracket + "-finish", bracket + "-independent-base", bracket + "-independent-finish"]
  }

  lemma {:induction false} NamesOfParts(bracket: string, k: string)
    ensures BracketIds(bracket) == BracketNames(bracket)
    ensures k in BracketNames(bracket) <==> IsPart(bracket, k)
  {
    var names := BracketNames(bracket);
    assert names == BracketIds(bracket);
    hide FeatureId;
    var ids := BracketIds(bracket);
    assert ids[0] == FeatureId(bracket, Base) && ids[1] == FeatureId(bracket, Bend) && ids[2] == FeatureId(bracket, Finish);
    assert ids[3] == FeatureId(bracket, IndependentBase) && ids[4] == FeatureId(bracket, IndependentFinish);
    if IsPart(bracket, k) {
      var p :| k == FeatureId(bracket, p);
      BracketIdsHold(map x | x in ids :: Feature("", [], NaN, None, None, CurrentValid, None), bracket);
    }
  }

  lemma {:induction false} SettledIsHeld(h: Digest, features: FeatureMap, id: string, dependencies: seq<string>, value: F64)
    requires Settled(h, features, id) && features[id].id == id && features[id].dependencies == dependencies
    requires features[id].inputValue == value && features[id].lastValid.None? && features[id].diagnostic.None?
    requires forall d :: d in dependencies ==> d in features && features[d].fingerprint.Some?
    ensures HoldsFeature(h, features, id, dependencies, value)
  {
    SettledReads(h, features, id);
    assert Reads(features, dependencies, Predecessors(features, dependencies));
  }

  lemma {:induction false} PartsAreWritten(h: Digest, features: FeatureMap, bracket: string, dims: Dimensions)
    requires HoldsBracket(features, bracket) && forall p :: Settled(h, features, FeatureId(bracket, p))
    requires forall p :: var f := features[FeatureId(bracket, p)];
      && f.id == FeatureId(bracket, p) && f.dependencies == PartDependencies(bracket, p)
      && f.inputValue == dims.Of(p) && f.lastValid.None? && f.diagnostic.None?
    ensures BracketWritten(h, features, bracket, dims)
  {
    forall p ensures HoldsFeature(h, features, FeatureId(bracket, p), PartDependencies(bracket, p), dims.Of(p)) {
      hide FeatureId, GeometryFingerprint;
      var k := FeatureId(bracket, p);
      assert Settled(h, features, k);
      if DependencyPart(p).Some? { assert Settled(h, features, FeatureId(bracket, DependencyPart(p).value)); }
      SettledIsHeld(h, features, k, PartDependencies(bracket, p), dims.Of(p));
    }
    hide HoldsFeature;
    assert HoldsFeature(h, features, FeatureId(bracket, Base), PartDependencies(bracket, Base), dims.Of(Base));
    assert HoldsFeature(h, features, FeatureId(bracket, Bend), PartDependencies(bracket, Bend), dims.Of(Bend));
    assert HoldsFeature(h, features, FeatureId(bracket, Finish), PartDependencies(bracket, Finish), dims.Of(Finish));
    assert HoldsFeature(h, features, FeatureId(bracket, IndependentBase), PartDependencies(bracket, IndependentBase), dims.Of(IndependentBase));
    assert HoldsFeature(h, features, FeatureId(bracket, IndependentFinish), PartDependencies(bracket, IndependentFinish), dims.Of(IndependentFinish));
  }

  /** The map holds what it held, and beyond that the features of the bracket, which may replace what it held. */
  ghost predicate BracketAdded(before: FeatureMap, after: FeatureMap, bracket: string) {
    && (forall k :: k in after <==> k in before || k in BracketNames(bracket))
    && forall k :: k in before && k !in BracketNames(bracket) ==> after[k] == before[k]
  }

  lemma {:induction false} NewBracketWritten(h: Digest, features: FeatureMap, bracket: string, dims: Dimensions)
    ensures var r := features + BracketFeatures(h, bracket, dims);
      BracketWritten(h, r, bracket, dims) && BracketAdded(features, r, bracket)
  {
    var m := BracketFeatures(h, bracket, dims);
    var r := features + m;
    hide FeatureId, BracketFeatures, BracketWritten, BracketAdded, GeometryFingerprint;
    BracketShape(h, bracket, dims, Base);
    forall p ensures Settled(h, r, FeatureId(bracket, p)) {
      BracketShape(h, bracket, dims, p);
      BracketSettled(h, bracket, dims, p);
      StaysSettled(h, m, r, FeatureId(bracket, p));
    }
    forall p ensures var f := r[FeatureId(bracket, p)];
      && f.id == FeatureId(bracket, p) && f.dependencies == PartDependencies(bracket, p)
      && f.inputValue == dims.Of(p) && f.lastValid.None? && f.diagnostic.None?
    {
      BracketShape(h, bracket, dims, p);
    }
    PartsAreWritten(h, r, bracket, dims);
    OnlyBracketAdded(h, features, bracket, dims);
  }

  lemma {:induction false} OnlyBracketAdded(h: Digest, features: FeatureMap, bracket: string, dims: Dimensions)
    ensures BracketAdded(features, features + BracketFeatures(h, bracket, dims), bracket)
  {
    hide FeatureId, BracketFeatures, GeometryFingerprint;
    var m := BracketFeatures(h, bracket, dims);
    BracketShape(h, bracket, dims, Base);
    forall k ensures k in m <==> k in BracketNames(bracket) {
      NamesOfParts(bracket, k);
      if p :| k == FeatureId(bracket, p) { BracketShape(h, bracket, dims, p); }
    }
  }

  lemma {:induction false} InitializeEvent(h: Digest, s: State, bracket: string, dims: Dimensions)
    ensures var r := Initialize(h, s, bracket, dims);
      && (r.Ok? <==> bracket != "" && AllPositive(dims)) && (r.Err? ==> r == Err(InvalidValue))
      && (r.Ok? ==>
           var event := r.value;
           && Header(s, event) && event.named == s.named
           && event.operation == InitializeLBracket(bracket, dims.length, dims.width, dims.height, dims.thickness)
           && event.active == Snapshot(RevisionName(s.ordinal + 1), s.active.features + BracketFeatures(h, bracket, dims)))
  {
    hide RevisionName, BracketFeatures;
  }

  /** When a bracket is initialized, and everything its event then records. */
  lemma {:induction false} InitializeRecords(h: Digest, s: State, bracket: string, dims: Dimensions)
    ensures var r := Initialize(h, s, bracket, dims);
      && (r.Ok? <==> bracket != "" && AllPositive(dims)) && (r.Err? ==> r == Err(InvalidValue))
      && (r.Ok? ==>
           var event := r.value;
           && Header(s, event) && NewSnapshot(s, event) && event.named == s.named
           && event.operation == InitializeLBracket(bracket, dims.length, dims.width, dims.height, dims.thickness)
           && BracketWritten(h, event.active.features, bracket, dims)
           && BracketAdded(s.active.features, event.active.features, bracket))
  {
    NamesWritten(s.ordinal + 1);
    NewBracketWritten(h, s.active.features, bracket, dims);
    InitializeEvent(h, s, bracket, dims);
    hide Initialize, RevisionName, BracketFeatures, BracketWritten, BracketAdded, Decimal, AllPositive, Header;
  }

  /** The whole bracket after an edit: new values, fingerprints of the map it is in, and names and dependencies as before. */
  ghost predicate BracketRewritten(h: Digest, before: FeatureMap, after: FeatureMap, bracket: string, dims: Dimensions) {
    && after.Keys == before.Keys && (forall k :: k in BracketNames(bracket) ==> k in before)
    && (forall k :: k in before && k !in BracketNames(bracket) ==> after[k] == before[k])
    && Rewritten(before, after, bracket + "-base", dims.length)
    && Rewritten(before, after, bracket + "-bend", dims.width)
    && Rewritten(before, after, bracket + "-finish", dims.height)
    && Rewritten(before, after, bracket + "-independent-base", dims.thickness)
    && Rewritten(before, after, bracket + "-independent-finish", dims.height)
  }

  ghost predicate Rewritten(before: FeatureMap, after: FeatureMap, id: string, value: F64) {
    id in before && id in after && after[id].fingerprint.Some?
    && after[id] == Feature(before[id].id, before[id].dependencies, value, after[id].fingerprint, None, CurrentValid, None)
  }

  lemma {:induction false} EditedBracketRewritten(h: Digest, features: FeatureMap, bracket: string, dims: Dimensions)
    requires HoldsBracket(features, bracket)
    ensures BracketRewritten(h, features, EditedBracket(h, features, bracket, dims), bracket, dims)
    ensures CanonicalParts(features, bracket) ==> BracketWritten(h, EditedBracket(h, features, bracket, dims), bracket, dims)
  {
    var r := EditedBracket(h, features, bracket, dims);
    EditedBracketShape(h, features, bracket, dims);
    forall p ensures Rewritten(features, r, FeatureId(bracket, p), dims.Of(p)) {
      hide FeatureId, EditedBracket;
      assert Refreshed(features[FeatureId(bracket, p)].(inputValue := dims.Of(p)), r[FeatureId(bracket, p)]);
    }
    RewrittenParts(features, r, bracket, dims);
    forall k ensures k in BracketNames(bracket) <==> IsPart(bracket, k) { NamesOfParts(bracket, k); }
    if CanonicalParts(features, bracket) {
      hide FeatureId, EditedBracket, BracketWritten;
      EditedBracketSettled(h, features, bracket, dims);
      forall p ensures var f := r[FeatureId(bracket, p)]; f.inputValue == dims.Of(p) && f.lastValid.None? && f.diagnostic.None? {
        assert Rewritten(features, r, FeatureId(bracket, p), dims.Of(p));
      }
      PartsAreWritten(h, r, bracket, dims);
    }
    hide FeatureId, EditedBracket, Rewritten;
    forall k | k in BracketNames(bracket) ensures k in features { var p :| k == FeatureId(bracket, p); }
  }

  lemma {:induction false} RewrittenParts(before: FeatureMap, after: FeatureMap, bracket: string, dims: Dimensions)
    requires forall p :: Rewritten(before, after, FeatureId(bracket, p), dims.Of(p))
    ensures Rewritten(before, after, bracket + "-base", dims.length)
    ensures Rewritten(before, after, bracket + "-bend", dims.width)
    ensures Rewritten(before, after, bracket + "-finish", dims.height)
    ensures Rewritten(before, after, bracket + "-independent-base", dims.thickness)
    ensures Rewritten(before, after, bracket + "-independent-finish", dims.height)
  {
    hide Rewritten;
    assert Rewritten(before, after, FeatureId(bracket, Base), dims.Of(Base));
    assert Rewritten(before, after, FeatureId(bracket, Bend), dims.Of(Bend));
    assert Rewritten(before, after, FeatureId(bracket, Finish), dims.Of(Finish));
    assert Rewritten(before, after, FeatureId(bracket, IndependentBase), dims.Of(IndependentBase));
    assert Rewritten(before, after, FeatureId(bracket, IndependentFinish), dims.Of(IndependentFinish));
  }

  ghost predicate ThinEnough(dims: Dimensions) {
    dims.length.Finite? && dims.width.Finite? && dims.thickness.Finite?
    && dims.thickness.value < dims.length.value && dims.thickness.value < dims.width.value
  }

  /** When a bracket edit is built, and what is answered otherwise. */
  lemma {:induction false} EditBracketAnswers(h: Digest, s: State, bracket: string, dims: Dimensions)
    ensures var r := EditBracket(h, s, bracket, dims);
      var sound := bracket != "" && AllPositive(dims) && ThinEnough(dims);
      var held := forall k :: k in BracketNames(bracket) ==> k in s.active.features;
      var name := "recovered-before-historical-edit-" + Decimal(s.ordinal + 1);
      && (r.Ok? <==> sound && held && name !in s.named)
      && (r == Err(InvalidValue) <==> !sound)
      && (sound && !held ==> r == Err(FeatureNotFound(bracket)))
      && (sound && held && name in s.named ==> r == Err(DuplicateName(name)))
  {
    NamesWritten(s.ordinal + 1);
    NamesOfParts(bracket, "");
    hide RecoveryName, RevisionName, WithValues, RecomputedAll, Decimal, BracketNames, BracketIds;
  }

  lemma {:induction false} BracketEvent(h: Digest, s: State, bracket: string, dims: Dimensions)
    requires EditBracket(h, s, bracket, dims).Ok? && HoldsBracket(s.active.features, bracket)
    ensures var (event, ev) := EditBracket(h, s, bracket, dims).value;
      var name := RecoveryName("historical-edit", s.ordinal + 1);
      var ids := BracketIds(bracket);
      && Header(s, event) && event.active == Snapshot(RevisionName(s.ordinal + 1), EditedBracket(h, s.active.features, bracket, dims))
      && event.operation == HistoricalEdit(FeatureId(bracket, Base), "dimensions", dims.length, ids, ids, [], [], Some(name))
      && ev == Evaluation(ids, ids, [], []) && Preserved(s, event, name, "historical-edit:" + bracket)
  {
    hide RecoveryName, RevisionName, WithValues, RecomputedAll, BracketIds, FeatureId;
  }

  /** Everything a built bracket edit records. */
  lemma {:induction false} EditBracketRecords(h: Digest, s: State, bracket: string, dims: Dimensions)
    requires EditBracket(h, s, bracket, dims).Ok?
    ensures var (event, ev) := EditBracket(h, s, bracket, dims).value;
      var name := "recovered-before-historical-edit-" + Decimal(s.ordinal + 1);
      && Header(s, event) && NewSnapshot(s, event)
      && event.operation == HistoricalEdit(bracket + "-base", "dimensions", dims.length,
           BracketNames(bracket), BracketNames(bracket), [], [], Some(name))
      && ev == Evaluation(BracketNames(bracket), BracketNames(bracket), [], [])
      && Preserved(s, event, name, "historical-edit:" + bracket)
      && BracketRewritten(h, s.active.features, event.active.features, bracket, dims)
      && (CanonicalParts(s.active.features, bracket) ==> BracketWritten(h, event.active.features, bracket, dims))
  {
    NamesWritten(s.ordinal + 1);
    NamesOfParts(bracket, "");
    BuiltHolds(h, s, bracket, dims);
    BracketEvent(h, s, bracket, dims);
    EditedBracketRewritten(h, s.active.features, bracket, dims);
    assert FeatureId(bracket, Base) == bracket + "-base";
    assert NewSnapshot(s, EditBracket(h, s, bracket, dims).value.0) by { hide EditBracket, Decimal, RevisionName; }
    hide *;
  }

  lemma {:induction false} BuiltHolds(h: Digest, s: State, bracket: string, dims: Dimensions)
    requires EditBracket(h, s, bracket, dims).Ok?
    ensures HoldsBracket(s.active.features, bracket)
  {
    hide FeatureId, RecoveryName, RevisionName, WithValues, RecomputedAll;
    BracketIdsHold(s.active.features, bracket);
  }

  // ---------- Named revisions ----------

  lemma {:induction false} CreateRecords(s: State, name: string)
    ensures var r := CreateRevision(s, name);
      && (r.Ok? <==> name != "" && name !in s.named)
      && (name == "" ==> r == Err(EmptyName)) && (name != "" && name in s.named ==> r == Err(DuplicateName(name)))
      && (r.Ok? ==> Header(s, r.value) && r.value.active == s.active && r.value.operation == CreateNamedRevision(name)
                    && Preserved(s, r.value, name, "explicit-create"))
  {
  }

  /** A restore brings back exactly the named snapshot, under its own revision id, and keeps the replaced one. */
  lemma {:induction false} RestoreRecords(s: State, name: string)
    ensures var r := RestoreRevision(s, name);
      var displaced := "recovered-before-restore-" + Decimal(s.ordinal + 1);
      && (r.Ok? <==> name in s.named && displaced !in s.named)
      && (name !in s.named ==> r == Err(NamedRevisionNotFound(name)))
      && (name in s.named && displaced in s.named ==> r == Err(DuplicateName(displaced)))
      && (r.Ok? ==> Header(s, r.value) && r.value.active == s.named[name].snapshot
                    && r.value.operation == RestoreNamedRevision(name, Some(displaced))
                    && Preserved(s, r.value, displaced, "restore:" + name))
  {
    NamesWritten(s.ordinal + 1);
    hide RecoveryName, RevisionName, Decimal;
  }

  /** A restore for a feature is a restore, refused where the named snapshot does not hold the feature. */
  lemma {:induction false} RestoreForAnswers(s: State, featureId: string, name: string)
    ensures var r := RestoreRevisionFor(s, featureId, name);
      && (name !in s.named ==> r == Err(NamedRevisionNotFound(name)))
      && (name in s.named && featureId in s.named[name].snapshot.features ==> r == RestoreRevision(s, name))
      && (name in s.named && featureId !in s.named[name].snapshot.features ==>
            r == Err(if featureId in s.active.features then FeatureNotInNamedRevision(featureId, name) else FeatureNotFound(featureId)))
  {
    hide RestoreRevision;
  }

  // ---------- Undo and redo ----------

  /** What was active after the event with this ordinal, which was not itself an undo or a redo; 0 is the beginning. */
  ghost predicate WasActive(log: seq<Event>, ordinal: nat, snapshot: Snapshot) {
    || (ordinal == 0 && snapshot == Snapshot("history-revision-0", map[]))
    || exists i :: 0 <= i < |log| && Sealed(log[i], ordinal, snapshot)
  }

  ghost predicate Sealed(event: Event, ordinal: nat, snapshot: Snapshot) {
    event.ordinal == ordinal && event.active == snapshot && !event.operation.Undo? && !event.operation.Redo?
  }

  lemma {:induction false} PositionWasActive(log: seq<Event>, i: nat)
    requires i < |Positions(log)|
    ensures WasActive(log, Positions(log)[i].ordinal, Positions(log)[i].snapshot)
  {
    if log != [] {
      var n := |log| - 1;
      var rest := Positions(log[..n]);
      if i < |rest| {
        PositionWasActive(log[..n], i);
        if k :| 0 <= k < n && Sealed(log[..n][k], rest[i].ordinal, rest[i].snapshot) {
          assert Sealed(log[k], rest[i].ordinal, rest[i].snapshot);
        }
      } else {
        assert Sealed(log[n], Positions(log)[i].ordinal, Positions(log)[i].snapshot);
      }
    }
  }

  /** A built undo or redo names the event whose snapshot it brings back, with its revision id, and keeps the replaced one. */
  lemma {:induction false} MoveRecords(s: State, log: seq<Event>, direction: Direction)
    requires MoveCursor(s, log, direction).Ok?
    ensures var event := MoveCursor(s, log, direction).value;
      var op := event.operation;
      var name := (if direction == Backward then "recovered-before-undo-" else "recovered-before-redo-") + Decimal(s.ordinal + 1);
      && Header(s, event) && (if direction == Backward then op.Undo? else op.Redo?)
      && op.restoredRevisionId == event.active.revisionId && op.preserved == name
      && WasActive(log, op.restoredOrdinal, event.active) && event.active != s.active
      && Preserved(s, event, name, if direction == Backward then "undo" else "redo")
  {
    NamesWritten(s.ordinal + 1);
    var i := TargetIsPosition(s, log, direction);
    PositionWasActive(log, i);
    hide RecoveryName, RevisionName, Decimal, CursorTarget, Positions, WasActive;
  }

  /** The log must end where the state is and its trailing moves must stay on the timeline and reproduce the snapshot. */
  lemma {:induction false} MoveRefusals(s: State, log: seq<Event>, direction: Direction)
    ensures var r := MoveCursor(s, log, direction);
      var ends := if log == [] then s.ordinal == 0 else log[|log| - 1].ordinal == s.ordinal;
      var onTimeline := 0 <= Cursor(log) < |Positions(log)|;
      && (!ends ==> r == Err(InvalidEvent(LogEndsElsewhere)))
      && (ends && !onTimeline ==> r == Err(InvalidEvent(CursorLeftTimeline)))
      && (ends && onTimeline && Positions(log)[Cursor(log)].snapshot != s.active ==> r == Err(InvalidEvent(SnapshotNotReproduced)))
      && (ends && onTimeline && Positions(log)[Cursor(log)].snapshot == s.active ==>
           var side := if direction == Backward then Positions(log)[..Cursor(log)] else Positions(log)[Cursor(log) + 1..];
           (forall p :: p in side ==> p.snapshot == s.active) <==>
             r == Err(if direction == Backward then NothingToUndo else NothingToRedo))
  {
    hide Positions, Cursor, NearestBefore, NearestFrom, Displace;
    if LogEndsHere(s, log) && CursorInRange(log) && Positions(log)[Cursor(log)].snapshot == s.active {
      SideHolds(Positions(log), Cursor(log), s.active);
    }
    DisplaceErrors(s, if direction == Backward then "undo" else "redo", if direction == Backward then "undo" else "redo");
  }

  lemma {:induction false} DisplaceErrors(s: State, kind: string, provenance: string)
    ensures Displace(s, kind, provenance).Err? ==> Displace(s, kind, provenance).error.DuplicateName?
  {
  }

  lemma {:induction false} SideHolds(positions: seq<Position>, cursor: nat, active: Snapshot)
    requires cursor < |positions|
    ensures NearestBefore(positions, active, cursor).None? <==> forall p :: p in positions[..cursor] ==> p.snapshot == active
    ensures NearestFrom(positions, active, cursor + 1).None? <==> forall p :: p in positions[cursor + 1..] ==> p.snapshot == active
  {
    hide NearestBefore, NearestFrom;
    var before, after := NearestBefore(positions, active, cursor), NearestFrom(positions, active, cursor + 1);
    if before.Some? { assert positions[before.value] in positions[..cursor]; }
    if after.Some? { assert positions[cursor + 1..][after.value - cursor - 1] == positions[after.value]; }
  }

  lemma {:induction false} TargetIsPosition(s: State, log: seq<Event>, direction: Direction) returns (i: nat)
    requires CursorTarget(s, log, direction).Ok?
    ensures i < |Positions(log)| && CursorTarget(s, log, direction).value == Positions(log)[i]
    ensures Positions(log)[i].snapshot != s.active
  {
    hide Positions, Cursor, NearestBefore, NearestFrom;
    var positions, cursor := Positions(log), Cursor(log);
    i := if direction == Backward then NearestBefore(positions, s.active, cursor).value
         else NearestFrom(positions, s.active, cursor + 1).value;
  }
}
