/** Which feature edits are refused, told from the state and the arguments before the edit. */
module HistoryRefusals {
  import opened Wrappers
  import opened HistoryModel
  import opened HistoryGraph
  import opened HistoryEvaluation
  import opened HistoryEvents
  import opened HistoryOperations
  import opened HistoryAcceptance
  import opened HistoryRuns
  import opened HistoryCursor

  /** A current feature has a positive value. */
  ghost predicate PositiveCurrent(features: FeatureMap) {
    forall k :: k in features && features[k].status == CurrentValid ==> features[k].inputValue.IsPositive()
  }

  predicate IsCurrent(features: FeatureMap, id: string) {
    id in features && features[id].status == CurrentValid
  }

  /** Whatever `d` depends on outside the reach of the edit is current. */
  ghost predicate ClearOutside(features: FeatureMap, target: string, d: string) {
    d in features &&
    forall e :: e in features[d].dependencies && !DependsOn(features, e, target) ==> IsCurrent(features, e)
  }

  /** `k` depends on the target, has no positive value, and neither it nor what leads to it is held up from outside. */
  ghost predicate WouldBreak(features: FeatureMap, target: string, k: string) {
    && k in features && k != target && DependsOn(features, k, target) && features[k].inputValue.NotAboveZero()
    && forall d :: DependsOn(features, d, target) && DependsOn(features, k, d) ==> ClearOutside(features, target, d)
  }

  /**
   * The edit breaks what is not current: everything the target depends on is current, and either the new value is not
   * positive and the target is not current, or it is positive and some dependent breaks.
   */
  ghost predicate RefusedEdit(features: FeatureMap, target: string, value: F64)
    requires target in features
  {
    && (forall e :: e in features[target].dependencies ==> IsCurrent(features, e))
    && if value.NotAboveZero() then !IsCurrent(features, target) else exists k :: WouldBreak(features, target, k)
  }

  // ---------- The reach of an edit ----------

  /** What every lemma below is about: an edit on valid features and the outcome of its evaluation loop. */
  ghost predicate Evaluated(h: Digest, edit: Edit, before: FeatureMap, order: seq<string>, p: Progress, b: nat) {
    && Outcome(h, edit, before, order, p, b)
    && ValidFeatures(before) && edit.target in before
    && Sequenced(before, order)
    && (forall x :: x in order <==> DependsOn(before, x, edit.target))
  }

  lemma {:induction false} DependsOnSelf(features: FeatureMap, x: string)
    ensures DependsOn(features, x, x)
  {
    var p := [x];
    assert Chain(features, p) && p[0] == x && p[|p| - 1] == x;
  }

  lemma {:induction false} DependsOnMore(features: FeatureMap, target: string, d: string, x: string)
    requires DependsOn(features, d, target) && x in features && features[x].id == x && d in features[x].dependencies
    ensures DependsOn(features, x, target)
  {
    var p :| Chain(features, p) && p[0] == target && p[|p| - 1] == d;
    var q := p + [x];
    assert Edge(features, d, x);
    forall i | 0 <= i < |q| - 1 ensures Edge(features, q[i], q[i + 1]) {
      if i < |p| - 1 { assert Edge(features, p[i], p[i + 1]); }
    }
    assert Chain(features, q) && q[0] == target && q[|q| - 1] == x;
  }

  /** A chain can also be extended at its start. */
  lemma {:induction false} DependsOnFurther(features: FeatureMap, e: string, d: string, x: string)
    requires DependsOn(features, x, d) && d in features && features[d].id == d && e in features[d].dependencies
    ensures DependsOn(features, x, e)
  {
    var p :| Chain(features, p) && p[0] == d && p[|p| - 1] == x;
    var q := [e] + p;
    assert Edge(features, e, d);
    forall i | 0 <= i < |q| - 1 ensures Edge(features, q[i], q[i + 1]) {
      if i > 0 { assert Edge(features, p[i - 1], p[i]); }
    }
    assert Chain(features, q) && q[0] == e && q[|q| - 1] == x;
  }

  /** Only the target itself depends on it without depending on something else that does. */
  lemma {:induction false} LastStep(features: FeatureMap, x: string, target: string) returns (d: string)
    requires ValidFeatures(features) && DependsOn(features, x, target) && x != target
    ensures x in features && d in features[x].dependencies && DependsOn(features, d, target)
  {
    hide Acyclic, StatusConsistent;
    var p :| Chain(features, p) && p[0] == target && p[|p| - 1] == x;
    var n := |p| - 1;
    d := p[n - 1];
    assert Edge(features, p[n - 1], p[n]);
    var k :| k in features && features[k].id == x && d in features[k].dependencies;
    assert ValidFeature(features, k);
    var q := p[..n];
    forall i | 0 <= i < |q| - 1 ensures Edge(features, q[i], q[i + 1]) { assert Edge(features, p[i], p[i + 1]); }
    assert Chain(features, q) && q[0] == target && q[|q| - 1] == d;
  }

  /** The target is evaluated first, so nothing it depends on is touched. */
  lemma {:induction false} TargetFirst(h: Digest, edit: Edit, before: FeatureMap, order: seq<string>, p: Progress, b: nat)
    requires Evaluated(h, edit, before, order, p, b)
    ensures order != [] && order[0] == edit.target
    ensures forall e :: e in before[edit.target].dependencies ==> e !in order && !DependsOn(before, e, edit.target)
  {
    hide Outcome, ValidFeatures, DependsOn;
    DependsOnSelf(before, edit.target);
    assert edit.target in order;
    assert order[0] in order;
    FirstIsFree(before, order);
    if order[0] != edit.target { var d := LastStep(before, order[0], edit.target); }
  }

  lemma {:induction false} FirstIsFree(features: FeatureMap, order: seq<string>)
    requires Sequenced(features, order) && order != []
    ensures order[0] in features && forall e :: e in features[order[0]].dependencies ==> e !in order
  {
  }

  /** What a visited feature finds: a failed dependency is one outside that was not current, or one inside that failed. */
  lemma {:induction false} NoFailureIff(h: Digest, edit: Edit, before: FeatureMap, order: seq<string>, p: Progress, b: nat, x: string)
    requires Evaluated(h, edit, before, order, p, b) && x in order
    ensures x in before && p.features[x].dependencies == before[x].dependencies && before[x].id == x
    ensures !HasFailedDependency(p.features, x) <==>
      forall e :: e in before[x].dependencies ==> if e in order then IsCurrent(p.features, e) else IsCurrent(before, e)
  {
    hide FateAt, DependsOn, Acyclic, StatusConsistent, Sequenced;
    assert ValidFeature(before, x);
    FateKeepsShape(h, edit, before, order, p, b, x);
  }

  /** The three fates of a visited feature, told by its position, its dependencies and its value. */
  lemma {:induction false} FateOf(h: Digest, edit: Edit, before: FeatureMap, order: seq<string>, p: Progress, b: nat, i: nat)
    requires Evaluated(h, edit, before, order, p, b) && i < |order|
    ensures order[i] in before
    ensures IsCurrent(p.features, order[i]) <==> i < b && !HasFailedDependency(p.features, order[i])
    ensures i < b && !HasFailedDependency(p.features, order[i]) ==>
      !EditedFeature(edit, order[i], before[order[i]]).inputValue.NotAboveZero()
    ensures i == b ==> !HasFailedDependency(p.features, order[i])
    ensures i == b ==> EditedFeature(edit, order[i], before[order[i]]).inputValue.NotAboveZero()
  {
    hide DependsOn, ValidFeatures, Sequenced, HasFailedDependency;
    assert order[i] in order;
    assert FateAt(h, edit, before, order, p, b, i);
  }

  // ---------- A broken feature meets the condition ----------

  /** Going back along a chain from a feature without failed dependencies, every dirty feature on it has none. */
  lemma {:induction false} NoFailureUpstream(h: Digest, edit: Edit, before: FeatureMap, order: seq<string>, p: Progress, b: nat,
                                             c: seq<string>, n: nat)
    requires Evaluated(h, edit, before, order, p, b) && Chain(before, c) && n < |c|
    requires forall i :: 0 <= i < |c| ==> c[i] in order
    requires c[|c| - 1] in p.features && !HasFailedDependency(p.features, c[|c| - 1])
    ensures c[n] in p.features && !HasFailedDependency(p.features, c[n])
    decreases |c| - n
  {
    hide Outcome, HasFailedDependency, DependsOn, ValidFeatures, Sequenced, IsCurrent;
    if n < |c| - 1 {
      NoFailureUpstream(h, edit, before, order, p, b, c, n + 1);
      assert Edge(before, c[n], c[n + 1]);
      NoFailureIff(h, edit, before, order, p, b, c[n + 1]);
      var k :| k in before && before[k].id == c[n + 1] && c[n] in before[k].dependencies;
      SameKey(before, k, c[n + 1]);
      var i :| 0 <= i < |order| && order[i] == c[n];
      FateOf(h, edit, before, order, p, b, i);
      EditedKeys(h, edit, before, order, p, b);
    }
  }

  lemma {:induction false} SameKey(features: FeatureMap, k: string, id: string)
    requires ValidFeatures(features) && k in features && features[k].id == id
    ensures k == id
  {
    assert ValidFeature(features, k);
  }

  lemma {:induction false} EditedKeys(h: Digest, edit: Edit, before: FeatureMap, order: seq<string>, p: Progress, b: nat)
    requires Evaluated(h, edit, before, order, p, b)
    ensures p.features.Keys == before.Keys && (forall x :: x in order ==> x in before)
    ensures ClosedUnderDependents(before, set x | x in order)
  {
    hide FateAt, DependsOn, Acyclic, StatusConsistent;
    var dirty := set x | x in order;
    forall k | k in before && Touches(before[k], dirty) ensures before[k].id in dirty {
      assert ValidFeature(before, k);
      var d :| d in before[k].dependencies && d in dirty;
      DependsOnMore(before, edit.target, d, k);
    }
  }

  /** So nothing outside holds up what leads to it. */
  lemma {:induction false} ClearUpstream(h: Digest, edit: Edit, before: FeatureMap, order: seq<string>, p: Progress, b: nat, k: string, d: string)
    requires Evaluated(h, edit, before, order, p, b) && k in order && k in p.features && !HasFailedDependency(p.features, k)
    requires DependsOn(before, d, edit.target) && DependsOn(before, k, d)
    ensures d in p.features && !HasFailedDependency(p.features, d) && ClearOutside(before, edit.target, d)
  {
    hide Outcome, HasFailedDependency, ValidFeatures, Sequenced;
    var c :| Chain(before, c) && c[0] == d && c[|c| - 1] == k;
    EditedKeys(h, edit, before, order, p, b);
    var dirty := set x | x in order;
    assert d in dirty;
    forall i | 0 <= i < |c| ensures c[i] in order { ChainStaysInside(before, c, dirty, i); }
    NoFailureUpstream(h, edit, before, order, p, b, c, 0);
    NoFailureIff(h, edit, before, order, p, b, d);
  }

  lemma {:induction false} BrokenMeetsCondition(h: Digest, edit: Edit, before: FeatureMap, order: seq<string>, p: Progress, b: nat)
    requires Evaluated(h, edit, before, order, p, b) && b < |order| && PositiveCurrent(before)
    requires before[order[b]].fingerprint.None?
    ensures RefusedEdit(before, edit.target, edit.value)
  {
    hide Outcome, HasFailedDependency, ValidFeatures, Sequenced, DependsOn, ClearOutside;
    var k, t := order[b], edit.target;
    TargetFirst(h, edit, before, order, p, b);
    EditedKeys(h, edit, before, order, p, b);
    FateOf(h, edit, before, order, p, b, b);
    FateOf(h, edit, before, order, p, b, 0);
    DependsOnSelf(before, t);
    assert k in order && t in order;
    ClearUpstream(h, edit, before, order, p, b, k, t);
    NoFailureIff(h, edit, before, order, p, b, t);
    if k == t {
      CurrentHasFingerprint(before, t);
    } else {
      forall d | DependsOn(before, d, t) && DependsOn(before, k, d) ensures ClearOutside(before, t, d) {
        ClearUpstream(h, edit, before, order, p, b, k, d);
      }
      assert WouldBreak(before, t, k);
    }
  }

  lemma {:induction false} CurrentHasFingerprint(features: FeatureMap, id: string)
    requires ValidFeatures(features) && id in features
    ensures features[id].fingerprint.Some? <==> IsCurrent(features, id)
  {
    assert ValidFeature(features, id);
  }

  // ---------- The condition breaks something ----------

  /** Without a failure everything that leads to `k` would have been evaluated, and `k` with it. */
  lemma {:induction false} EvaluatedUpstream(h: Digest, edit: Edit, before: FeatureMap, order: seq<string>, p: Progress, b: nat, k: string, i: nat)
    requires Evaluated(h, edit, before, order, p, b) && b == |order| && i < |order| && DependsOn(before, k, order[i])
    requires forall d :: DependsOn(before, d, edit.target) && DependsOn(before, k, d) ==> ClearOutside(before, edit.target, d)
    ensures order[i] in p.features && !HasFailedDependency(p.features, order[i])
    decreases i
  {
    hide Outcome, HasFailedDependency, ValidFeatures, DependsOn;
    var d := order[i];
    assert d in order;
    EditedKeys(h, edit, before, order, p, b);
    NoFailureIff(h, edit, before, order, p, b, d);
    forall e | e in before[d].dependencies ensures if e in order then IsCurrent(p.features, e) else IsCurrent(before, e) {
      if e in order {
        var j :| 0 <= j < |order| && order[j] == e;
        assert j < i;
        DependsOnFurther(before, e, d, k);
        EvaluatedUpstream(h, edit, before, order, p, b, k, j);
        FateOf(h, edit, before, order, p, b, j);
      }
    }
  }

  lemma {:induction false} ConditionBreaks(h: Digest, edit: Edit, before: FeatureMap, order: seq<string>, p: Progress, b: nat)
    requires Evaluated(h, edit, before, order, p, b) && PositiveCurrent(before)
    requires RefusedEdit(before, edit.target, edit.value)
    ensures b < |order| && order[b] in before && before[order[b]].fingerprint.None?
  {
    hide Outcome, HasFailedDependency, ValidFeatures, Sequenced, DependsOn, ClearOutside;
    var t := edit.target;
    TargetFirst(h, edit, before, order, p, b);
    assert t in order;
    NoFailureIff(h, edit, before, order, p, b, t);
    FateOf(h, edit, before, order, p, b, 0);
    if edit.value.NotAboveZero() {
      CurrentHasFingerprint(before, t);
    } else {
      var k :| WouldBreak(before, t, k);
      assert k in order;
      var i :| 0 <= i < |order| && order[i] == k;
      FateOf(h, edit, before, order, p, b, i);
      if b == |order| {
        DependsOnSelf(before, k);
        EvaluatedUpstream(h, edit, before, order, p, b, k, i);
        assert false;
      }
      OutcomeBound(h, edit, before, order, p, b);
      FateOf(h, edit, before, order, p, b, b);
      CurrentHasFingerprint(before, order[b]);
    }
  }

  lemma {:induction false} OutcomeBound(h: Digest, edit: Edit, before: FeatureMap, order: seq<string>, p: Progress, b: nat)
    requires Outcome(h, edit, before, order, p, b)
    ensures b <= |order| && p.diagnostics == (if b < |order| then [Failure(edit, order[b])] else [])
    ensures forall x :: x in order ==> x in before
  {
  }

  // ---------- Refusal ----------

  /** Where current features are positive, an edit is refused exactly when the state and the arguments say so. */
  lemma {:induction false} EditRefusedIff(h: Digest, s: State, id: string, parameter: string, value: F64)
    requires ValidState(s) && PositiveCurrent(s.active.features) && EditFeature(h, s, id, parameter, value).Ok?
    ensures id in s.active.features
    ensures Apply(s, EditFeature(h, s, id, parameter, value).value.0).Err? <==> RefusedEdit(s.active.features, id, value)
  {
    hide Outcome, EditFeature, Apply, ValidFeatures, PositiveCurrent, RefusedEdit, DependsOn, Sequenced, EvaluateAll, Reachable;
    var before := s.active.features;
    var edit, order, p, b := EditOutcome(h, s, id, parameter, value);
    EditFeatureAcceptedIff(h, s, id, parameter, value);
    forall x ensures x in order <==> DependsOn(before, x, id) { ClosureIsReachability(before, id, x); }
    assert Evaluated(h, edit, before, order, p, b);
    OutcomeBound(h, edit, before, order, p, b);
    if b < |order| {
      assert order[b] in order;
      if before[order[b]].fingerprint.None? { BrokenMeetsCondition(h, edit, before, order, p, b); }
    }
    if RefusedEdit(before, id, value) { ConditionBreaks(h, edit, before, order, p, b); }
  }

  // ---------- In every run ----------

  lemma {:induction false} InitializePositive(h: Digest, features: FeatureMap, bracket: string, dims: Dimensions)
    requires PositiveCurrent(features) && dims.Positive()
    ensures PositiveCurrent(features + BracketFeatures(h, bracket, dims))
  {
    hide FeatureId, BracketFeatures;
    var m := BracketFeatures(h, bracket, dims);
    BracketShape(h, bracket, dims, Base);
    forall k | k in m ensures m[k].inputValue.IsPositive() {
      var p :| k == FeatureId(bracket, p);
      BracketShape(h, bracket, dims, p);
    }
  }

  lemma {:induction false} EditBracketPositive(h: Digest, features: FeatureMap, bracket: string, dims: Dimensions)
    requires PositiveCurrent(features) && dims.Positive() && HoldsBracket(features, bracket)
    ensures PositiveCurrent(EditedBracket(h, features, bracket, dims))
  {
    hide FeatureId, EditedBracket;
    var r := EditedBracket(h, features, bracket, dims);
    EditedBracketShape(h, features, bracket, dims);
    forall k | k in r && r[k].status == CurrentValid ensures r[k].inputValue.IsPositive() {
      if IsPart(bracket, k) {
        var p :| k == FeatureId(bracket, p);
        assert Refreshed(features[k].(inputValue := dims.Of(p)), r[k]);
      }
    }
  }

  lemma {:induction false} EditFeaturePositive(h: Digest, edit: Edit, before: FeatureMap, order: seq<string>, p: Progress, b: nat)
    requires Outcome(h, edit, before, order, p, b) && ValidFeatures(before) && edit.value.Finite? && PositiveCurrent(before)
    ensures PositiveCurrent(p.features)
  {
    hide Acyclic, StatusConsistent;
    forall k | k in p.features && p.features[k].status == CurrentValid ensures p.features[k].inputValue.IsPositive() {
      assert ValidFeature(before, k);
      if k in order {
        var i :| 0 <= i < |order| && order[i] == k;
        assert FateAt(h, edit, before, order, p, b, i);
      }
    }
  }

  lemma {:induction false} NewSnapshotPositive(h: Digest, x: Session, c: Command)
    requires ValidState(x.state) && PositiveCurrent(x.state.active.features)
    requires MakesSnapshot(c) && Build(h, x.state, x.log, c).Ok?
    ensures PositiveCurrent(Build(h, x.state, x.log, c).value.active.features)
  {
    hide Displace, RevisionName, PositiveCurrent, RecomputedAll, WithValues, EvaluateAll, Suffix, WithParts, Outcome;
    var features := x.state.active.features;
    match c {
      case Init(b, d) => InitializePositive(h, features, b, d);
      case ReviseBracket(b, d) =>
        BracketIdsHold(features, b);
        EditBracketPositive(h, features, b, d);
      case ReviseFeature(id, parameter, v) =>
        var edit, order, p, b := EditOutcome(h, x.state, id, parameter, v);
        EditFeaturePositive(h, edit, features, order, p, b);
    }
  }

  /** In every run a current feature has a positive value, in every snapshot the session holds. */
  lemma {:induction false} RunPositive(h: Digest, commands: seq<Command>)
    ensures Everywhere(Run(h, commands), (x: Snapshot) => PositiveCurrent(x.features))
  {
    hide Build, Apply, Execute;
    var good := (x: Snapshot) => PositiveCurrent(x.features);
    if commands != [] {
      var n := |commands| - 1;
      RunPositive(h, commands[..n]);
      var x := Run(h, commands[..n]);
      RunReplays(h, commands[..n]);
      AcceptedLog(x.log);
      if MakesSnapshot(commands[n]) && Build(h, x.state, x.log, commands[n]).Ok? { NewSnapshotPositive(h, x, commands[n]); }
      ExecuteKeeps(h, x, commands[n], good);
    }
  }

  /** In every run exactly the feature edits that the state and the arguments tell are refused, and no other event. */
  lemma {:induction false} RunRefusesExactly(h: Digest, commands: seq<Command>, c: Command)
    requires var x := Run(h, commands); Build(h, x.state, x.log, c).Ok?
    ensures var x := Run(h, commands);
      && (c.ReviseFeature? ==> c.id in x.state.active.features)
      && (Apply(x.state, Build(h, x.state, x.log, c).value).Err? <==>
            c.ReviseFeature? && RefusedEdit(x.state.active.features, c.id, c.value))
  {
    hide Run, Apply, EditFeature, RefusedEdit, PositiveCurrent;
    var x := Run(h, commands);
    RunAccepts(h, commands, c);
    if c.ReviseFeature? {
      RunReplays(h, commands);
      AcceptedLog(x.log);
      RunPositive(h, commands);
      EditRefusedIff(h, x.state, c.id, c.parameter, c.value);
    }
  }

  // ---------- A refused edit ----------

  /** In a run without naming and restoring, an edit with a finite value of a feature that is there is always built. */
  lemma {:induction false} EditIsBuilt(h: Digest, commands: seq<Command>, id: string, parameter: string, value: F64)
    requires EditsAndMoves(commands) && value.Finite? && id in Run(h, commands).state.active.features
    ensures EditFeature(h, Run(h, commands).state, id, parameter, value).Ok?
  {
    hide Run, RecoveryName, RevisionName, EvaluateAll, ValidFeatures;
    var x := Run(h, commands);
    RunStaysWalkable(h, commands);
    NextNameFree(x.state, "historical-edit");
    AcceptedLog(x.log);
    DirtyOrdered(x.state.active.features, id);
  }

  /** A value that is not positive breaks a target whose dependencies are current. */
  lemma {:induction false} TargetBreaks(h: Digest, s: State, id: string, parameter: string, value: F64)
    requires ValidState(s) && EditFeature(h, s, id, parameter, value).Ok? && value.NotAboveZero()
    requires id in s.active.features && forall e :: e in s.active.features[id].dependencies ==> IsCurrent(s.active.features, e)
    ensures var after := EditFeature(h, s, id, parameter, value).value.0.active.features;
      && after.Keys == s.active.features.Keys && !IsCurrent(after, id)
      && after[id].dependencies == s.active.features[id].dependencies
  {
    hide Outcome, EditFeature, ValidFeatures, DependsOn, Sequenced, EvaluateAll, Reachable, HasFailedDependency;
    var before := s.active.features;
    var edit, order, p, b := EditOutcome(h, s, id, parameter, value);
    forall x ensures x in order <==> DependsOn(before, x, id) { ClosureIsReachability(before, id, x); }
    assert Evaluated(h, edit, before, order, p, b);
    TargetFirst(h, edit, before, order, p, b);
    assert id in order;
    NoFailureIff(h, edit, before, order, p, b, id);
    FateOf(h, edit, before, order, p, b, 0);
    EditedKeys(h, edit, before, order, p, b);
  }

  /** Breaking a feature twice in a row: the second edit is built and refused, and the session stays as it was. */
  lemma {:induction false} BreakingTwiceIsRefused(h: Digest, bracket: string, dims: Dimensions, parameter: string, u: F64, v: F64)
    requires bracket != "" && dims.Positive() && u.Finite? && u.NotAboveZero() && v.Finite? && v.NotAboveZero()
    ensures var base := FeatureId(bracket, Base);
      var twice := [Init(bracket, dims), ReviseFeature(base, parameter, u)];
      var c := ReviseFeature(base, parameter, v);
      var x := Run(h, twice);
      && |x.log| == 2 && Build(h, x.state, x.log, c).Ok? && Apply(x.state, Build(h, x.state, x.log, c).value).Err?
      && Run(h, twice + [c]) == x
  {
    hide FeatureId, Run, Apply, EditFeature, ValidFeatures, BracketFeatures, RevisionName;
    var base := FeatureId(bracket, Base);
    var first := [Init(bracket, dims)];
    var second, c := ReviseFeature(base, parameter, u), ReviseFeature(base, parameter, v);
    var one := Run(h, first);
    Initialized(h, bracket, dims);
    LogsGrow(h, first);
    BracketShape(h, bracket, dims, Base);
    EditIsBuilt(h, first, base, parameter, u);
    TargetBreaks(h, one.state, base, parameter, u);
    RunRefusesExactly(h, first, second);
    RunStep(h, first, second);
    assert first + [second] == [Init(bracket, dims), second];
    var x := Run(h, first + [second]);
    ApplySound(one.state, EditFeature(h, one.state, base, parameter, u).value.0);
    LogsGrow(h, first + [second]);
    EditIsBuilt(h, first + [second], base, parameter, v);
    RunRefusesExactly(h, first + [second], c);
    RunStep(h, first + [second], c);
  }
}
