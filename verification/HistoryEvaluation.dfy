/** Re-evaluation of the dirty features in dependency order, and what it leaves behind. */
module HistoryEvaluation {
  import opened Wrappers
  import opened HistoryModel
  import opened HistoryGraph

  /** One single-feature edit: the target, its new value and the dirty features it reports. */
  datatype Edit = Edit(target: string, parameter: string, value: F64, dirty: seq<string>)

  /** The working state of the evaluation loop. */
  datatype Progress = Progress(
    features: FeatureMap, evaluated: seq<string>, blocked: seq<string>, diagnostics: seq<Diagnostic>, failed: bool)

  predicate HasFailedDependency(features: FeatureMap, id: string)
    requires id in features
  {
    exists d :: d in features[id].dependencies && d in features && features[d].status != CurrentValid
  }

  function Failure(edit: Edit, id: string): Diagnostic {
    Diagnostic("historical_geometry_invalid", id, edit.parameter + " must produce positive material", edit.dirty,
               Some("correct_geometry_or_restore_revision"))
  }

  function BlockedFeature(f: Feature): Feature {
    f.(lastValid := if f.lastValid.None? then f.fingerprint else f.lastValid,
       fingerprint := None, status := BlockedByFailure, diagnostic := None)
  }

  function EditedFeature(edit: Edit, id: string, f: Feature): Feature {
    if id == edit.target then f.(inputValue := edit.value) else f
  }

  function BrokenFeature(edit: Edit, id: string, f: Feature): Feature {
    f.(lastValid := f.fingerprint, fingerprint := None, status := Broken, diagnostic := Some(Failure(edit, id)))
  }

  function EvaluatedFeature(h: Digest, f: Feature, features: FeatureMap): Feature {
    f.(fingerprint := Some(GeometryFingerprint(h, f, features)), lastValid := None, status := CurrentValid, diagnostic := None)
  }

  function EvaluateOne(h: Digest, edit: Edit, p: Progress, id: string): Progress
    requires id in p.features
  {
    var feature := p.features[id];
    if p.failed || HasFailedDependency(p.features, id) then
      p.(features := p.features[id := BlockedFeature(feature)], blocked := p.blocked + [id])
    else
      var edited := EditedFeature(edit, id, feature);
      var features := p.features[id := edited];
      if edited.inputValue.NotAboveZero() then
        p.(features := features[id := BrokenFeature(edit, id, edited)],
           diagnostics := p.diagnostics + [Failure(edit, id)], failed := true)
      else
        p.(features := features[id := EvaluatedFeature(h, edited, features)], evaluated := p.evaluated + [id])
  }

  function Start(features: FeatureMap): Progress {
    Progress(features, [], [], [], false)
  }

  /** The evaluation loop over `order`, as a fold from the left. */
  function EvaluateAll(h: Digest, edit: Edit, features: FeatureMap, order: seq<string>): (p: Progress)
    requires forall id :: id in order ==> id in features
    ensures p.features.Keys == features.Keys
  {
    if order == [] then Start(features) else
    var n := |order| - 1;
    assert order[n] in order;
    EvaluateOne(h, edit, EvaluateAll(h, edit, features, order[..n]), order[n])
  }

  // ---------- What the loop leaves behind ----------

  /** A current feature whose dependencies are present and current and whose fingerprint is theirs and its own. */
  ghost predicate Settled(h: Digest, features: FeatureMap, id: string) {
    && id in features
    && features[id].status == CurrentValid
    && features[id].fingerprint == Some(GeometryFingerprint(h, features[id], features))
    && forall d :: d in features[id].dependencies ==> d in features && features[d].status == CurrentValid
  }

  /** The exclusive fates of a visited feature, each with the whole feature it leaves. */
  ghost predicate EvaluatedFate(h: Digest, edit: Edit, before: FeatureMap, p: Progress, id: string)
    requires id in before && id in p.features
  {
    var f := EditedFeature(edit, id, before[id]);
    && id in p.evaluated && id !in p.blocked
    && !f.inputValue.NotAboveZero()
    && p.features[id] == EvaluatedFeature(h, f, p.features)
  }

  ghost predicate BlockedFate(before: FeatureMap, p: Progress, id: string)
    requires id in before && id in p.features
  {
    && id in p.blocked && id !in p.evaluated
    && p.features[id] == BlockedFeature(before[id])
  }

  ghost predicate BrokenFate(edit: Edit, before: FeatureMap, p: Progress, id: string)
    requires id in before && id in p.features
  {
    var f := EditedFeature(edit, id, before[id]);
    && id !in p.evaluated && id !in p.blocked
    && f.inputValue.NotAboveZero()
    && p.features[id] == BrokenFeature(edit, id, f)
  }

  /**
   * The whole result of a loop whose first failure is at position `b` of `order` (`b == |order|`: no failure).
   * Before the failure a feature is blocked exactly when a dependency is not current, and evaluated otherwise;
   * the feature at `b` is broken with current dependencies; everything after it is blocked.
   */
  ghost predicate Outcome(h: Digest, edit: Edit, before: FeatureMap, order: seq<string>, p: Progress, b: nat) {
    && b <= |order|
    && (forall id :: id in order ==> id in before)
    && p.features.Keys == before.Keys
    && (forall id :: id in before && id !in order ==> p.features[id] == before[id])
    && (forall id :: id in p.evaluated || id in p.blocked ==> id in order)
    && (p.failed <==> b < |order|)
    && p.diagnostics == (if b < |order| then [Failure(edit, order[b])] else [])
    && forall i :: 0 <= i < |order| ==> FateAt(h, edit, before, order, p, b, i)
  }

  ghost predicate FateAt(h: Digest, edit: Edit, before: FeatureMap, order: seq<string>, p: Progress, b: nat, i: nat)
    requires i < |order| && order[i] in before && p.features.Keys == before.Keys
  {
    var id := order[i];
    if i > b then BlockedFate(before, p, id)
    else if i == b then BrokenFate(edit, before, p, id) && !HasFailedDependency(p.features, id)
    else if HasFailedDependency(p.features, id) then BlockedFate(before, p, id)
    else EvaluatedFate(h, edit, before, p, id)
  }

  lemma {:induction false} SameFingerprint(h: Digest, f: Feature, a: FeatureMap, b: FeatureMap)
    requires forall d :: d in f.dependencies ==> PredecessorFingerprint(a, d) == PredecessorFingerprint(b, d)
    ensures GeometryFingerprint(h, f, a) == GeometryFingerprint(h, f, b)
  {
    assert Predecessors(a, f.dependencies) == Predecessors(b, f.dependencies);
  }

  /** Replacing a feature that `x` does not depend on changes nothing `x` is evaluated from. */
  lemma {:induction false} ReplacedElsewhere(h: Digest, features: FeatureMap, x: string, id: string, g: Feature)
    requires x in features && id !in features[x].dependencies && x != id
    ensures HasFailedDependency(features[id := g], x) <==> HasFailedDependency(features, x)
    ensures GeometryFingerprint(h, features[x], features[id := g]) == GeometryFingerprint(h, features[x], features)
  {
    SameFingerprint(h, features[x], features[id := g], features);
  }

  /** Dependencies and ids are never touched, whatever the fate. */
  lemma {:induction false} FateKeepsShape(h: Digest, edit: Edit, before: FeatureMap, order: seq<string>, p: Progress, b: nat, id: string)
    requires Outcome(h, edit, before, order, p, b) && id in before
    ensures p.features[id].id == before[id].id && p.features[id].dependencies == before[id].dependencies
    ensures id != edit.target ==> p.features[id].inputValue == before[id].inputValue
    ensures p.features[id].inputValue in {before[id].inputValue, edit.value}
  {
    if id in order {
      var i :| 0 <= i < |order| && order[i] == id;
      assert FateAt(h, edit, before, order, p, b, i);
    }
  }

  lemma {:induction false} StepKeepsFates(h: Digest, edit: Edit, before: FeatureMap, pre: seq<string>, p: Progress, b: nat,
                       id: string, q: Progress, g: Feature, i: nat)
    requires Outcome(h, edit, before, pre, p, b) && i < |pre|
    requires id in before && id !in pre && id !in before[pre[i]].dependencies
    requires q.features == p.features[id := g]
    requires q.evaluated in {p.evaluated, p.evaluated + [id]} && q.blocked in {p.blocked, p.blocked + [id]}
    ensures FateAt(h, edit, before, pre, q, b, i)
  {
    var x := pre[i];
    assert FateAt(h, edit, before, pre, p, b, i);
    FateKeepsShape(h, edit, before, pre, p, b, x);
    ReplacedElsewhere(h, p.features, x, id, g);
    var f := EditedFeature(edit, x, before[x]);
    SameFingerprint(h, f, p.features, q.features);
  }

  lemma {:induction false} LastFate(h: Digest, edit: Edit, before: FeatureMap, pre: seq<string>, p: Progress, b: nat, id: string, q: Progress, c: nat)
    requires Outcome(h, edit, before, pre, p, b) && id in before && id !in pre && id !in before[id].dependencies
    requires q == EvaluateOne(h, edit, p, id)
    requires c == if !p.failed && !q.failed then |pre| + 1 else b
    ensures q.features == p.features[id := q.features[id]] && q.features.Keys == before.Keys
    ensures (pre + [id])[|pre|] == id && FateAt(h, edit, before, pre + [id], q, c, |pre|)
    ensures q.failed <==> c < |pre| + 1
    ensures q.diagnostics == (if c < |pre| + 1 then [Failure(edit, (pre + [id])[c])] else [])
    ensures q.evaluated in {p.evaluated, p.evaluated + [id]} && q.blocked in {p.blocked, p.blocked + [id]}
  {
    var f := p.features[id];
    assert f == before[id];
    assert q.features == p.features[id := q.features[id]];
    if !p.failed && !HasFailedDependency(p.features, id) {
      var edited := EditedFeature(edit, id, f);
      SameFingerprint(h, edited, p.features[id := edited], q.features);
    }
    assert HasFailedDependency(p.features, id) <==> HasFailedDependency(q.features, id);
  }

  lemma {:induction false} OutcomeStep(h: Digest, edit: Edit, before: FeatureMap, pre: seq<string>, p: Progress, b: nat, id: string, q: Progress, c: nat)
    requires Outcome(h, edit, before, pre, p, b) && id in before && id !in pre && id !in before[id].dependencies
    requires forall i :: 0 <= i < |pre| ==> id !in before[pre[i]].dependencies
    requires q == EvaluateOne(h, edit, p, id)
    requires c == if !p.failed && !q.failed then |pre| + 1 else b
    ensures Outcome(h, edit, before, pre + [id], q, c)
  {
    LastFate(h, edit, before, pre, p, b, id, q, c);
    var order := pre + [id];
    forall i | 0 <= i < |order| ensures FateAt(h, edit, before, order, q, c, i) {
      if i < |pre| {
        StepKeepsFates(h, edit, before, pre, p, b, id, q, q.features[id], i);
        assert order[i] == pre[i];
      }
    }
  }

  lemma {:induction false} OutcomeExtends(h: Digest, edit: Edit, before: FeatureMap, order: seq<string>, p: Progress, b: nat) returns (c: nat)
    requires Sequenced(before, order) && order != []
    requires Outcome(h, edit, before, order[..|order| - 1], p, b)
    ensures order[|order| - 1] in p.features
    ensures Outcome(h, edit, before, order, EvaluateOne(h, edit, p, order[|order| - 1]), c)
  {
    var n := |order| - 1;
    SequencedPrefix(before, order);
    assert p.features.Keys == before.Keys;
    hide Outcome, Sequenced, EvaluateOne;
    var pre, id := order[..n], order[n];
    var q := EvaluateOne(h, edit, p, id);
    c := if !p.failed && !q.failed then |pre| + 1 else b;
    assert order == pre + [id];
    OutcomeStep(h, edit, before, pre, p, b, id, q, c);
  }

  /** The loop over a valid evaluation order has exactly the outcome above. */
  lemma {:induction false} EvaluateAllOutcome(h: Digest, edit: Edit, before: FeatureMap, order: seq<string>) returns (b: nat)
    requires Sequenced(before, order)
    ensures forall id :: id in order ==> id in before
    ensures Outcome(h, edit, before, order, EvaluateAll(h, edit, before, order), b)
  {
    if order == [] {
      b := 0;
    } else {
      var pre := order[..|order| - 1];
      SequencedPrefix(before, order);
      var a := EvaluateAllOutcome(h, edit, before, pre);
      b := OutcomeExtends(h, edit, before, order, EvaluateAll(h, edit, before, pre), a);
    }
  }
}
