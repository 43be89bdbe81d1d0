/** What one feature edit does to the whole map, and how five of them make one bracket edit. */
module HistoryEdits {
  import opened Wrappers
  import opened Text
  import opened HistoryModel
  import opened HistoryGraph
  import opened HistoryEvaluation
  import opened HistoryEvents
  import opened HistoryOperations
  import opened HistoryAcceptance
  import opened HistoryFingerprints

  /** The dirty set is split into evaluated, blocked and at most one broken feature; nothing else changes. */
  ghost predicate Partitioned(before: FeatureMap, after: FeatureMap, target: string, ev: Evaluation) {
    && after.Keys == before.Keys
    && |ev.diagnostics| <= 1
    && (forall x :: x in ev.dirty ==> x in before)
    && (forall x :: x in ev.dirty <==> x in ev.evaluated || x in ev.blocked || (ev.diagnostics != [] && x == ev.diagnostics[0].featureId))
    && (forall x :: x in ev.evaluated ==> x !in ev.blocked && after[x].status == CurrentValid)
    && (forall x :: x in ev.blocked ==> after[x].status == BlockedByFailure)
    && (ev.diagnostics != [] ==> after[ev.diagnostics[0].featureId].status == Broken)
    && (forall x :: x in ev.dirty && HasFailedDependency(after, x) ==> x in ev.blocked)
    && (forall x :: x in before && x !in ev.dirty ==> after[x] == before[x])
    && (forall x :: x in before && x != target ==> after[x].inputValue == before[x].inputValue)
  }

  lemma {:induction false} OutcomePartitions(h: Digest, edit: Edit, before: FeatureMap, order: seq<string>, p: Progress, b: nat)
    requires Outcome(h, edit, before, order, p, b) && forall x :: x in edit.dirty <==> x in order
    ensures Partitioned(before, p.features, edit.target, Evaluation(edit.dirty, p.evaluated, p.blocked, p.diagnostics))
  {
    hide FateAt, HasFailedDependency, DiagnosticsNameBroken;
    OutcomeMetadata(h, edit, before, order, p, b);
    forall x | x in before ensures x != edit.target ==> p.features[x].inputValue == before[x].inputValue {
      FateKeepsShape(h, edit, before, order, p, b, x);
    }
    forall x | x in order ensures FateStatus(p, x) && (HasFailedDependency(p.features, x) ==> x in p.blocked) {
      FateHasStatus(h, edit, before, order, p, b, x);
    }
    if b < |order| { BrokenHasStatus(h, edit, before, order, p, b); }
  }

  /**
   * A feature edit dirties exactly the target and the features that depend on it. It splits them into evaluated,
   * blocked and at most one broken feature, blocks every dirty feature that ends with a dependency that is not
   * current, leaves everything else as it was, and changes no input value but the target's.
   */
  lemma {:induction false} EditPartition(h: Digest, s: State, target: string, parameter: string, value: F64)
    requires ValidState(s) && EditFeature(h, s, target, parameter, value).Ok?
    ensures var (event, ev) := EditFeature(h, s, target, parameter, value).value;
      && Partitioned(s.active.features, event.active.features, target, ev)
      && forall x :: x in ev.dirty <==> DependsOn(s.active.features, x, target)
  {
    hide EditFeature, ValidState, Outcome, Partitioned, EvaluateAll, Reachable;
    var edit, order, p, b := EditOutcome(h, s, target, parameter, value);
    OutcomePartitions(h, edit, s.active.features, order, p, b);
    assert ValidFeatures(s.active.features) by { StateFeatures(s); }
    DirtyOrdered(s.active.features, target);
    forall x ensures x in edit.dirty <==> DependsOn(s.active.features, x, target) {
      ClosureIsReachability(s.active.features, target, x);
    }
  }

  lemma {:induction false} StateFeatures(s: State)
    requires ValidState(s)
    ensures ValidFeatures(s.active.features)
  {
  }

  ghost predicate FateStatus(p: Progress, x: string)
    requires x in p.features
  {
    (x in p.evaluated ==> p.features[x].status == CurrentValid) && (x in p.blocked ==> p.features[x].status == BlockedByFailure)
  }

  lemma {:induction false} FateHasStatus(h: Digest, edit: Edit, before: FeatureMap, order: seq<string>, p: Progress, b: nat, x: string)
    requires Outcome(h, edit, before, order, p, b) && x in order
    ensures FateStatus(p, x) && (HasFailedDependency(p.features, x) ==> x in p.blocked)
  {
    var i :| 0 <= i < |order| && order[i] == x;
    assert FateAt(h, edit, before, order, p, b, i);
  }

  lemma {:induction false} BrokenHasStatus(h: Digest, edit: Edit, before: FeatureMap, order: seq<string>, p: Progress, b: nat)
    requires Outcome(h, edit, before, order, p, b) && b < |order|
    ensures p.features[order[b]].status == Broken
  {
    assert FateAt(h, edit, before, order, p, b, b);
  }

  // ---------- Five feature edits make one bracket edit ----------

  /** The bracket is whole, current and positive, and nothing else depends on its parts. */
  ghost predicate Standalone(features: FeatureMap, bracket: string) {
    && CanonicalParts(features, bracket)
    && (forall p :: var f := features[FeatureId(bracket, p)];
          f.status == CurrentValid && f.inputValue.IsPositive() && f.lastValid.None? && f.diagnostic.None?)
    && (forall k :: k in features && !IsPart(bracket, k) ==> forall d :: d in features[k].dependencies ==> !IsPart(bracket, d))
  }

  /** The next `n` names for snapshots displaced by an edit are free. */
  ghost predicate NamesFree(s: State, n: nat) {
    forall i :: s.ordinal < i <= s.ordinal + n ==> RecoveryName("historical-edit", i) !in s.named
  }

  lemma {:induction false} DirtyAreParts(features: FeatureMap, bracket: string, part: Part, x: string)
    requires ValidFeatures(features) && Standalone(features, bracket) && x in Closure(features, {FeatureId(bracket, part)})
    ensures IsPart(bracket, x)
  {
    hide FeatureId, Acyclic, StatusConsistent;
    var parts := set k | k in features && IsPart(bracket, k);
    forall k | k in features && Touches(features[k], parts) ensures features[k].id in parts {
      assert ValidFeature(features, k);
    }
    ClosureLeast(features, {FeatureId(bracket, part)}, parts);
  }

  /** `p` is `part` or depends on it, directly or not. */
  ghost predicate Follows(p: Part, part: Part)
    decreases Depth(p)
  {
    p == part || (DependencyPart(p).Some? && Follows(DependencyPart(p).value, part))
  }

  ghost function Followers(bracket: string, part: Part): (r: set<string>)
    ensures forall k :: k in r <==> exists p :: Follows(p, part) && k == FeatureId(bracket, p)
  {
    set p: Part | Follows(p, part) :: FeatureId(bracket, p)
  }

  /** An edit of one part reaches exactly the parts that follow it. */
  lemma {:induction false} DirtyAreFollowers(features: FeatureMap, bracket: string, part: Part, q: Part)
    requires ValidFeatures(features) && Standalone(features, bracket)
    ensures FeatureId(bracket, q) in Closure(features, {FeatureId(bracket, part)}) <==> Follows(q, part)
  {
    hide FeatureId, ValidFeatures, Standalone, Followers, Closure, ClosedUnderDependents, Follows;
    FollowsSelf(part);
    FollowersClosed(features, bracket, part);
    ClosureLeast(features, {FeatureId(bracket, part)}, Followers(bracket, part));
    if FeatureId(bracket, q) in Followers(bracket, part) {
      var p :| Follows(p, part) && FeatureId(bracket, q) == FeatureId(bracket, p);
      PartIdsDistinct(bracket, q, p);
    }
    if Follows(q, part) { FollowersReached(features, bracket, part, q); }
  }

  lemma {:induction false} FollowersClosed(features: FeatureMap, bracket: string, part: Part)
    requires ValidFeatures(features) && Standalone(features, bracket)
    ensures ClosedUnderDependents(features, Followers(bracket, part))
  {
    hide FeatureId, Acyclic, StatusConsistent, Followers, Standalone;
    var followers := Followers(bracket, part);
    forall k | k in features && Touches(features[k], followers) ensures features[k].id in followers {
      assert ValidFeature(features, k);
      var d :| d in features[k].dependencies && d in followers;
      var p :| Follows(p, part) && d == FeatureId(bracket, p);
      var r := DependentPart(features, bracket, k, p);
      assert Follows(r, part);
    }
  }

  lemma {:induction false} DependentPart(features: FeatureMap, bracket: string, k: string, p: Part) returns (r: Part)
    requires Standalone(features, bracket) && k in features && FeatureId(bracket, p) in features[k].dependencies
    ensures k == FeatureId(bracket, r) && DependencyPart(r) == Some(p)
  {
    hide FeatureId;
    assert IsPart(bracket, k);
    r :| k == FeatureId(bracket, r);
    PartIdsDistinct(bracket, p, DependencyPart(r).value);
  }

  lemma {:induction false} FollowersReached(features: FeatureMap, bracket: string, part: Part, q: Part)
    requires ValidFeatures(features) && Standalone(features, bracket) && Follows(q, part)
    ensures FeatureId(bracket, q) in Closure(features, {FeatureId(bracket, part)})
    decreases Depth(q)
  {
    hide FeatureId, Acyclic, StatusConsistent;
    if q != part {
      FollowersReached(features, bracket, part, DependencyPart(q).value);
      var k := FeatureId(bracket, q);
      assert FeatureId(bracket, DependencyPart(q).value) in features[k].dependencies;
    }
  }

  /** With positive values everywhere on the bracket, no dirty part is broken or blocked. */
  lemma {:induction false} PartEvaluated(h: Digest, edit: Edit, before: FeatureMap, order: seq<string>, p: Progress, b: nat,
                                         bracket: string, q: Part)
    requires Outcome(h, edit, before, order, p, b) && Standalone(before, bracket) && edit.value.IsPositive()
    requires b == |order|
    ensures p.features[FeatureId(bracket, q)].status == CurrentValid
    ensures FeatureId(bracket, q) in order ==> FeatureId(bracket, q) in p.evaluated
    decreases Depth(q)
  {
    hide FeatureId;
    var k := FeatureId(bracket, q);
    if k in order {
      var i :| 0 <= i < |order| && order[i] == k;
      assert FateAt(h, edit, before, order, p, b, i);
      FateKeepsShape(h, edit, before, order, p, b, k);
      if DependencyPart(q).Some? {
        PartEvaluated(h, edit, before, order, p, b, bracket, DependencyPart(q).value);
      }
    }
  }

  lemma {:induction false} BrokenIsNotPositive(h: Digest, edit: Edit, before: FeatureMap, order: seq<string>, p: Progress, b: nat)
    requires Outcome(h, edit, before, order, p, b)
    ensures b < |order| ==> EditedFeature(edit, order[b], before[order[b]]).inputValue.NotAboveZero()
  {
    if b < |order| { assert FateAt(h, edit, before, order, p, b, b); }
  }

  lemma {:induction false} NothingBreaks(h: Digest, edit: Edit, before: FeatureMap, order: seq<string>, p: Progress, b: nat, bracket: string)
    requires Outcome(h, edit, before, order, p, b) && Standalone(before, bracket) && edit.value.IsPositive()
    requires forall x :: x in order ==> IsPart(bracket, x)
    ensures b == |order|
  {
    hide FeatureId, FateAt;
    forall i | 0 <= i < |order| ensures !EditedFeature(edit, order[i], before[order[i]]).inputValue.NotAboveZero() {
      assert IsPart(bracket, order[i]);
      var q :| order[i] == FeatureId(bracket, q);
    }
    BrokenIsNotPositive(h, edit, before, order, p, b);
  }

  /** One positive edit of one part: it and what follows it settle, the rest is untouched, and no other value changes. */
  ghost predicate PartRevised(h: Digest, a: FeatureMap, b: FeatureMap, bracket: string, part: Part, value: F64) {
    && a.Keys == b.Keys
    && (forall k :: k in a && !IsPart(bracket, k) ==> b[k] == a[k])
    && (forall p :: FeatureId(bracket, p) in a)
    && (forall p :: b[FeatureId(bracket, p)].inputValue == if p == part then value else a[FeatureId(bracket, p)].inputValue)
    && (forall p :: Follows(p, part) ==> Settled(h, b, FeatureId(bracket, p)))
    && (forall p :: !Follows(p, part) ==> b[FeatureId(bracket, p)] == a[FeatureId(bracket, p)])
    && (forall p :: var k := FeatureId(bracket, p); Settled(h, a, k) ==> Settled(h, b, k))
  }

  lemma {:induction false} PartsSettled(h: Digest, edit: Edit, before: FeatureMap, order: seq<string>, p: Progress, b: nat, bracket: string, q: Part)
    requires Outcome(h, edit, before, order, p, b) && ValidFeatures(before) && Standalone(before, bracket)
    requires edit.value.IsPositive() && b == |order| && ClosedUnderDependents(before, set x | x in order)
    ensures var k := FeatureId(bracket, q); (k in order || Settled(h, before, k)) ==> Settled(h, p.features, k)
  {
    hide FeatureId, FateAt, Acyclic, StatusConsistent, Settled, ValidFeature, Standalone;
    var k := FeatureId(bracket, q);
    if k in order {
      PartEvaluated(h, edit, before, order, p, b, bracket, q);
      EditSettles(h, edit, before, order, p, b, k);
    } else if Settled(h, before, k) {
      EditKeepsSettled(h, edit, before, order, p, b, k);
    }
  }

  lemma {:induction false} OutcomeRevises(h: Digest, edit: Edit, before: FeatureMap, order: seq<string>, p: Progress, b: nat, bracket: string, part: Part)
    requires Outcome(h, edit, before, order, p, b) && ValidFeatures(before) && Standalone(before, bracket)
    requires edit.value.IsPositive() && ClosedUnderDependents(before, set x | x in order)
    requires forall x :: x in order ==> IsPart(bracket, x)
    requires forall q :: FeatureId(bracket, q) in order <==> Follows(q, part)
    requires edit.target == FeatureId(bracket, part) && edit.target in order
    ensures PartRevised(h, before, p.features, bracket, part, edit.value) && Standalone(p.features, bracket)
    ensures p.diagnostics == []
  {
    hide FeatureId, FateAt, Acyclic, StatusConsistent, Settled, ValidFeature, Standalone;
    NothingBreaks(h, edit, before, order, p, b, bracket);
    RevisedShape(h, edit, before, order, p, b, bracket, part);
    forall q ensures var k := FeatureId(bracket, q); (k in order || Settled(h, before, k)) ==> Settled(h, p.features, k) {
      PartsSettled(h, edit, before, order, p, b, bracket, q);
    }
  }

  lemma {:induction false} EditRevisesPart(h: Digest, s: State, bracket: string, part: Part, parameter: string, value: F64)
    requires ValidState(s) && Standalone(s.active.features, bracket) && value.IsPositive()
    requires EditFeature(h, s, FeatureId(bracket, part), parameter, value).Ok?
    ensures var (event, ev) := EditFeature(h, s, FeatureId(bracket, part), parameter, value).value;
      && PartRevised(h, s.active.features, event.active.features, bracket, part, value)
      && Standalone(event.active.features, bracket)
      && ev.diagnostics == []
  {
    hide FeatureId, Outcome, EvaluateAll, EditFeature, ValidState, Standalone, PartRevised, Reachable, ValidFeatures;
    var id := FeatureId(bracket, part);
    var edit, order, p, b := EditOutcome(h, s, id, parameter, value);
    var before := s.active.features;
    assert ValidFeatures(before) by { StateFeatures(s); }
    DirtyOrdered(before, id);
    forall x | x in order ensures IsPart(bracket, x) { DirtyAreParts(before, bracket, part, x); }
    forall q ensures FeatureId(bracket, q) in order <==> Follows(q, part) { DirtyAreFollowers(before, bracket, part, q); }
    assert (set y | y in order) == Closure(before, {id});
    OutcomeRevises(h, edit, before, order, p, b, bracket, part);
  }

  lemma {:induction false} RevisedShape(h: Digest, edit: Edit, before: FeatureMap, order: seq<string>, p: Progress, b: nat, bracket: string, part: Part)
    requires Outcome(h, edit, before, order, p, b) && Standalone(before, bracket) && edit.value.IsPositive()
    requires b == |order| && (forall x :: x in order ==> IsPart(bracket, x))
    requires edit.target == FeatureId(bracket, part) && edit.target in order
    ensures Standalone(p.features, bracket)
    ensures forall q :: FeatureId(bracket, q) in before
    ensures forall q :: var k := FeatureId(bracket, q);
      p.features[k].inputValue == if q == part then edit.value else before[k].inputValue
  {
    hide FeatureId;
    forall q ensures var k := FeatureId(bracket, q);
      && k in p.features && p.features[k].id == k && p.features[k].dependencies == PartDependencies(bracket, q)
      && p.features[k].status == CurrentValid && p.features[k].lastValid.None? && p.features[k].diagnostic.None?
      && p.features[k].inputValue == if q == part then edit.value else before[k].inputValue
    {
      var k := FeatureId(bracket, q);
      PartEvaluated(h, edit, before, order, p, b, bracket, q);
      FateKeepsShape(h, edit, before, order, p, b, k);
      if k == edit.target { PartIdsDistinct(bracket, q, part); }
      if k in order {
        var i :| 0 <= i < |order| && order[i] == k;
        assert FateAt(h, edit, before, order, p, b, i);
      }
    }
    forall k | k in before && !IsPart(bracket, k) ensures p.features[k] == before[k] {}
  }

  /** The part settles and holds its value: what identifies it, whatever happened on the way. */
  ghost predicate FinalPart(h: Digest, features: FeatureMap, bracket: string, dims: Dimensions, p: Part) {
    var k := FeatureId(bracket, p);
    && Settled(h, features, k)
    && features[k].id == k && features[k].dependencies == PartDependencies(bracket, p)
    && features[k].inputValue == dims.Of(p) && features[k].lastValid.None? && features[k].diagnostic.None?
  }

  lemma {:induction false} FinalPartUnique(h: Digest, a: FeatureMap, b: FeatureMap, bracket: string, dims: Dimensions, p: Part)
    requires forall q :: FinalPart(h, a, bracket, dims, q) && FinalPart(h, b, bracket, dims, q)
    ensures FinalPart(h, a, bracket, dims, p) && FinalPart(h, b, bracket, dims, p)
    ensures a[FeatureId(bracket, p)] == b[FeatureId(bracket, p)]
    decreases Depth(p)
  {
    hide FeatureId;
    var k := FeatureId(bracket, p);
    assert FinalPart(h, a, bracket, dims, p) && FinalPart(h, b, bracket, dims, p);
    if DependencyPart(p).Some? { FinalPartUnique(h, a, b, bracket, dims, DependencyPart(p).value); }
    assert Predecessors(a, PartDependencies(bracket, p)) == Predecessors(b, PartDependencies(bracket, p));
  }

  lemma {:induction false} FinalMapUnique(h: Digest, before: FeatureMap, a: FeatureMap, b: FeatureMap, bracket: string, dims: Dimensions)
    requires a.Keys == b.Keys == before.Keys
    requires forall k :: k in before && !IsPart(bracket, k) ==> a[k] == before[k] && b[k] == before[k]
    requires forall q :: FinalPart(h, a, bracket, dims, q) && FinalPart(h, b, bracket, dims, q)
    ensures a == b
  {
    hide FeatureId, FinalPart;
    forall k | k in before ensures a[k] == b[k] {
      if IsPart(bracket, k) {
        var p :| k == FeatureId(bracket, p);
        FinalPartUnique(h, a, b, bracket, dims, p);
      }
    }
  }

  lemma {:induction false} EditedBracketFinal(h: Digest, features: FeatureMap, bracket: string, dims: Dimensions, p: Part)
    requires CanonicalParts(features, bracket)
    ensures FinalPart(h, EditedBracket(h, features, bracket, dims), bracket, dims, p)
  {
    hide FeatureId, EditedBracket;
    EditedBracketShape(h, features, bracket, dims);
    EditedBracketSettled(h, features, bracket, dims);
    var r := EditedBracket(h, features, bracket, dims);
    assert Refreshed(features[FeatureId(bracket, p)].(inputValue := dims.Of(p)), r[FeatureId(bracket, p)]);
    assert Settled(h, r, FeatureId(bracket, p));
  }

  /** One edit as a session step. */
  lemma {:induction false} ReviseStep(h: Digest, x: Session, bracket: string, part: Part, parameter: string, value: F64, n: nat)
    requires ValidState(x.state) && Standalone(x.state.active.features, bracket) && value.IsPositive() && NamesFree(x.state, n + 1)
    ensures var y := Execute(h, x, ReviseFeature(FeatureId(bracket, part), parameter, value));
      && ValidState(y.state) && Standalone(y.state.active.features, bracket) && NamesFree(y.state, n)
      && PartRevised(h, x.state.active.features, y.state.active.features, bracket, part, value)
  {
    hide FeatureId, EditFeature, Standalone, PartRevised, Apply, NamesFree, ValidFeatures, ValidNamed;
    var s := x.state;
    var id := FeatureId(bracket, part);
    EditBuilt(h, s, bracket, part, parameter, value, n);
    var (event, ev) := EditFeature(h, s, id, parameter, value).value;
    EditRevisesPart(h, s, bracket, part, parameter, value);
    EditFeatureAcceptedIff(h, s, id, parameter, value);
    ApplySound(s, event);
  }

  lemma {:induction false} EditBuilt(h: Digest, s: State, bracket: string, part: Part, parameter: string, value: F64, n: nat)
    requires ValidState(s) && Standalone(s.active.features, bracket) && value.IsPositive() && NamesFree(s, n + 1)
    ensures EditFeature(h, s, FeatureId(bracket, part), parameter, value).Ok?
    ensures var event := EditFeature(h, s, FeatureId(bracket, part), parameter, value).value.0;
      NamesFree(State(event.active, event.named, s.ordinal + 1), n)
  {
    hide FeatureId, RecoveryName, RevisionName, EvaluateAll, Standalone, ValidNamed;
    var id := FeatureId(bracket, part);
    StandaloneHolds(s.active.features, bracket, part);
    DirtyOrdered(s.active.features, id);
    assert RecoveryName("historical-edit", s.ordinal + 1) !in s.named;
    forall i | s.ordinal + 1 < i <= s.ordinal + 1 + n
      ensures RecoveryName("historical-edit", i) != RecoveryName("historical-edit", s.ordinal + 1)
    {
      RecoveryNamesDiffer(i, s.ordinal + 1);
    }
  }

  lemma {:induction false} StandaloneHolds(features: FeatureMap, bracket: string, p: Part)
    requires Standalone(features, bracket)
    ensures FeatureId(bracket, p) in features
  {
  }

  lemma {:induction false} RecoveryNamesDiffer(m: nat, n: nat)
    requires m != n
    ensures RecoveryName("historical-edit", m) != RecoveryName("historical-edit", n)
  {
    if RecoveryName("historical-edit", m) == RecoveryName("historical-edit", n) {
      NumberedNameInjective("recovered-before-" + "historical-edit", m, "recovered-before-" + "historical-edit", n);
    }
  }

  /** One edit after the other, for a list of parts. */
  function ReviseParts(h: Digest, x: Session, bracket: string, dims: Dimensions, parameters: Part -> string, parts: seq<Part>): Session {
    if parts == [] then x else
    var n := |parts| - 1;
    Execute(h, ReviseParts(h, x, bracket, dims, parameters, parts[..n]),
            ReviseFeature(FeatureId(bracket, parts[n]), parameters(parts[n]), dims.Of(parts[n])))
  }

  lemma {:induction false} RevisedSoFar(
    h: Digest, x: Session, bracket: string, dims: Dimensions, parameters: Part -> string, parts: seq<Part>, more: nat)
    requires ValidState(x.state) && Standalone(x.state.active.features, bracket) && dims.Positive()
    requires NamesFree(x.state, |parts| + more)
    ensures var y := ReviseParts(h, x, bracket, dims, parameters, parts);
      var a, b := x.state.active.features, y.state.active.features;
      && ValidState(y.state) && Standalone(b, bracket) && NamesFree(y.state, more)
      && a.Keys == b.Keys && (forall k :: k in a && !IsPart(bracket, k) ==> b[k] == a[k])
      && forall p :: p in parts ==> var k := FeatureId(bracket, p);
          Settled(h, b, k) && b[k].inputValue == dims.Of(p)
    decreases |parts|
  {
    hide FeatureId, Execute, Standalone, NamesFree, ValidState, Settled, Follows;
    if parts != [] {
      var n := |parts| - 1;
      RevisedSoFar(h, x, bracket, dims, parameters, parts[..n], more + 1);
      var y := ReviseParts(h, x, bracket, dims, parameters, parts[..n]);
      ReviseStep(h, y, bracket, parts[n], parameters(parts[n]), dims.Of(parts[n]), more);
      forall p | p in parts ensures p in parts[..n] || p == parts[n] {}
      assert Follows(parts[n], parts[n]) by { FollowsSelf(parts[n]); }
    }
  }

  lemma {:induction false} FollowsSelf(p: Part)
    ensures Follows(p, p)
  {
  }

  /** Successive single-feature edits of the five parts, in any order, give the feature map of one bracket edit. */
  lemma {:induction false} FiveEditsMakeOne(
    h: Digest, x: Session, bracket: string, dims: Dimensions, parameters: Part -> string, parts: seq<Part>)
    requires ValidState(x.state) && Standalone(x.state.active.features, bracket) && NamesFree(x.state, |parts|)
    requires forall p :: p in parts
    requires EditBracket(h, x.state, bracket, dims).Ok?
    ensures ReviseParts(h, x, bracket, dims, parameters, parts).state.active.features
         == EditBracket(h, x.state, bracket, dims).value.0.active.features
  {
    hide FeatureId, Execute, Displace, RevisionName, Settled, RecomputedAll, WithValues;
    var features := x.state.active.features;
    RevisedSoFar(h, x, bracket, dims, parameters, parts, 0);
    EditedBracketShape(h, features, bracket, dims);
    var a := ReviseParts(h, x, bracket, dims, parameters, parts).state.active.features;
    forall p ensures FinalPart(h, a, bracket, dims, p) && FinalPart(h, EditedBracket(h, features, bracket, dims), bracket, dims, p) {
      EditedBracketFinal(h, features, bracket, dims, p);
      assert p in parts;
      assert Settled(h, a, FeatureId(bracket, p));
    }
    FinalMapUnique(h, features, a, EditedBracket(h, features, bracket, dims), bracket, dims);
  }
}
