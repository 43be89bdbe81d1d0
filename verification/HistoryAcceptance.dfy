/** Which built events the validator accepts: all of them, with two exact exceptions. */
module HistoryAcceptance {
  import opened Wrappers
  import opened Text
  import opened HistoryModel
  import opened HistoryGraph
  import opened HistoryEvaluation
  import opened HistoryEvents
  import opened HistoryOperations

  // ---------- Bracket features ----------

  lemma {:induction false} PartIdsDistinct(bracket: string, p: Part, q: Part)
    requires FeatureId(bracket, p) == FeatureId(bracket, q)
    ensures p == q
  {
    var n := |bracket|;
    assert FeatureId(bracket, p)[n..] == Suffix(p) && FeatureId(bracket, q)[n..] == Suffix(q);
    assert Suffix(Base)[2] == 'a' && Suffix(Bend)[2] == 'e';
  }

  /** Each part once, and each after the part it depends on. */
  lemma {:induction false} PartsInOrder(i: nat, j: nat)
    requires i <= j < |PARTS|
    ensures DependencyPart(PARTS[i]) != Some(PARTS[j])
    ensures i != j ==> PARTS[i] != PARTS[j]
  {
  }

  lemma {:induction false} EveryPart(p: Part)
    ensures p in PARTS && exists i :: 0 <= i < |PARTS| && PARTS[i] == p
  {
    assert PARTS[0] == Base && PARTS[1] == Bend && PARTS[2] == Finish && PARTS[3] == IndependentBase;
    assert PARTS[4] == IndependentFinish;
  }

  lemma {:induction false} NotADependency(bracket: string, p: Part, q: Part)
    requires DependencyPart(p) != Some(q)
    ensures FeatureId(bracket, q) !in PartDependencies(bracket, p)
  {
    hide FeatureId;
    if DependencyPart(p).Some? && FeatureId(bracket, q) == FeatureId(bracket, DependencyPart(p).value) {
      PartIdsDistinct(bracket, q, DependencyPart(p).value);
    }
  }

  /** The feature a bracket part becomes, with the fingerprint it has inside `features`. */
  ghost function PartFeature(h: Digest, bracket: string, dims: Dimensions, part: Part, features: FeatureMap): Feature {
    var f := Feature(FeatureId(bracket, part), PartDependencies(bracket, part), dims.Of(part), None, None, CurrentValid, None);
    f.(fingerprint := Some(GeometryFingerprint(h, f, features)))
  }

  ghost predicate HoldsPart(h: Digest, bracket: string, dims: Dimensions, features: FeatureMap, part: Part) {
    FeatureId(bracket, part) in features &&
    features[FeatureId(bracket, part)] == PartFeature(h, bracket, dims, part, features)
  }

  lemma {:induction false} PartSurvives(h: Digest, bracket: string, dims: Dimensions, features: FeatureMap, p: Part, q: Part)
    requires HoldsPart(h, bracket, dims, features, p) && p != q && DependencyPart(p) != Some(q)
    ensures HoldsPart(h, bracket, dims, WithPart(h, bracket, dims, features, q), p)
  {
    hide FeatureId;
    if FeatureId(bracket, p) == FeatureId(bracket, q) { PartIdsDistinct(bracket, p, q); }
    NotADependency(bracket, p, q);
    var f := Feature(FeatureId(bracket, p), PartDependencies(bracket, p), dims.Of(p), None, None, CurrentValid, None);
    SameFingerprint(h, f, features, WithPart(h, bracket, dims, features, q));
  }

  lemma {:induction false} PartInserted(h: Digest, bracket: string, dims: Dimensions, features: FeatureMap, q: Part)
    requires DependencyPart(q) != Some(q)
    ensures HoldsPart(h, bracket, dims, WithPart(h, bracket, dims, features, q), q)
  {
    hide FeatureId;
    NotADependency(bracket, q, q);
    var f := Feature(FeatureId(bracket, q), PartDependencies(bracket, q), dims.Of(q), None, None, CurrentValid, None);
    SameFingerprint(h, f, features, WithPart(h, bracket, dims, features, q));
  }

  lemma {:induction false} PartsHeld(h: Digest, bracket: string, dims: Dimensions, n: nat)
    requires n <= |PARTS|
    ensures var m := WithParts(h, bracket, dims, PARTS[..n]);
      && (forall i :: 0 <= i < n ==> HoldsPart(h, bracket, dims, m, PARTS[i]))
      && (forall k :: k in m ==> exists p :: k == FeatureId(bracket, p))
  {
    hide FeatureId, HoldsPart;
    if n > 0 {
      PartsHeld(h, bracket, dims, n - 1);
      assert PARTS[..n][..n - 1] == PARTS[..n - 1];
      var m := WithParts(h, bracket, dims, PARTS[..n - 1]);
      PartsInOrder(n - 1, n - 1);
      PartInserted(h, bracket, dims, m, PARTS[n - 1]);
      forall i | 0 <= i < n - 1 ensures HoldsPart(h, bracket, dims, WithPart(h, bracket, dims, m, PARTS[n - 1]), PARTS[i]) {
        PartsInOrder(i, n - 1);
        PartSurvives(h, bracket, dims, m, PARTS[i], PARTS[n - 1]);
      }
    }
  }

  /** A new bracket has exactly its five features, each fingerprinted from the others. */
  lemma {:induction false} BracketShape(h: Digest, bracket: string, dims: Dimensions, p: Part)
    ensures HoldsPart(h, bracket, dims, BracketFeatures(h, bracket, dims), p)
    ensures forall k :: k in BracketFeatures(h, bracket, dims) ==> exists q :: k == FeatureId(bracket, q)
  {
    hide FeatureId, HoldsPart;
    PartsHeld(h, bracket, dims, |PARTS|);
    assert PARTS[..|PARTS|] == PARTS;
    EveryPart(p);
  }

  lemma {:induction false} BracketValid(h: Digest, bracket: string, dims: Dimensions)
    requires dims.Positive()
    ensures ValidFeatures(BracketFeatures(h, bracket, dims))
  {
    hide FeatureId;
    var m := BracketFeatures(h, bracket, dims);
    forall p ensures HoldsPart(h, bracket, dims, m, p) { BracketShape(h, bracket, dims, p); }
    BracketShape(h, bracket, dims, Base);
    forall k | k in m ensures ValidFeature(m, k) {
      var p :| k == FeatureId(bracket, p);
      assert HoldsPart(h, bracket, dims, m, p);
      if DependencyPart(p).Some? { assert HoldsPart(h, bracket, dims, m, DependencyPart(p).value); }
    }
    forall s | s <= m.Keys ensures !Stuck(m, s) {
      if Stuck(m, s) {
        var x :| x in s;
        var p :| x == FeatureId(bracket, p);
        NoPartStuck(h, bracket, dims, m, s, p);
      }
    }
  }

  ghost function Depth(p: Part): nat {
    match p
    case Base => 0
    case Bend => 1
    case Finish => 2
    case IndependentBase => 0
    case IndependentFinish => 1
  }

  lemma {:induction false} NoPartStuck(h: Digest, bracket: string, dims: Dimensions, m: FeatureMap, s: set<string>, p: Part)
    requires forall q :: HoldsPart(h, bracket, dims, m, q)
    requires FeatureId(bracket, p) in s && Stuck(m, s)
    ensures false
    decreases Depth(p)
  {
    hide FeatureId;
    assert HoldsPart(h, bracket, dims, m, p);
    assert Touches(m[FeatureId(bracket, p)], s);
    if DependencyPart(p).Some? {
      NoPartStuck(h, bracket, dims, m, s, DependencyPart(p).value);
    }
  }

  lemma {:induction false} SameShapeStuck(a: FeatureMap, b: FeatureMap, s: set<string>)
    requires a.Keys == b.Keys && forall k :: k in a ==> b[k].dependencies == a[k].dependencies
    requires Stuck(b, s)
    ensures Stuck(a, s)
  {
    forall x | x in s && x in a ensures Touches(a[x], s) { assert Touches(b[x], s); }
  }

  lemma {:induction false} SameShapeAcyclic(a: FeatureMap, b: FeatureMap)
    requires Acyclic(a) && a.Keys == b.Keys
    requires forall k :: k in a ==> b[k].dependencies == a[k].dependencies
    ensures Acyclic(b)
  {
    forall s | s <= b.Keys && Stuck(b, s) ensures Stuck(a, s) { SameShapeStuck(a, b, s); }
  }

  lemma {:induction false} SameShapeValid(a: FeatureMap, b: FeatureMap)
    requires ValidFeatures(a) && a.Keys == b.Keys
    requires forall k :: k in a ==> b[k].id == a[k].id && b[k].dependencies == a[k].dependencies
    requires forall k :: k in a ==> b[k].inputValue.Finite? && StatusConsistent(b[k])
    ensures ValidFeatures(b)
  {
    hide StatusConsistent, Stuck;
    SameShapeAcyclic(a, b);
    forall k | k in b ensures ValidFeature(b, k) { assert ValidFeature(a, k); }
  }

  lemma {:induction false} OverwriteStuck(a: FeatureMap, b: FeatureMap, s: set<string>)
    requires forall k :: k in b ==> forall d :: d in b[k].dependencies ==> d in b
    requires s <= a.Keys + b.Keys && Stuck(a + b, s)
    ensures Stuck(b, s * b.Keys) || (s <= a.Keys && Stuck(a, s))
  {
    var m := a + b;
    var t := s * b.Keys;
    if t != {} {
      forall x | x in t ensures Touches(b[x], t) {
        assert Touches(m[x], s);
        var d :| d in m[x].dependencies && d in s;
        assert d in t;
      }
    } else {
      forall x | x in s ensures x in a && Touches(a[x], s) {
        assert x !in t;
        assert Touches(m[x], s);
      }
    }
  }

  lemma {:induction false} OverwriteAcyclic(a: FeatureMap, b: FeatureMap)
    requires Acyclic(a) && Acyclic(b)
    requires forall k :: k in b ==> forall d :: d in b[k].dependencies ==> d in b
    ensures Acyclic(a + b)
  {
    hide Stuck;
    forall s | s <= (a + b).Keys && Stuck(a + b, s) ensures Stuck(b, s * b.Keys) || (s <= a.Keys && Stuck(a, s)) {
      OverwriteStuck(a, b, s);
    }
  }

  /** A valid map written over another valid one gives a valid one: no cycle can run through it. */
  lemma {:induction false} OverwriteValid(a: FeatureMap, b: FeatureMap)
    requires ValidFeatures(a) && ValidFeatures(b)
    ensures ValidFeatures(a + b)
  {
    hide StatusConsistent, Acyclic;
    forall k | k in b ensures forall d :: d in b[k].dependencies ==> d in b { assert ValidFeature(b, k); }
    OverwriteAcyclic(a, b);
    forall k | k in a + b ensures ValidFeature(a + b, k) {
      if k in b { assert ValidFeature(b, k); } else { assert ValidFeature(a, k); }
    }
  }

  // ---------- Bracket edits ----------

  /** `k` is the id of one of the first `n` parts of the bracket. */
  ghost predicate AmongParts(bracket: string, n: nat, k: string)
    requires n <= |PARTS|
  {
    exists i :: 0 <= i < n && k == FeatureId(bracket, PARTS[i])
  }

  lemma {:induction false} AmongNext(bracket: string, n: nat, k: string)
    requires n < |PARTS|
    ensures AmongParts(bracket, n + 1, k) <==> AmongParts(bracket, n, k) || k == FeatureId(bracket, PARTS[n])
    ensures !AmongParts(bracket, n, FeatureId(bracket, PARTS[n]))
  {
    hide FeatureId;
    forall i | 0 <= i < n ensures FeatureId(bracket, PARTS[i]) != FeatureId(bracket, PARTS[n]) {
      PartsInOrder(i, n);
      if FeatureId(bracket, PARTS[i]) == FeatureId(bracket, PARTS[n]) { PartIdsDistinct(bracket, PARTS[i], PARTS[n]); }
    }
  }

  ghost predicate HoldsBracket(features: FeatureMap, bracket: string) {
    forall p :: FeatureId(bracket, p) in features
  }

  lemma {:induction false} ValuesSet(features: FeatureMap, bracket: string, dims: Dimensions, n: nat)
    requires n <= |PARTS| && HoldsBracket(features, bracket)
    ensures var v := WithValues(features, bracket, dims, PARTS[..n]);
      && v.Keys == features.Keys
      && (forall k :: k in features && !AmongParts(bracket, n, k) ==> v[k] == features[k])
      && forall i :: 0 <= i < n ==> var id := FeatureId(bracket, PARTS[i]);
        v[id] == features[id].(inputValue := dims.Of(PARTS[i]))
  {
    hide FeatureId, WithValue, AmongParts;
    if n > 0 {
      var last := FeatureId(bracket, PARTS[n - 1]);
      var u := WithValues(features, bracket, dims, PARTS[..n - 1]);
      var v := WithValues(features, bracket, dims, PARTS[..n]);
      ValuesSet(features, bracket, dims, n - 1);
      assert PARTS[..n][..n - 1] == PARTS[..n - 1];
      OneValueSet(u, bracket, dims, PARTS[n - 1]);
      AmongNext(bracket, n - 1, last);
      assert u[last] == features[last];
      forall k | k in features && !AmongParts(bracket, n, k) ensures v[k] == features[k] { AmongNext(bracket, n - 1, k); }
      forall i | 0 <= i < n ensures var id := FeatureId(bracket, PARTS[i]);
        v[id] == features[id].(inputValue := dims.Of(PARTS[i]))
      {
        if i < n - 1 { DistinctParts(bracket, i, n - 1); }
      }
    }
  }

  lemma {:induction false} DistinctParts(bracket: string, i: nat, j: nat)
    requires i < j < |PARTS|
    ensures FeatureId(bracket, PARTS[i]) != FeatureId(bracket, PARTS[j])
  {
    hide FeatureId;
    PartsInOrder(i, j);
    if FeatureId(bracket, PARTS[i]) == FeatureId(bracket, PARTS[j]) { PartIdsDistinct(bracket, PARTS[i], PARTS[j]); }
  }

  lemma {:induction false} OneValueSet(features: FeatureMap, bracket: string, dims: Dimensions, part: Part)
    requires FeatureId(bracket, part) in features
    ensures var id := FeatureId(bracket, part);
      WithValue(features, bracket, dims, part) == features[id := features[id].(inputValue := dims.Of(part))]
  {
  }

  /** `r` is `v` made current with some fingerprint. */
  ghost predicate Refreshed(v: Feature, r: Feature) {
    r.fingerprint.Some? && r == v.(fingerprint := r.fingerprint, lastValid := None, status := CurrentValid, diagnostic := None)
  }

  lemma {:induction false} PartsRecomputed(h: Digest, features: FeatureMap, bracket: string, n: nat)
    requires n <= |PARTS| && HoldsBracket(features, bracket)
    ensures var r := RecomputedAll(h, features, bracket, PARTS[..n]);
      && r.Keys == features.Keys
      && (forall k :: k in features && !AmongParts(bracket, n, k) ==> r[k] == features[k])
      && forall i :: 0 <= i < n ==> var id := FeatureId(bracket, PARTS[i]); Refreshed(features[id], r[id])
  {
    hide FeatureId, Recomputed, AmongParts;
    if n > 0 {
      var last := FeatureId(bracket, PARTS[n - 1]);
      var u := RecomputedAll(h, features, bracket, PARTS[..n - 1]);
      var v := RecomputedAll(h, features, bracket, PARTS[..n]);
      PartsRecomputed(h, features, bracket, n - 1);
      assert PARTS[..n][..n - 1] == PARTS[..n - 1];
      OneRecomputed(h, u, bracket, PARTS[n - 1]);
      AmongNext(bracket, n - 1, last);
      assert u[last] == features[last];
      forall k | k in features && !AmongParts(bracket, n, k) ensures v[k] == features[k] { AmongNext(bracket, n - 1, k); }
      forall i | 0 <= i < n ensures var id := FeatureId(bracket, PARTS[i]); Refreshed(features[id], v[id]) {
        if i < n - 1 { DistinctParts(bracket, i, n - 1); }
      }
    }
  }

  lemma {:induction false} OneRecomputed(h: Digest, features: FeatureMap, bracket: string, part: Part)
    requires FeatureId(bracket, part) in features
    ensures var id := FeatureId(bracket, part); var r := Recomputed(h, features, bracket, part);
      r.Keys == features.Keys && (forall k :: k in features && k != id ==> r[k] == features[k])
      && Refreshed(features[id], r[id])
  {
  }

  ghost predicate IsPart(bracket: string, k: string) {
    exists p :: k == FeatureId(bracket, p)
  }

  /** The feature map a bracket edit leaves. */
  function EditedBracket(h: Digest, features: FeatureMap, bracket: string, dims: Dimensions): FeatureMap {
    RecomputedAll(h, WithValues(features, bracket, dims, PARTS), bracket, PARTS)
  }

  lemma {:induction false} EditedBracketShape(h: Digest, features: FeatureMap, bracket: string, dims: Dimensions)
    requires HoldsBracket(features, bracket)
    ensures var r := EditedBracket(h, features, bracket, dims);
      && r.Keys == features.Keys
      && (forall k :: k in features && !IsPart(bracket, k) ==> r[k] == features[k])
      && forall p :: var id := FeatureId(bracket, p); Refreshed(features[id].(inputValue := dims.Of(p)), r[id])
  {
    hide FeatureId;
    var v := WithValues(features, bracket, dims, PARTS);
    assert PARTS[..|PARTS|] == PARTS;
    ValuesSet(features, bracket, dims, |PARTS|);
    PartsRecomputed(h, v, bracket, |PARTS|);
    forall p ensures var id := FeatureId(bracket, p);
      Refreshed(features[id].(inputValue := dims.Of(p)), EditedBracket(h, features, bracket, dims)[id])
    {
      EveryPart(p);
      var i :| 0 <= i < |PARTS| && PARTS[i] == p;
      assert Refreshed(v[FeatureId(bracket, PARTS[i])], EditedBracket(h, features, bracket, dims)[FeatureId(bracket, PARTS[i])]);
    }
  }

  lemma {:induction false} EditedBracketValid(h: Digest, features: FeatureMap, bracket: string, dims: Dimensions)
    requires HoldsBracket(features, bracket) && ValidFeatures(features) && dims.Positive()
    ensures ValidFeatures(EditedBracket(h, features, bracket, dims))
  {
    hide FeatureId, EditedBracket;
    var r := EditedBracket(h, features, bracket, dims);
    EditedBracketShape(h, features, bracket, dims);
    forall k | k in features
      ensures r[k].id == features[k].id && r[k].dependencies == features[k].dependencies
      ensures r[k].inputValue.Finite? && StatusConsistent(r[k])
    {
      assert ValidFeature(features, k);
      if IsPart(bracket, k) {
        var p :| k == FeatureId(bracket, p);
        assert Refreshed(features[k].(inputValue := dims.Of(p)), r[k]);
      }
    }
    SameShapeValid(features, r);
  }

  // ---------- Feature edits ----------

  /** The condition of the exception: whatever the edit marks broken held a current fingerprint before. */
  predicate BreaksOnlyCurrent(features: FeatureMap, diagnostics: seq<Diagnostic>) {
    forall d :: d in diagnostics ==> d.featureId in features && features[d.featureId].fingerprint.Some?
  }

  lemma {:induction false} FateValid(h: Digest, edit: Edit, before: FeatureMap, order: seq<string>, p: Progress, b: nat, k: string)
    requires Outcome(h, edit, before, order, p, b) && k in before && ValidFeature(before, k) && edit.value.Finite?
    ensures p.features[k].id == before[k].id && p.features[k].dependencies == before[k].dependencies
    ensures p.features[k].inputValue.Finite?
    ensures StatusConsistent(p.features[k]) <==> !(b < |order| && k == order[b] && before[k].fingerprint.None?)
  {
    FateKeepsShape(h, edit, before, order, p, b, k);
    if k in order {
      var i :| 0 <= i < |order| && order[i] == k;
      assert FateAt(h, edit, before, order, p, b, i);
      if i == b {
        assert BrokenFate(edit, before, p, k);
      } else if b < |order| {
        assert FateAt(h, edit, before, order, p, b, b);
      }
    }
  }

  lemma {:induction false} EditValidIff(h: Digest, edit: Edit, before: FeatureMap, order: seq<string>, p: Progress, b: nat)
    requires Outcome(h, edit, before, order, p, b) && ValidFeatures(before) && edit.value.Finite?
    ensures ValidFeatures(p.features) <==> BreaksOnlyCurrent(before, p.diagnostics)
  {
    hide StatusConsistent, Acyclic, FateAt;
    forall k | k in before
      ensures p.features[k].id == before[k].id && p.features[k].dependencies == before[k].dependencies
      ensures p.features[k].inputValue.Finite?
      ensures StatusConsistent(p.features[k]) <==> !(b < |order| && k == order[b] && before[k].fingerprint.None?)
    {
      assert ValidFeature(before, k);
      FateValid(h, edit, before, order, p, b, k);
    }
    if BreaksOnlyCurrent(before, p.diagnostics) {
      if b < |order| { assert p.diagnostics[0].featureId == order[b]; }
      SameShapeValid(before, p.features);
    } else {
      assert b < |order| && before[order[b]].fingerprint.None?;
      assert !StatusConsistent(p.features[order[b]]);
      assert !ValidFeature(p.features, order[b]);
    }
  }

  // ---------- Acceptance ----------

  lemma {:induction false} Accepted(s: State, event: Event)
    requires event.schemaVersion == HISTORY_EVENT_SCHEMA && event.ordinal == s.ordinal + 1
    requires ValidFeatures(event.active.features) && ValidNamed(event.named)
    requires OperationFault(event).None?
    ensures Apply(s, event) == Ok(State(event.active, event.named, event.ordinal))
  {
    hide OperationFault;
  }

  lemma {:induction false} DisplaceKeeps(s: State, kind: string, provenance: string)
    requires ValidState(s) && Displace(s, kind, provenance).Ok?
    ensures var (name, named) := Displace(s, kind, provenance).value;
      && ValidNamed(named)
      && name in named && named[name].snapshot == s.active && name !in s.named
      && named.Keys == s.named.Keys + {name}
      && forall n :: n in s.named ==> named[n] == s.named[n]
  {
    hide Decimal, ValidFeatures;
    var (name, named) := Displace(s, kind, provenance).value;
    assert name != "";
    forall n | n in named ensures ValidRevision(named, n) {
      if n != name { assert ValidRevision(s.named, n); }
    }
  }

  lemma {:induction false} InitializeAccepted(h: Digest, s: State, bracket: string, dims: Dimensions)
    requires ValidState(s) && Initialize(h, s, bracket, dims).Ok?
    ensures Apply(s, Initialize(h, s, bracket, dims).value).Ok?
  {
    hide RevisionName, ValidFeatures, SnapshotFault, NamedFault, WithParts;
    var event := Initialize(h, s, bracket, dims).value;
    BracketValid(h, bracket, dims);
    OverwriteValid(s.active.features, BracketFeatures(h, bracket, dims));
    BracketShape(h, bracket, dims, Base);
    assert FeatureId(bracket, Base) in event.active.features;
    Accepted(s, event);
  }

  lemma {:induction false} EditBracketAccepted(h: Digest, s: State, bracket: string, dims: Dimensions)
    requires ValidState(s) && EditBracket(h, s, bracket, dims).Ok?
    ensures Apply(s, EditBracket(h, s, bracket, dims).value.0).Ok?
  {
    hide RevisionName, ValidFeatures, SnapshotFault, NamedFault, Suffix, WithValues, RecomputedAll, RecoveryName;
    var event := EditBracket(h, s, bracket, dims).value.0;
    DisplaceKeeps(s, "historical-edit", "historical-edit:" + bracket);
    BracketIdsHold(s.active.features, bracket);
    EditedBracketValid(h, s.active.features, bracket, dims);
    EditedBracketShape(h, s.active.features, bracket, dims);
    Accepted(s, event);
  }

  lemma {:induction false} BracketIdsHold(features: FeatureMap, bracket: string)
    ensures (forall id :: id in BracketIds(bracket) ==> id in features) <==> HoldsBracket(features, bracket)
  {
    hide FeatureId;
    var ids := BracketIds(bracket);
    if forall id :: id in ids ==> id in features {
      forall p ensures FeatureId(bracket, p) in features {
        match p {
          case Base => assert ids[0] in ids;
          case Bend => assert ids[1] in ids;
          case Finish => assert ids[2] in ids;
          case IndependentBase => assert ids[3] in ids;
          case IndependentFinish => assert ids[4] in ids;
        }
      }
    }
  }

  /** On valid features the dirty closure stays inside the map and can always be ordered. */
  lemma {:induction false} DirtyOrdered(features: FeatureMap, target: string)
    requires ValidFeatures(features) && target in features
    ensures Reachable(features, target).Ok? && Order(features, Reachable(features, target).value).Ok?
    ensures var dirty := Reachable(features, target).value;
      && target in dirty && (forall x :: x in dirty ==> x in features)
      && ClosedUnderDependents(features, Closure(features, {target}))
      && (forall x :: x in dirty <==> x in Closure(features, {target}))
      && IsOrderOf(features, Order(features, dirty).value, Closure(features, {target}))
  {
    var c := Closure(features, {target});
    assert ClosedUnderDependents(features, features.Keys) by {
      assert forall k :: k in features ==> ValidFeature(features, k);
    }
    ClosureLeast(features, {target}, features.Keys);
    AcyclicOrders(features, c);
    var dirty := Reachable(features, target).value;
    assert (set x | x in dirty) == c;
  }

  /** Everything one feature edit computes, on a valid state. */
  lemma {:induction false} EditOutcome(h: Digest, s: State, id: string, parameter: string, value: F64)
    returns (edit: Edit, order: seq<string>, p: Progress, b: nat)
    requires ValidState(s) && EditFeature(h, s, id, parameter, value).Ok?
    ensures edit == Edit(id, parameter, value, Reachable(s.active.features, id).value)
    ensures IsOrderOf(s.active.features, order, Closure(s.active.features, {id}))
    ensures p == EvaluateAll(h, edit, s.active.features, order)
    ensures Outcome(h, edit, s.active.features, order, p, b)
    ensures EditFeature(h, s, id, parameter, value).value.1 == Evaluation(edit.dirty, p.evaluated, p.blocked, p.diagnostics)
    ensures EditFeature(h, s, id, parameter, value).value.0.active.features == p.features
    ensures value.Finite? && id in s.active.features
    ensures (forall x :: x in edit.dirty <==> x in order) && forall x :: x in order ==> x in s.active.features
  {
    hide Displace, RevisionName, EvaluateAll;
    DirtyOrdered(s.active.features, id);
    edit := Edit(id, parameter, value, Reachable(s.active.features, id).value);
    order := Order(s.active.features, edit.dirty).value;
    b := EvaluateAllOutcome(h, edit, s.active.features, order);
    p := EvaluateAll(h, edit, s.active.features, order);
  }

  /** The lists reported by an edit agree, and its diagnostics name broken features. */
  lemma {:induction false} OutcomeMetadata(h: Digest, edit: Edit, before: FeatureMap, order: seq<string>, p: Progress, b: nat)
    requires Outcome(h, edit, before, order, p, b)
    ensures forall x :: x in p.evaluated ==> x !in p.blocked
    ensures DiagnosticsNameBroken(p.diagnostics, p.features)
    ensures forall x :: x in order ==> x in p.evaluated || x in p.blocked || (b < |order| && x == order[b])
    ensures b < |order| ==> order[b] !in p.evaluated && order[b] !in p.blocked
  {
    forall x | x in order
      ensures (x in p.evaluated ==> x !in p.blocked) && (x in p.evaluated || x in p.blocked || (b < |order| && x == order[b]))
    {
      var i :| 0 <= i < |order| && order[i] == x;
      assert FateAt(h, edit, before, order, p, b, i);
    }
    if b < |order| { assert FateAt(h, edit, before, order, p, b, b); }
  }

  /** A feature edit is accepted exactly when what it breaks held a current fingerprint before. */
  lemma {:induction false} EditFeatureAcceptedIff(h: Digest, s: State, id: string, parameter: string, value: F64)
    requires ValidState(s) && EditFeature(h, s, id, parameter, value).Ok?
    ensures var (event, evaluation) := EditFeature(h, s, id, parameter, value).value;
      Apply(s, event).Ok? <==> BreaksOnlyCurrent(s.active.features, evaluation.diagnostics)
  {
    hide RevisionName, ValidFeatures, RecoveryName, Outcome, EvaluateAll;
    var (event, evaluation) := EditFeature(h, s, id, parameter, value).value;
    var edit, order, p, b := EditOutcome(h, s, id, parameter, value);
    EditValidIff(h, edit, s.active.features, order, p, b);
    if BreaksOnlyCurrent(s.active.features, evaluation.diagnostics) {
      OutcomeMetadata(h, edit, s.active.features, order, p, b);
      DisplaceKeeps(s, "historical-edit", "historical-edit:" + id);
      EditKeys(h, edit, s.active.features, order, p, b);
      Accepted(s, event);
    } else {
      Rejected(s, event);
    }
  }

  lemma {:induction false} EditKeys(h: Digest, edit: Edit, before: FeatureMap, order: seq<string>, p: Progress, b: nat)
    requires Outcome(h, edit, before, order, p, b)
    ensures p.features.Keys == before.Keys
    ensures forall id :: id in p.evaluated || id in p.blocked ==> id in order
  {
  }

  lemma {:induction false} Rejected(s: State, event: Event)
    requires !ValidFeatures(event.active.features)
    ensures Apply(s, event).Err?
  {
    hide OperationFault;
  }
}
