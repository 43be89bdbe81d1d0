/** Incremental fingerprints equal full ones: in a whole run, although each edit recomputes only its dirty set. */
module HistoryFingerprints {
  import opened Wrappers
  import opened HistoryModel
  import opened HistoryGraph
  import opened HistoryEvaluation
  import opened HistoryEvents
  import opened HistoryOperations
  import opened HistoryAcceptance
  import opened HistoryRuns

  /** Every current feature has only current dependencies, and its stored fingerprint is that of its stored inputs. */
  ghost predicate Merkle(h: Digest, features: FeatureMap) {
    forall id :: id in features && features[id].status == CurrentValid ==> Settled(h, features, id)
  }

  /**
   * The fingerprint of `id` computed from scratch over its whole dependency tree, reading only ids, inputs and
   * dependencies and never a stored fingerprint. `open` holds the features not yet on the path from the root;
   * on an acyclic map nothing on the path is met again.
   */
  ghost function FromScratch(h: Digest, features: FeatureMap, open: set<string>, id: string): string
    requires id in features
    decreases open, 1, 0
  {
    var f := features[id];
    h(Preimage(f.id, f.inputValue, |f.dependencies|, EachFromScratch(h, features, open, f.dependencies)))
  }

  ghost function EachFromScratch(h: Digest, features: FeatureMap, open: set<string>, ids: seq<string>): seq<string>
    decreases open, 0, |ids|
  {
    if ids == [] then [] else
    var first := if ids[0] in open && ids[0] in features then FromScratch(h, features, open - {ids[0]}, ids[0]) else "missing";
    [first] + EachFromScratch(h, features, open, ids[1..])
  }

  ghost function FullFingerprint(h: Digest, features: FeatureMap, id: string): string
    requires id in features
  {
    FromScratch(h, features, features.Keys - {id}, id)
  }

  lemma {:induction false} StoredIsFromScratch(h: Digest, features: FeatureMap, order: seq<string>, k: nat, open: set<string>)
    requires Merkle(h, features) && IsOrderOf(features, order, features.Keys) && k < |order|
    requires forall j :: 0 <= j < k ==> order[j] in open
    requires features[order[k]].status == CurrentValid
    ensures features[order[k]].fingerprint == Some(FromScratch(h, features, open, order[k]))
    decreases k, 1, 0
  {
    var f := features[order[k]];
    assert Settled(h, features, order[k]);
    EachStoredIsFromScratch(h, features, order, k, open, f.dependencies);
  }

  lemma {:induction false} DependencyEarlier(features: FeatureMap, order: seq<string>, k: nat, d: string) returns (j: nat)
    requires IsOrderOf(features, order, features.Keys) && k < |order|
    requires order[k] in features && d in features && d in features[order[k]].dependencies
    ensures j < k && order[j] == d && forall i :: 0 <= i < j ==> order[i] != d
  {
    assert d in order;
    j :| 0 <= j < |order| && order[j] == d;
  }

  lemma {:induction false} EachStoredIsFromScratch(h: Digest, features: FeatureMap, order: seq<string>, k: nat, open: set<string>, ids: seq<string>)
    requires Merkle(h, features) && IsOrderOf(features, order, features.Keys) && k < |order|
    requires forall j :: 0 <= j < k ==> order[j] in open
    requires forall d :: d in ids ==> d in features && features[d].status == CurrentValid && d in features[order[k]].dependencies
    ensures EachFromScratch(h, features, open, ids) == Predecessors(features, ids)
    decreases k, 0, |ids|
  {
    assert order[k] in features;
    hide Merkle, IsOrderOf;
    if ids != [] {
      var d := ids[0];
      var j := DependencyEarlier(features, order, k, d);
      StoredIsFromScratch(h, features, order, j, open - {d});
      EachStoredIsFromScratch(h, features, order, k, open, ids[1..]);
      PredecessorsFirst(features, ids);
    }
  }

  lemma {:induction false} PredecessorsFirst(features: FeatureMap, ids: seq<string>)
    requires ids != []
    ensures Predecessors(features, ids) == [PredecessorFingerprint(features, ids[0])] + Predecessors(features, ids[1..])
  {
  }

  /** On a valid map, being consistent feature by feature means agreeing with the full computation. */
  lemma {:induction false} MerkleIsFull(h: Digest, features: FeatureMap, id: string)
    requires ValidFeatures(features) && Merkle(h, features) && id in features && features[id].status == CurrentValid
    ensures features[id].fingerprint == Some(FullFingerprint(h, features, id))
  {
    AcyclicOrders(features, features.Keys);
    var order := TopologicalOrder(features, features.Keys).value;
    assert id in order;
    var k :| 0 <= k < |order| && order[k] == id;
    StoredIsFromScratch(h, features, order, k, features.Keys - {id});
  }

  /** A settled feature stays settled when nothing it is made of changes. */
  lemma {:induction false} StaysSettled(h: Digest, a: FeatureMap, b: FeatureMap, id: string)
    requires Settled(h, a, id) && id in b && b[id] == a[id]
    requires forall d :: d in a[id].dependencies ==> d in b && b[d] == a[d]
    ensures Settled(h, b, id)
  {
    SameFingerprint(h, a[id], a, b);
  }

  // ---------- Feature edits ----------

  lemma {:induction false} EditSettles(h: Digest, edit: Edit, before: FeatureMap, order: seq<string>, p: Progress, b: nat, id: string)
    requires Outcome(h, edit, before, order, p, b) && ValidFeatures(before) && id in order && id in p.evaluated
    ensures Settled(h, p.features, id)
  {
    hide Acyclic, StatusConsistent;
    var i :| 0 <= i < |order| && order[i] == id;
    assert FateAt(h, edit, before, order, p, b, i);
    assert ValidFeature(before, id);
    FateKeepsShape(h, edit, before, order, p, b, id);
  }

  lemma {:induction false} EditKeepsSettled(h: Digest, edit: Edit, before: FeatureMap, order: seq<string>, p: Progress, b: nat, id: string)
    requires Outcome(h, edit, before, order, p, b) && ValidFeatures(before)
    requires ClosedUnderDependents(before, set x | x in order) && id !in order && Settled(h, before, id)
    ensures Settled(h, p.features, id)
  {
    hide Acyclic, StatusConsistent, FateAt;
    assert ValidFeature(before, id);
    assert !Touches(before[id], set x | x in order);
    StaysSettled(h, before, p.features, id);
  }

  /** Recomputing only the dirty features keeps the whole map consistent. */
  lemma {:induction false} EditKeepsMerkle(h: Digest, edit: Edit, before: FeatureMap, order: seq<string>, p: Progress, b: nat)
    requires Outcome(h, edit, before, order, p, b) && ValidFeatures(before)
    requires ClosedUnderDependents(before, set x | x in order) && Merkle(h, before)
    ensures Merkle(h, p.features)
  {
    forall id | id in p.features && p.features[id].status == CurrentValid ensures Settled(h, p.features, id) {
      if id in order {
        var i :| 0 <= i < |order| && order[i] == id;
        assert FateAt(h, edit, before, order, p, b, i);
        EditSettles(h, edit, before, order, p, b, id);
      } else {
        EditKeepsSettled(h, edit, before, order, p, b, id);
      }
    }
  }

  // ---------- Bracket identifiers ----------

  /** Two brackets collide when one id is the other followed by `-independent`. */
  predicate Collide(a: string, b: string) {
    a == b + "-independent" || b == a + "-independent"
  }

  lemma {:induction false} SameEnd(a: string, s: string, b: string, t: string)
    requires a + s == b + t && |s| <= |t|
    ensures t[|t| - |s|..] == s && a == b + t[..|t| - |s|]
  {
    var x := a + s;
    assert x[|x| - |s|..] == s && (b + t)[|x| - |s|..] == t[|t| - |s|..];
    assert x[..|a|] == a && (b + t)[..|a|] == b + t[..|t| - |s|];
  }

  /** Which suffixes end another one: only the two that differ by `-independent`. */
  lemma {:induction false} SuffixEnds(p: Part, q: Part)
    requires |Suffix(p)| <= |Suffix(q)| && Suffix(q)[|Suffix(q)| - |Suffix(p)|..] == Suffix(p)
    ensures p == q || (p == Base && q == IndependentBase) || (p == Finish && q == IndependentFinish)
    ensures p != q ==> Suffix(q)[..|Suffix(q)| - |Suffix(p)|] == "-independent"
  {
    var s, t := Suffix(p), Suffix(q);
    var n := |t| - |s|;
    assert t[n..][|s| - 1] == t[|t| - 1] && t[n..][|s| - 2] == t[|t| - 2] && t[n..][|s| - 3] == t[|t| - 3];
  }

  lemma {:induction false} NoCollision(a: string, b: string, p: Part, q: Part)
    requires FeatureId(a, p) == FeatureId(b, q)
    ensures (a == b && p == q) || Collide(a, b)
    ensures p == Bend || q == Bend ==> a == b && p == q
  {
    if |Suffix(p)| <= |Suffix(q)| {
      SameEnd(a, Suffix(p), b, Suffix(q));
      SuffixEnds(p, q);
      assert p == q ==> Suffix(q)[..0] == "" && b + "" == b;
    } else {
      SameEnd(b, Suffix(q), a, Suffix(p));
      SuffixEnds(q, p);
    }
  }

  // ---------- Bracket edits and initializations ----------

  /** Every feature is some part of one of the brackets, with the dependencies of that part. */
  ghost predicate Shaped(features: FeatureMap, brackets: set<string>) {
    forall k :: k in features ==> exists b, p :: IsPartOf(features, brackets, k, b, p)
  }

  ghost predicate IsPartOf(features: FeatureMap, brackets: set<string>, k: string, b: string, p: Part)
    requires k in features
  {
    b in brackets && k == FeatureId(b, p) && features[k].id == k && features[k].dependencies == PartDependencies(b, p)
  }

  ghost predicate NoCollisions(brackets: set<string>) {
    forall a, b :: a in brackets && b in brackets ==> !Collide(a, b)
  }

  /** Without collisions a feature belongs to one bracket, and nothing outside a bracket depends on its parts. */
  lemma {:induction false} PartKnown(features: FeatureMap, brackets: set<string>, k: string, bracket: string)
    requires Shaped(features, brackets) && NoCollisions(brackets) && bracket in brackets && k in features
    ensures forall p :: k == FeatureId(bracket, p) ==> features[k].dependencies == PartDependencies(bracket, p)
    ensures !IsPart(bracket, k) ==> forall d :: d in features[k].dependencies ==> !IsPart(bracket, d)
  {
    hide FeatureId;
    var b, p :| IsPartOf(features, brackets, k, b, p);
    forall q | k == FeatureId(bracket, q) ensures features[k].dependencies == PartDependencies(bracket, q) {
      NoCollision(bracket, b, q, p);
    }
    if !IsPart(bracket, k) {
      forall d | d in features[k].dependencies ensures !IsPart(bracket, d) {
        forall q | d == FeatureId(bracket, q) ensures false {
          NoCollision(bracket, b, q, DependencyPart(p).value);
        }
      }
    }
  }

  /** A map that differs from a consistent one only in the settled parts of one bracket is consistent. */
  lemma {:induction false} BracketReplaced(h: Digest, a: FeatureMap, b: FeatureMap, brackets: set<string>, bracket: string)
    requires Merkle(h, a) && Shaped(a, brackets) && NoCollisions(brackets) && bracket in brackets
    requires forall k :: k in a ==> k in b && (!IsPart(bracket, k) ==> b[k] == a[k])
    requires forall k :: k in b && !IsPart(bracket, k) ==> k in a
    requires forall p :: Settled(h, b, FeatureId(bracket, p))
    ensures Merkle(h, b)
  {
    hide FeatureId, GeometryFingerprint;
    forall k | k in b && b[k].status == CurrentValid ensures Settled(h, b, k) {
      if !IsPart(bracket, k) {
        PartKnown(a, brackets, k, bracket);
        assert Settled(h, a, k);
        StaysSettled(h, a, b, k);
      }
    }
  }

  lemma {:induction false} BracketReplacedShape(a: FeatureMap, b: FeatureMap, brackets: set<string>, bracket: string)
    requires Shaped(a, brackets) && bracket in brackets
    requires forall k :: k in b && !IsPart(bracket, k) ==> k in a && b[k] == a[k]
    requires forall p :: var k := FeatureId(bracket, p);
      k in b && b[k].id == k && b[k].dependencies == PartDependencies(bracket, p)
    ensures Shaped(b, brackets)
  {
    hide FeatureId;
    forall k | k in b ensures exists c, p :: IsPartOf(b, brackets, k, c, p) {
      if IsPart(bracket, k) {
        var p :| k == FeatureId(bracket, p);
        assert IsPartOf(b, brackets, k, bracket, p);
      } else {
        var c, p :| IsPartOf(a, brackets, k, c, p);
        assert IsPartOf(b, brackets, k, c, p);
      }
    }
  }

  lemma {:induction false} InitializeConsistent(h: Digest, features: FeatureMap, brackets: set<string>, bracket: string, dims: Dimensions)
    requires Merkle(h, features) && Shaped(features, brackets) && NoCollisions(brackets) && bracket in brackets
    ensures var r := features + BracketFeatures(h, bracket, dims); Merkle(h, r) && Shaped(r, brackets)
  {
    hide FeatureId, BracketFeatures;
    var m := BracketFeatures(h, bracket, dims);
    var r := features + m;
    BracketShape(h, bracket, dims, Base);
    forall p ensures Settled(h, r, FeatureId(bracket, p)) {
      BracketShape(h, bracket, dims, p);
      if DependencyPart(p).Some? { BracketShape(h, bracket, dims, DependencyPart(p).value); }
      SameFingerprint(h, m[FeatureId(bracket, p)], m, r);
    }
    forall k | k in features && !IsPart(bracket, k) ensures k !in m {}
    BracketReplaced(h, features, r, brackets, bracket);
    forall p ensures var k := FeatureId(bracket, p);
      k in r && r[k].id == k && r[k].dependencies == PartDependencies(bracket, p)
    {
      BracketShape(h, bracket, dims, p);
    }
    BracketReplacedShape(features, r, brackets, bracket);
  }

  ghost predicate CanonicalParts(features: FeatureMap, bracket: string) {
    forall p :: var k := FeatureId(bracket, p);
      k in features && features[k].id == k && features[k].dependencies == PartDependencies(bracket, p)
  }

  /** No part depends on itself or on a part that is recomputed after it. */
  ghost predicate PartsOrdered(features: FeatureMap, bracket: string) {
    && HoldsBracket(features, bracket)
    && forall i, j :: 0 <= i <= j < |PARTS| ==>
      FeatureId(bracket, PARTS[j]) !in features[FeatureId(bracket, PARTS[i])].dependencies
  }

  lemma {:induction false} CanonicalOrdered(features: FeatureMap, bracket: string)
    requires CanonicalParts(features, bracket)
    ensures PartsOrdered(features, bracket)
  {
    hide FeatureId;
    forall i, j | 0 <= i <= j < |PARTS|
      ensures FeatureId(bracket, PARTS[j]) !in features[FeatureId(bracket, PARTS[i])].dependencies
    {
      PartsInOrder(i, j);
      NotADependency(bracket, PARTS[i], PARTS[j]);
    }
  }

  /** The part at position `i` has kept its dependencies, and its fingerprint is the one of the map it is in. */
  ghost predicate PartFits(h: Digest, features: FeatureMap, r: FeatureMap, bracket: string, i: nat)
    requires i < |PARTS| && HoldsBracket(features, bracket)
  {
    var k := FeatureId(bracket, PARTS[i]);
    k in r && r[k].dependencies == features[k].dependencies && r[k].fingerprint == Some(GeometryFingerprint(h, r[k], r))
  }

  lemma {:induction false} PartsSettle(h: Digest, features: FeatureMap, bracket: string, n: nat)
    requires n <= |PARTS| && PartsOrdered(features, bracket)
    ensures forall i :: 0 <= i < n ==> PartFits(h, features, RecomputedAll(h, features, bracket, PARTS[..n]), bracket, i)
  {
    assert HoldsBracket(features, bracket);
    if n > 0 {
      assert PARTS[..n][..n - 1] == PARTS[..n - 1];
      PartsSettle(h, features, bracket, n - 1);
      var m := RecomputedAll(h, features, bracket, PARTS[..n - 1]);
      assert RecomputedAll(h, features, bracket, PARTS[..n]) == Recomputed(h, m, bracket, PARTS[n - 1]);
      LastUntouched(h, features, bracket, n - 1);
      var r := Recomputed(h, m, bracket, PARTS[n - 1]);
      hide FeatureId, GeometryFingerprint, PartsOrdered, Recomputed, RecomputedAll, PartFits;
      forall i | 0 <= i < n ensures PartFits(h, features, r, bracket, i) {
        PartStep(h, features, m, bracket, i, n - 1);
      }
    }
  }

  /** Before its turn a part still has its dependencies. */
  lemma {:induction false} LastUntouched(h: Digest, features: FeatureMap, bracket: string, n: nat)
    requires n < |PARTS| && HoldsBracket(features, bracket)
    ensures var k, m := FeatureId(bracket, PARTS[n]), RecomputedAll(h, features, bracket, PARTS[..n]);
      k in m && m[k].dependencies == features[k].dependencies
  {
    hide FeatureId, RecomputedAll;
    PartsRecomputed(h, features, bracket, n);
    AmongNext(bracket, n, "");
  }

  lemma {:induction false} PartStep(h: Digest, features: FeatureMap, m: FeatureMap, bracket: string, i: nat, j: nat)
    requires i <= j < |PARTS| && PartsOrdered(features, bracket)
    requires i == j ==> var k := FeatureId(bracket, PARTS[i]); k in m && m[k].dependencies == features[k].dependencies
    requires i < j ==> PartFits(h, features, m, bracket, i)
    ensures PartFits(h, features, Recomputed(h, m, bracket, PARTS[j]), bracket, i)
  {
    hide FeatureId;
    PartsInOrder(i, j);
    if FeatureId(bracket, PARTS[i]) == FeatureId(bracket, PARTS[j]) { PartIdsDistinct(bracket, PARTS[i], PARTS[j]); }
    SameFingerprint(h, m[FeatureId(bracket, PARTS[i])], m, Recomputed(h, m, bracket, PARTS[j]));
  }

  /** After a bracket edit every part has the fingerprint of the map it is in. */
  lemma {:induction false} EditedFingerprint(h: Digest, features: FeatureMap, bracket: string, dims: Dimensions, p: Part)
    requires PartsOrdered(features, bracket)
    ensures var r := EditedBracket(h, features, bracket, dims);
      var k := FeatureId(bracket, p);
      k in r && r[k].fingerprint == Some(GeometryFingerprint(h, r[k], r))
  {
    hide FeatureId, GeometryFingerprint;
    var v := WithValues(features, bracket, dims, PARTS);
    assert PARTS[..|PARTS|] == PARTS;
    ValuesSet(features, bracket, dims, |PARTS|);
    assert PartsOrdered(v, bracket) by { ValuedOrdered(features, v, bracket, dims); }
    PartsSettle(h, v, bracket, |PARTS|);
    EveryPart(p);
    var i :| 0 <= i < |PARTS| && PARTS[i] == p;
    assert PartFits(h, v, RecomputedAll(h, v, bracket, PARTS[..|PARTS|]), bracket, i);
  }

  lemma {:induction false} ValuedOrdered(features: FeatureMap, v: FeatureMap, bracket: string, dims: Dimensions)
    requires PartsOrdered(features, bracket) && v.Keys == features.Keys
    requires forall i :: 0 <= i < |PARTS| ==> var id := FeatureId(bracket, PARTS[i]);
      v[id] == features[id].(inputValue := dims.Of(PARTS[i]))
    ensures PartsOrdered(v, bracket)
  {
    hide FeatureId;
    forall i, j | 0 <= i <= j < |PARTS|
      ensures FeatureId(bracket, PARTS[j]) !in v[FeatureId(bracket, PARTS[i])].dependencies
    {
      assert v[FeatureId(bracket, PARTS[i])].dependencies == features[FeatureId(bracket, PARTS[i])].dependencies;
    }
  }

  /** A bracket edit leaves all five parts settled, with the given dimensions. */
  lemma {:induction false} EditedBracketSettled(h: Digest, features: FeatureMap, bracket: string, dims: Dimensions)
    requires CanonicalParts(features, bracket)
    ensures var r := EditedBracket(h, features, bracket, dims);
      CanonicalParts(r, bracket) && forall p :: Settled(h, r, FeatureId(bracket, p))
  {
    hide FeatureId, GeometryFingerprint, EditedBracket;
    var r := EditedBracket(h, features, bracket, dims);
    CanonicalOrdered(features, bracket);
    EditedBracketShape(h, features, bracket, dims);
    RefreshedStaysCanonical(features, r, bracket, dims);
    forall p ensures Settled(h, r, FeatureId(bracket, p)) {
      EditedFingerprint(h, features, bracket, dims, p);
      PartSettled(h, features, r, bracket, dims, p);
    }
  }

  lemma {:induction false} RefreshedStaysCanonical(features: FeatureMap, r: FeatureMap, bracket: string, dims: Dimensions)
    requires CanonicalParts(features, bracket) && HoldsBracket(r, bracket)
    requires forall q :: Refreshed(features[FeatureId(bracket, q)].(inputValue := dims.Of(q)), r[FeatureId(bracket, q)])
    ensures CanonicalParts(r, bracket)
  {
    hide FeatureId;
    forall p ensures var k := FeatureId(bracket, p);
      k in r && r[k].id == k && r[k].dependencies == PartDependencies(bracket, p)
    {
      assert Refreshed(features[FeatureId(bracket, p)].(inputValue := dims.Of(p)), r[FeatureId(bracket, p)]);
    }
  }

  lemma {:induction false} PartSettled(h: Digest, features: FeatureMap, r: FeatureMap, bracket: string, dims: Dimensions, p: Part)
    requires CanonicalParts(features, bracket) && HoldsBracket(r, bracket)
    requires forall q :: Refreshed(features[FeatureId(bracket, q)].(inputValue := dims.Of(q)), r[FeatureId(bracket, q)])
    requires var k := FeatureId(bracket, p); r[k].fingerprint == Some(GeometryFingerprint(h, r[k], r))
    ensures Settled(h, r, FeatureId(bracket, p))
  {
    hide FeatureId, GeometryFingerprint;
    assert features[FeatureId(bracket, p)].dependencies == PartDependencies(bracket, p);
    if DependencyPart(p).Some? {
      var q := DependencyPart(p).value;
      assert Refreshed(features[FeatureId(bracket, q)].(inputValue := dims.Of(q)), r[FeatureId(bracket, q)]);
    }
  }

  lemma {:induction false} EditBracketConsistent(h: Digest, features: FeatureMap, brackets: set<string>, bracket: string, dims: Dimensions)
    requires Merkle(h, features) && Shaped(features, brackets) && NoCollisions(brackets) && HoldsBracket(features, bracket)
    ensures var r := EditedBracket(h, features, bracket, dims); Merkle(h, r) && Shaped(r, brackets)
  {
    hide FeatureId, EditedBracket;
    var b, p :| IsPartOf(features, brackets, FeatureId(bracket, Bend), b, p);
    NoCollision(bracket, b, Bend, p);
    forall p ensures var k := FeatureId(bracket, p);
      k in features && features[k].id == k && features[k].dependencies == PartDependencies(bracket, p)
    {
      var k := FeatureId(bracket, p);
      PartKnown(features, brackets, k, bracket);
      var c, q :| IsPartOf(features, brackets, k, c, q);
    }
    EditedBracketShape(h, features, bracket, dims);
    EditedBracketSettled(h, features, bracket, dims);
    BracketReplaced(h, features, EditedBracket(h, features, bracket, dims), brackets, bracket);
    BracketReplacedShape(features, EditedBracket(h, features, bracket, dims), brackets, bracket);
  }

  // ---------- Whole runs ----------

  function InitializedBrackets(commands: seq<Command>): set<string> {
    set i | 0 <= i < |commands| && commands[i].Init? :: commands[i].bracket
  }

  lemma {:induction false} InitializedGrows(commands: seq<Command>)
    requires commands != []
    ensures InitializedBrackets(commands[..|commands| - 1]) <= InitializedBrackets(commands)
    ensures var c := commands[|commands| - 1]; c.Init? ==> c.bracket in InitializedBrackets(commands)
  {
    var pre := commands[..|commands| - 1];
    forall b | b in InitializedBrackets(pre) ensures b in InitializedBrackets(commands) {
      var i :| 0 <= i < |pre| && pre[i].Init? && pre[i].bracket == b;
      assert commands[i].Init? && commands[i].bracket == b;
    }
  }

  ghost predicate Consistent(h: Digest, brackets: set<string>, x: Snapshot) {
    Merkle(h, x.features) && Shaped(x.features, brackets)
  }

  lemma {:induction false} EditKeepsShape(h: Digest, edit: Edit, before: FeatureMap, order: seq<string>, p: Progress, b: nat, brackets: set<string>)
    requires Outcome(h, edit, before, order, p, b) && Shaped(before, brackets)
    ensures Shaped(p.features, brackets)
  {
    hide FeatureId, FateAt;
    forall k | k in p.features ensures exists c, q :: IsPartOf(p.features, brackets, k, c, q) {
      FateKeepsShape(h, edit, before, order, p, b, k);
      var c, q :| IsPartOf(before, brackets, k, c, q);
      assert IsPartOf(p.features, brackets, k, c, q);
    }
  }

  lemma {:induction false} NewSnapshotConsistent(h: Digest, x: Session, c: Command, brackets: set<string>)
    requires ValidState(x.state) && Consistent(h, brackets, x.state.active) && NoCollisions(brackets)
    requires c.Init? ==> c.bracket in brackets
    requires MakesSnapshot(c) && Build(h, x.state, x.log, c).Ok?
    ensures Consistent(h, brackets, Build(h, x.state, x.log, c).value.active)
  {
    hide Displace, RevisionName, Merkle, Shaped, RecomputedAll, WithValues, EvaluateAll, Suffix, WithParts;
    var features := x.state.active.features;
    match c {
      case Init(b, d) => InitializeConsistent(h, features, brackets, b, d);
      case ReviseBracket(b, d) =>
        BracketIdsHold(features, b);
        EditBracketConsistent(h, features, brackets, b, d);
      case ReviseFeature(id, parameter, v) =>
        var edit, order, p, b := EditOutcome(h, x.state, id, parameter, v);
        DirtyOrdered(features, id);
        assert (set y | y in order) == Closure(features, {id});
        EditKeepsMerkle(h, edit, features, order, p, b);
        EditKeepsShape(h, edit, features, order, p, b, brackets);
    }
  }

  lemma {:induction false} RunConsistentWithin(h: Digest, commands: seq<Command>, brackets: set<string>)
    requires InitializedBrackets(commands) <= brackets && NoCollisions(brackets)
    ensures Everywhere(Run(h, commands), (x: Snapshot) => Consistent(h, brackets, x))
  {
    hide Build, Apply, Consistent, Execute;
    var good := (x: Snapshot) => Consistent(h, brackets, x);
    EmptyConsistent(h, brackets);
    if commands != [] {
      var n := |commands| - 1;
      var c := commands[n];
      InitializedGrows(commands);
      RunConsistentWithin(h, commands[..n], brackets);
      var x := Run(h, commands[..n]);
      RunReplays(h, commands[..n]);
      AcceptedLog(x.log);
      if MakesSnapshot(c) && Build(h, x.state, x.log, c).Ok? { NewSnapshotConsistent(h, x, c, brackets); }
      ExecuteKeeps(h, x, c, good);
    }
  }

  lemma {:induction false} EmptyConsistent(h: Digest, brackets: set<string>)
    ensures Consistent(h, brackets, GENESIS)
  {
  }

  /**
   * In every run whose bracket ids do not collide, every current feature of every snapshot the session holds
   * (active, named or logged) has only current dependencies, and its stored fingerprint is the one computed
   * from scratch over its whole dependency tree.
   */
  lemma {:induction false} RunFingerprintsAreFull(h: Digest, commands: seq<Command>, x: Snapshot, id: string)
    requires NoCollisions(InitializedBrackets(commands))
    requires var s := Run(h, commands);
      || x == s.state.active
      || (exists n :: n in s.state.named && s.state.named[n].snapshot == x)
      || (exists i :: 0 <= i < |s.log| && s.log[i].active == x)
    requires id in x.features && x.features[id].status == CurrentValid
    ensures forall d :: d in x.features[id].dependencies ==> d in x.features && x.features[d].status == CurrentValid
    ensures x.features[id].fingerprint == Some(FullFingerprint(h, x.features, id))
  {
    hide Run;
    var s := Run(h, commands);
    RunConsistentWithin(h, commands, InitializedBrackets(commands));
    RunReplays(h, commands);
    AcceptedLog(s.log);
    assert Consistent(h, InitializedBrackets(commands), x);
    assert ValidFeatures(x.features) by { SnapshotOfSessionValid(s, x); }
    assert Settled(h, x.features, id);
    MerkleIsFull(h, x.features, id);
  }

  lemma {:induction false} SnapshotOfSessionValid(s: Session, x: Snapshot)
    requires Replay(s.log) == Ok(s.state)
    requires x == s.state.active
      || (exists n :: n in s.state.named && s.state.named[n].snapshot == x)
      || (exists i :: 0 <= i < |s.log| && s.log[i].active == x)
    ensures ValidFeatures(x.features)
  {
    hide Apply, ValidFeatures;
    AcceptedLog(s.log);
    if n :| n in s.state.named && s.state.named[n].snapshot == x {
      assert ValidRevision(s.state.named, n);
    } else if i :| 0 <= i < |s.log| && s.log[i].active == x {
      assert SoundEntry(s.log, i);
    }
  }
}
