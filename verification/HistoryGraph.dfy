/** The two graph algorithms of the history engine: the dirty closure and the evaluation order. */
module HistoryGraph {
  import opened Wrappers
  import opened Ordering
  import opened Text
  import opened HistoryModel

  /** Some feature whose id is `b` depends on `a`. */
  ghost predicate Edge(features: FeatureMap, a: string, b: string) {
    exists k :: k in features && features[k].id == b && a in features[k].dependencies
  }

  ghost predicate Chain(features: FeatureMap, p: seq<string>) {
    p != [] && forall i :: 0 <= i < |p| - 1 ==> Edge(features, p[i], p[i + 1])
  }

  /** `x` is `target` or depends on it through a chain of features. */
  ghost predicate DependsOn(features: FeatureMap, x: string, target: string) {
    exists p :: Chain(features, p) && p[0] == target && p[|p| - 1] == x
  }

  predicate Touches(feature: Feature, dirty: set<string>) {
    exists d :: d in feature.dependencies && d in dirty
  }

  predicate ClosedUnderDependents(features: FeatureMap, dirty: set<string>) {
    forall k :: k in features && Touches(features[k], dirty) ==> features[k].id in dirty
  }

  function FeatureIds(features: FeatureMap): set<string> {
    set k | k in features :: features[k].id
  }

  function Dependents(features: FeatureMap, dirty: set<string>): set<string> {
    set k | k in features && Touches(features[k], dirty) :: features[k].id
  }

  /** The least superset of `dirty` that is closed under dependents. */
  function Closure(features: FeatureMap, dirty: set<string>): (r: set<string>)
    ensures dirty <= r && ClosedUnderDependents(features, r)
    decreases FeatureIds(features) - dirty
  {
    var added := Dependents(features, dirty);
    if added <= dirty then
      assert forall k :: k in features && Touches(features[k], dirty) ==> features[k].id in added;
      dirty
    else
      assert added <= FeatureIds(features);
      Closure(features, dirty + added)
  }

  lemma {:induction false} ClosureLeast(features: FeatureMap, dirty: set<string>, s: set<string>)
    requires dirty <= s && ClosedUnderDependents(features, s)
    ensures Closure(features, dirty) <= s
    decreases FeatureIds(features) - dirty
  {
    var added := Dependents(features, dirty);
    if !(added <= dirty) {
      assert added <= FeatureIds(features);
      forall id | id in added ensures id in s {
        var k :| k in features && Touches(features[k], dirty) && features[k].id == id;
        assert Touches(features[k], s);
      }
      ClosureLeast(features, dirty + added, s);
    }
  }

  lemma {:induction false} ChainStaysInside(features: FeatureMap, p: seq<string>, s: set<string>, n: nat)
    requires Chain(features, p) && p[0] in s && ClosedUnderDependents(features, s) && n < |p|
    ensures p[n] in s
  {
    if n > 0 {
      ChainStaysInside(features, p, s, n - 1);
      assert Edge(features, p[n - 1], p[n]);
      var k :| k in features && features[k].id == p[n] && p[n - 1] in features[k].dependencies;
      assert Touches(features[k], s);
    }
  }

  lemma {:induction false} ClosureIsReached(features: FeatureMap, target: string, dirty: set<string>)
    requires forall x :: x in dirty ==> DependsOn(features, x, target)
    ensures forall x :: x in Closure(features, dirty) ==> DependsOn(features, x, target)
    decreases FeatureIds(features) - dirty
  {
    var added := Dependents(features, dirty);
    if !(added <= dirty) {
      assert added <= FeatureIds(features);
      forall x | x in added ensures DependsOn(features, x, target) {
        var k :| k in features && Touches(features[k], dirty) && features[k].id == x;
        var d :| d in features[k].dependencies && d in dirty;
        var p :| Chain(features, p) && p[0] == target && p[|p| - 1] == d;
        var q := p + [x];
        assert Edge(features, d, x);
        forall i | 0 <= i < |q| - 1 ensures Edge(features, q[i], q[i + 1]) {
          if i < |p| - 1 { assert Edge(features, p[i], p[i + 1]); }
        }
        assert Chain(features, q) && q[0] == target && q[|q| - 1] == x;
      }
      ClosureIsReached(features, target, dirty + added);
    }
  }

  /** The dirty closure of a target holds exactly the target and the features that depend on it. */
  lemma {:induction false} ClosureIsReachability(features: FeatureMap, target: string, x: string)
    ensures x in Closure(features, {target}) <==> DependsOn(features, x, target)
  {
    var c := Closure(features, {target});
    assert Chain(features, [target]);
    assert forall t :: t in {target} ==> DependsOn(features, t, target) by {
      var p := [target];
      assert Chain(features, p) && p[0] == target && p[|p| - 1] == target;
    }
    ClosureIsReached(features, target, {target});
    if DependsOn(features, x, target) {
      var p :| Chain(features, p) && p[0] == target && p[|p| - 1] == x;
      ChainStaysInside(features, p, c, |p| - 1);
    }
  }

  function Reachable(features: FeatureMap, target: string): Result<seq<string>, HistoryError> {
    if target !in features then Err(FeatureNotFound(target))
    else Ok(Sorted(Closure(features, {target})))
  }

  /** One visit of every feature in key order, adding each dependent of a dirty feature. */
  method DirtyPass(features: FeatureMap, before: set<string>, ghost bound: set<string>)
    returns (dirty: set<string>, changed: bool)
    requires before <= bound && ClosedUnderDependents(features, bound)
    ensures before <= dirty <= bound
    ensures changed <==> dirty != before
    ensures !changed ==> ClosedUnderDependents(features, dirty)
  {
    dirty, changed := before, false;
    var keys := Sorted(features.Keys);
    for n := 0 to |keys|
      invariant before <= dirty <= bound
      invariant changed <==> dirty != before
      invariant !changed ==> forall k :: k in keys[..n] && Touches(features[k], before) ==> features[k].id in before
    {
      var feature := features[keys[n]];
      if Touches(feature, dirty) && feature.id !in dirty {
        assert Touches(feature, bound);
        dirty := dirty + {feature.id};
        changed := true;
      }
    }
  }

  method ReachableFeatures(features: FeatureMap, target: string) returns (r: Result<seq<string>, HistoryError>)
    ensures r == Reachable(features, target)
  {
    if target !in features { return Err(FeatureNotFound(target)); }
    var dirty := {target};
    var changed := true;
    ghost var bound := Closure(features, {target});
    while changed
      invariant target in dirty && dirty <= bound
      invariant !changed ==> ClosedUnderDependents(features, dirty)
      decreases |bound| - |dirty|, changed
    {
      ghost var before := dirty;
      dirty, changed := DirtyPass(features, dirty, bound);
      GrowsWithin(before, dirty, bound);
    }
    assert dirty == bound by { ClosureLeast(features, {target}, dirty); }
    r := Ok(Sorted(dirty));
  }

  lemma {:induction false} GrowsWithin(before: set<string>, after: set<string>, bound: set<string>)
    requires before <= after <= bound
    ensures |before| <= |after| <= |bound| && (before != after ==> |before| < |after|)
  {
    assert bound == after + (bound - after);
    assert after == before + (after - before);
    if before != after {
      var x :| x in after - before;
    }
  }

  // ---------- Evaluation order ----------

  predicate Ready(features: FeatureMap, remaining: set<string>, id: string) {
    id in features && forall d :: d in features[id].dependencies ==> d !in remaining
  }

  /** The first of the remaining identifiers whose dependencies are all done. */
  function FirstReady(features: FeatureMap, remaining: set<string>): (r: Option<string>)
    ensures r.Some? ==> r.value in remaining && Ready(features, remaining, r.value)
    ensures r.Some? ==> forall id :: id in remaining && Ready(features, remaining, id) ==> TextLe(r.value, id)
    ensures r.None? ==> forall id :: id in remaining ==> !Ready(features, remaining, id)
  {
    var ready := set id | id in remaining && Ready(features, remaining, id);
    TextOrder();
    if ready == {} then
      assert forall id :: id in remaining && Ready(features, remaining, id) ==> id in ready;
      None
    else Some(Least(ready, TextLe))
  }

  function TopologicalOrder(features: FeatureMap, remaining: set<string>): Option<seq<string>>
    decreases remaining
  {
    if remaining == {} then Some([]) else
    var next := FirstReady(features, remaining);
    if next.None? then None else
    var rest := TopologicalOrder(features, remaining - {next.value});
    if rest.None? then None else Some([next.value] + rest.value)
  }

  function Order(features: FeatureMap, dirty: seq<string>): Result<seq<string>, HistoryError> {
    var order := TopologicalOrder(features, set id | id in dirty);
    if order.None? then Err(InvalidEvent(DependencyCycle)) else Ok(order.value)
  }

  method OrderDirty(features: FeatureMap, dirty: seq<string>) returns (r: Result<seq<string>, HistoryError>)
    ensures r == Order(features, dirty)
  {
    var remaining := set id | id in dirty;
    var order := [];
    ghost var whole := TopologicalOrder(features, remaining);
    assert whole.Some? ==> [] + whole.value == whole.value;
    while remaining != {}
      invariant var rest := TopologicalOrder(features, remaining);
        whole == if rest.None? then None else Some(order + rest.value)
      decreases remaining
    {
      var next := FirstReady(features, remaining);
      if next.None? { return Err(InvalidEvent(DependencyCycle)); }
      ghost var rest := TopologicalOrder(features, remaining - {next.value});
      if rest.Some? {
        assert order + ([next.value] + rest.value) == (order + [next.value]) + rest.value;
      }
      remaining := remaining - {next.value};
      order := order + [next.value];
    }
    assert order + [] == order;
    r := Ok(order);
  }

  /** Each identifier once, present, and after every dependency of it that is listed. */
  ghost predicate Sequenced(features: FeatureMap, order: seq<string>) {
    && (forall i :: 0 <= i < |order| ==> order[i] in features)
    && (forall i, j :: 0 <= i < j < |order| ==> order[i] != order[j])
    && (forall i, j :: 0 <= i <= j < |order| ==> order[j] !in features[order[i]].dependencies)
  }

  ghost predicate IsOrderOf(features: FeatureMap, order: seq<string>, ids: set<string>) {
    (forall x :: x in order <==> x in ids) && Sequenced(features, order)
  }

  lemma {:induction false} SequencedPrefix(features: FeatureMap, order: seq<string>)
    requires Sequenced(features, order) && order != []
    ensures var n := |order| - 1;
      && Sequenced(features, order[..n])
      && order[n] in features && order[n] !in order[..n] && order[n] !in features[order[n]].dependencies
      && forall i :: 0 <= i < n ==> order[..n][i] in features && order[n] !in features[order[..n][i]].dependencies
  {
  }

  /** Nobody in `s` can ever be first: each member is absent or depends on a member. */
  ghost predicate Stuck(features: FeatureMap, s: set<string>) {
    s != {} && forall x :: x in s ==> x in features ==> Touches(features[x], s)
  }

  lemma {:induction false} OrderSound(features: FeatureMap, ids: set<string>)
    requires TopologicalOrder(features, ids).Some?
    ensures IsOrderOf(features, TopologicalOrder(features, ids).value, ids)
    decreases ids
  {
    if ids != {} {
      var next := FirstReady(features, ids).value;
      var rest := TopologicalOrder(features, ids - {next}).value;
      OrderSound(features, ids - {next});
      var order := [next] + rest;
      assert order[0] == next && forall i :: 0 < i < |order| ==> order[i] == rest[i - 1];
      forall x ensures x in order <==> x in ids { assert x in order <==> x == next || x in rest; }
      forall i, j | 0 <= i < j < |order| ensures order[i] != order[j] {
        if i == 0 { assert order[j] in rest; }
      }
      forall i, j | 0 <= i <= j < |order| ensures order[j] !in features[order[i]].dependencies {
        if i == 0 { assert order[j] in ids; }
      }
    }
  }

  /** None of what `order[j]` depends on is still to come at position `i`. */
  ghost predicate FreeAt(features: FeatureMap, order: seq<string>, i: nat, j: nat) {
    i < j < |order| && order[j] in features && forall d :: d in features[order[j]].dependencies ==> d !in order[i..]
  }

  /** At every position stands the least identifier that could stand there; with OrderSound this fixes the order. */
  lemma {:induction false} OrderIsFirst(features: FeatureMap, ids: set<string>, i: nat, j: nat)
    requires TopologicalOrder(features, ids).Some? && FreeAt(features, TopologicalOrder(features, ids).value, i, j)
    ensures var order := TopologicalOrder(features, ids).value; TextLe(order[i], order[j])
    decreases ids
  {
    var next := FirstReady(features, ids).value;
    var rest := TopologicalOrder(features, ids - {next}).value;
    var order := TopologicalOrder(features, ids).value;
    OrderSound(features, ids);
    assert order == [next] + rest;
    hide TextLe, FirstReady, TopologicalOrder, Sequenced;
    if i == 0 {
      var id := order[j];
      assert id in order && order[0..] == order;
      assert Ready(features, ids, id) by { FreeIsReady(features, ids, order, j); }
    } else {
      assert order[i..] == rest[i - 1..] && order[j] == rest[j - 1];
      OrderIsFirst(features, ids - {next}, i - 1, j - 1);
    }
  }

  lemma {:induction false} FreeIsReady(features: FeatureMap, ids: set<string>, order: seq<string>, j: nat)
    requires FreeAt(features, order, 0, j) && forall x :: x in order <==> x in ids
    ensures Ready(features, ids, order[j])
  {
    assert order[0..] == order;
  }

  /** Ordering fails exactly when some nonempty subset is stuck. */
  lemma {:induction false} OrderComplete(features: FeatureMap, ids: set<string>)
    ensures TopologicalOrder(features, ids).None? <==> exists s :: s <= ids && Stuck(features, s)
    decreases ids
  {
    if ids == {} {
    } else {
      var next := FirstReady(features, ids);
      if next.None? {
        assert Stuck(features, ids);
      } else {
        OrderComplete(features, ids - {next.value});
        assert !Touches(features[next.value], ids);
        assert forall s :: s <= ids && Stuck(features, s) ==> s <= ids - {next.value};
      }
    }
  }

  ghost predicate Acyclic(features: FeatureMap) {
    forall s :: s <= features.Keys ==> !Stuck(features, s)
  }

  /** A feature map that can be ordered as a whole can be ordered on every subset of its features. */
  lemma {:induction false} AcyclicOrders(features: FeatureMap, ids: set<string>)
    requires Acyclic(features) && ids <= features.Keys
    ensures TopologicalOrder(features, ids).Some?
    ensures IsOrderOf(features, TopologicalOrder(features, ids).value, ids)
  {
    OrderComplete(features, ids);
    OrderSound(features, ids);
  }

  lemma {:induction false} AcyclicIffOrdered(features: FeatureMap)
    ensures TopologicalOrder(features, features.Keys).Some? <==> Acyclic(features)
  {
    OrderComplete(features, features.Keys);
  }
}
