/** Which fragments the sweep keeps and where it sees them, in coordinates. */
module EdgeFragments {
  import opened Wrappers
  import opened Sweep
  import opened EdgeReferences
  import opened EdgeGeometry

  /** The fragment has a direction, runs along the reference's axis, and its midpoint lies beside it at most the tolerance. */
  ghost predicate OnAxis(reference: Evidence, candidate: Evidence) {
    var offset := Offset(reference, candidate);
    && Norm2(candidate.tangent) > EPSILON * EPSILON
    && Parallel(reference, candidate)
    && Norm2(offset) * Norm2(reference.tangent) - Inner(offset, reference.tangent) * Inner(offset, reference.tangent)
         <= 0.000001 * 0.000001 * Norm2(reference.tangent)
  }

  /** `along` is the signed distance of the fragment's midpoint from the reference's, measured on the axis. */
  ghost predicate LiesAt(reference: Evidence, candidate: Evidence, root: Root, along: real) {
    along * Length(reference.tangent, root) == Inner(Offset(reference, candidate), reference.tangent)
  }

  // ---------- Arithmetic ----------

  lemma {:induction false} QuotientTimes(p: real, k: real)
    requires k != 0.0
    ensures Mul(p / k, k) == p
  {
  }

  /** A product of quotients, multiplied out. */
  lemma {:induction false} TwoQuotients(p: real, k: real, q: real, m: real)
    requires k != 0.0 && m != 0.0
    ensures Mul(Mul(p / k, q / m), Mul(k, m)) == Mul(p, q)
  {
    var u, v := p / k, q / m;
    assert Mul(u, k) == p && Mul(v, m) == q;
    assert (u * v) * (k * m) == (u * k) * (v * m);
  }

  lemma {:induction false} SumTimes(a: real, b: real, c: real, k: real)
    ensures Mul(a + b + c, k) == Mul(a, k) + Mul(b, k) + Mul(c, k)
  {
  }

  lemma {:induction false} InnerOver(a: Vec, k: real, b: Vec, m: real)
    requires k != 0.0 && m != 0.0
    ensures Mul(Dot(Over(a, k), Over(b, m)), Mul(k, m)) == Inner(a, b)
  {
    var s := Mul(k, m);
    var x, y, z := Mul(a.x / k, b.x / m), Mul(a.y / k, b.y / m), Mul(a.z / k, b.z / m);
    TwoQuotients(a.x, k, b.x, m);
    TwoQuotients(a.y, k, b.y, m);
    TwoQuotients(a.z, k, b.z, m);
    SumTimes(x, y, z, s);
    assert Dot(Over(a, k), Over(b, m)) == x + y + z;
    assert Inner(a, b) == Mul(a.x, b.x) + Mul(a.y, b.y) + Mul(a.z, b.z);
    hide Mul, Dot, Over, Inner;
  }

  lemma {:induction false} DotOver(a: Vec, b: Vec, k: real)
    requires k != 0.0
    ensures Mul(Dot(a, Over(b, k)), k) == Inner(a, b)
  {
    var x, y, z := Mul(a.x, b.x / k), Mul(a.y, b.y / k), Mul(a.z, b.z / k);
    OneQuotient(a.x, b.x, k);
    OneQuotient(a.y, b.y, k);
    OneQuotient(a.z, b.z, k);
    SumTimes(x, y, z, k);
    assert Dot(a, Over(b, k)) == x + y + z;
    assert Inner(a, b) == Mul(a.x, b.x) + Mul(a.y, b.y) + Mul(a.z, b.z);
    hide Mul, Dot, Over, Inner;
  }

  lemma {:induction false} OneQuotient(p: real, q: real, k: real)
    requires k != 0.0
    ensures Mul(Mul(p, q / k), k) == Mul(p, q)
  {
    var v := q / k;
    assert Mul(v, k) == q;
    assert (p * v) * k == p * (v * k);
  }

  lemma {:induction false} SameProduct(a: real, b: real, k: real)
    requires k != 0.0 && Mul(a, k) == Mul(b, k)
    ensures a == b
  {
    assert Mul(a - b, k) == 0.0;
    NoZeroFactor(a - b, k);
  }

  lemma {:induction false} NoZeroFactor(a: real, k: real)
    requires k != 0.0 && Mul(a, k) == 0.0
    ensures a == 0.0
  {
  }

  // ---------- Projection ----------

  lemma {:induction false} QuotientOf(q: real, s: real, d: real)
    requires s > 0.0 && Mul(q, s) == d
    ensures q == d / s
  {
    QuotientTimes(d, s);
    SameProduct(q, d / s, s);
  }

  lemma {:induction false} DirectionParallel(reference: Evidence, candidate: Evidence, root: Root)
    requires SquareRoot(root) && Length(reference.tangent, root) > 0.0 && Length(candidate.tangent, root) > 0.0
    ensures var direction := Over(reference.tangent, Length(reference.tangent, root));
      var tangent := Over(candidate.tangent, Length(candidate.tangent, root));
      Abs(Dot(direction, tangent)) >= 0.999999 <==> Parallel(reference, candidate)
  {
    var a, b := Length(reference.tangent, root), Length(candidate.tangent, root);
    var d, s := Dot(reference.tangent, candidate.tangent), Mul(a, b);
    SumOfSquares(reference.tangent);
    SumOfSquares(candidate.tangent);
    assert Mul(a, a) == Norm2(reference.tangent) && Mul(b, b) == Norm2(candidate.tangent);
    MulPositive(a, b);
    InnerOver(reference.tangent, a, candidate.tangent, b);
    assert d == Inner(reference.tangent, candidate.tangent);
    QuotientOf(Dot(Over(reference.tangent, a), Over(candidate.tangent, b)), s, d);
    QuotientCompares(d, s, 0.999999);
    SquareOfProduct(a, b);
    ParallelSays(reference, candidate, d);
    hide Parallel, Mul, Norm2, Dot, Abs, Over, Inner;
  }

  lemma {:induction false} UnitDirection(v: Vec, l: real)
    requires l > 0.0 && Mul(l, l) == Norm2(v)
    ensures Dot(Over(v, l), Over(v, l)) == 1.0
  {
    InnerOver(v, l, v, l);
    MulPositive(l, l);
    assert Inner(v, v) == Norm2(v);
    assert Mul(1.0, Mul(l, l)) == Mul(l, l);
    SameProduct(Dot(Over(v, l), Over(v, l)), 1.0, Mul(l, l));
  }

  lemma {:induction false} SquareOfDifference(o: real, a: real, d: real, r: real)
    requires r == o - a * d
    ensures Mul(r, r) == Mul(o, o) - Mul(2.0 * a, Mul(o, d)) + Mul(Mul(a, a), Mul(d, d))
  {
    assert (o - a * d) * (o - a * d) == o * o - o * (a * d) - (a * d) * o + (a * d) * (a * d);
    assert o * (a * d) == a * (o * d) && (a * d) * o == a * (o * d);
    assert (a * d) * (a * d) == (a * a) * (d * d);
  }

  lemma {:induction false} SumTimesLeft(k: real, a: real, b: real, c: real, s: real)
    requires s == a + b + c
    ensures Mul(k, s) == Mul(k, a) + Mul(k, b) + Mul(k, c)
  {
  }

  /** What is left of a vector when its part along a unit vector is taken away. */
  lemma {:induction false} Pythagoras(o: Vec, d: Vec)
    requires Dot(d, d) == 1.0
    ensures var a := Dot(o, d); Dot(Minus(o, Times(a, d)), Minus(o, Times(a, d))) == Dot(o, o) - Mul(a, a)
  {
    var a := Dot(o, d);
    var r := Minus(o, Times(a, d));
    assert r.x == o.x - a * d.x && r.y == o.y - a * d.y && r.z == o.z - a * d.z;
    DotSums(o, o);
    DotSums(o, d);
    DotSums(d, d);
    DotSums(r, r);
    SquareOfDifference(o.x, a, d.x, r.x);
    SquareOfDifference(o.y, a, d.y, r.y);
    SquareOfDifference(o.z, a, d.z, r.z);
    SumTimesLeft(2.0 * a, Mul(o.x, d.x), Mul(o.y, d.y), Mul(o.z, d.z), a);
    SumTimesLeft(Mul(a, a), Mul(d.x, d.x), Mul(d.y, d.y), Mul(d.z, d.z), 1.0);
    UnitTimes(a);
    hide *;
  }

  lemma {:induction false} DotSums(a: Vec, b: Vec)
    ensures Dot(a, b) == Mul(a.x, b.x) + Mul(a.y, b.y) + Mul(a.z, b.z)
  {
  }

  lemma {:induction false} UnitTimes(a: real)
    ensures Mul(2.0 * a, a) == 2.0 * Mul(a, a) && Mul(Mul(a, a), 1.0) == Mul(a, a)
  {
  }

  /** How far the midpoint lies from the axis, squared and multiplied out. */
  lemma {:induction false} BesideIff(offset: Vec, axis: Vec, l: real)
    requires l > 0.0 && Mul(l, l) == Norm2(axis)
    ensures var d := Over(axis, l);
      var across := Minus(offset, Times(Dot(offset, d), d));
      Norm2(across) <= 0.000001 * 0.000001 <==>
        Norm2(offset) * Norm2(axis) - Inner(offset, axis) * Inner(offset, axis) <= 0.000001 * 0.000001 * Norm2(axis)
  {
    var d := Over(axis, l);
    var a := Dot(offset, d);
    var across := Minus(offset, Times(a, d));
    UnitDirection(axis, l);
    Pythagoras(offset, d);
    DotOver(offset, axis, l);
    assert Norm2(across) == Norm2(offset) - Mul(a, a);
    SquareOfProduct(a, l);
    assert Mul(Inner(offset, axis), Inner(offset, axis)) == Mul(Mul(a, a), Norm2(axis));
    MulPositive(l, l);
    OrderScales(Norm2(across), 0.000001 * 0.000001, Norm2(axis));
    DifferenceTimes(Norm2(offset), Mul(a, a), Norm2(axis));
    Multiplied(offset, axis);
    hide Mul, Norm2, Dot, Inner, Over, Minus, Times;
  }

  lemma {:induction false} DifferenceTimes(a: real, b: real, k: real)
    ensures Mul(a - b, k) == Mul(a, k) - Mul(b, k)
  {
  }

  lemma {:induction false} Multiplied(offset: Vec, axis: Vec)
    ensures Norm2(offset) * Norm2(axis) - Inner(offset, axis) * Inner(offset, axis) ==
      Mul(Norm2(offset), Norm2(axis)) - Mul(Inner(offset, axis), Inner(offset, axis))
    ensures 0.000001 * 0.000001 * Norm2(axis) == Mul(0.000001 * 0.000001, Norm2(axis))
  {
    hide Norm2, Inner;
  }

  /** A candidate is kept exactly when it lies on the axis, as the interval of its length around where it lies. */
  lemma {:induction false} KeptIff(reference: Evidence, candidate: Evidence, root: Root, f: Interval)
    requires SquareRoot(root) && Length(reference.tangent, root) > EPSILON
    ensures Project(reference, candidate, root) == Some(f) <==>
      && OnAxis(reference, candidate) && f.end - f.start == candidate.length
      && LiesAt(reference, candidate, root, (f.start + f.end) / 2.0)
  {
    var l, size := Length(reference.tangent, root), Length(candidate.tangent, root);
    var offset := Minus(candidate.midpoint, reference.midpoint);
    var d := Over(reference.tangent, l);
    var along := Dot(offset, d);
    var across := Minus(offset, Times(along, d));
    assert offset == Offset(reference, candidate);
    SumOfSquares(reference.tangent);
    SumOfSquares(candidate.tangent);
    SumOfSquares(across);
    assert Mul(l, l) == Norm2(reference.tangent);
    RootWithin(root, Norm2(candidate.tangent), EPSILON);
    RootWithin(root, Norm2(across), 0.000001);
    assert size == root(Norm2(candidate.tangent)) && Length(across, root) == root(Norm2(across));
    BesideIff(offset, reference.tangent, l);
    DotOver(offset, reference.tangent, l);
    if size > EPSILON { DirectionParallel(reference, candidate, root); }
    AlongUnique(along, (f.start + f.end) / 2.0, l, Inner(offset, reference.tangent));
    hide Mul, Norm2, Dot, Inner, Over, Minus, Times, Parallel, SquareRoot, Length;
  }

  lemma {:induction false} AlongUnique(along: real, m: real, l: real, inner: real)
    requires l > 0.0 && Mul(along, l) == inner
    ensures m * l == inner <==> m == along
  {
    if m * l == inner { SameProduct(m, along, l); }
  }

  // ---------- What a reported split means ----------

  /** The candidate at this position has the lineage and role of the reference and lies on its axis, `along` from its middle. */
  ghost predicate FragmentAt(reference: Edge, candidates: seq<Edge>, root: Root, i: nat, along: real) {
    SharesLineage(reference, candidates, i) && candidates[i].role == reference.role
    && OnAxis(reference.evidence, candidates[i].evidence) && LiesAt(reference.evidence, candidates[i].evidence, root, along)
  }

  lemma {:induction false} KeptIsFragment(reference: Edge, candidates: seq<Edge>, root: Root, f: Interval) returns (i: nat)
    requires SquareRoot(root) && Length(reference.evidence.tangent, root) > EPSILON
    requires f in LineageKept(reference, candidates, root)
    ensures FragmentAt(reference, candidates, root, i, (f.start + f.end) / 2.0)
    ensures f.end - f.start == candidates[i].evidence.length
  {
    hide Project, SquareRoot, OnAxis, LiesAt, Where;
    var lineage := Where(candidates, OfRole(reference));
    KeptMembers(reference.evidence, lineage, root, f);
    var c :| c in lineage && Project(reference.evidence, c.evidence, root) == Some(f);
    assert c in candidates && OfRole(reference)(c);
    i :| i < |candidates| && candidates[i] == c;
    KeptIff(reference.evidence, c.evidence, root, f);
  }

  /** When a split is reported every point of the edge is within the tolerance of such a fragment, measured on the axis. */
  lemma {:induction false} SplitCovers(reference: Edge, candidates: seq<Edge>, root: Root, x: real)
    requires SquareRoot(root) && SplitReported(reference, candidates, root)
    requires -reference.evidence.length / 2.0 <= x <= reference.evidence.length / 2.0
    ensures exists i: nat, along :: (FragmentAt(reference, candidates, root, i, along)
      && along - candidates[i].evidence.length / 2.0 - 0.000001 <= x <= along + candidates[i].evidence.length / 2.0 + 0.000001)
  {
    hide SquareRoot, ResolveEdge, ResolveSplit, Accepted, FragmentAt, LineageKept;
    ReportedMeans(reference, candidates, root);
    var kept := LineageKept(reference, candidates, root);
    AcceptedCovers(kept, reference.evidence.length / 2.0, x);
    var f :| f in kept && Near(f, x);
    var i := KeptIsFragment(reference, candidates, root, f);
    var along := (f.start + f.end) / 2.0;
    assert FragmentAt(reference, candidates, root, i, along);
    FragmentInRange(reference, candidates, root, i, along);
    assert along - candidates[i].evidence.length / 2.0 == f.start && along + candidates[i].evidence.length / 2.0 == f.end;
  }

  lemma {:induction false} FragmentInRange(reference: Edge, candidates: seq<Edge>, root: Root, i: nat, along: real)
    requires FragmentAt(reference, candidates, root, i, along)
    ensures i < |candidates|
  {
  }

  /** The whole edge is not found, and the answer is a split. */
  ghost predicate SplitReported(reference: Edge, candidates: seq<Edge>, root: Root) {
    ResolveEdge(reference, candidates, root).Incompatible? && ResolveSplit(reference, candidates, root).Ambiguous?
  }

  lemma {:induction false} ReportedMeans(reference: Edge, candidates: seq<Edge>, root: Root)
    requires SplitReported(reference, candidates, root)
    ensures SweepReached(reference, candidates, root)
    ensures Accepted(LineageKept(reference, candidates, root), reference.evidence.length / 2.0)
    ensures ResolveSplit(reference, candidates, root).candidateIds == SortedIds(Where(candidates, OfRole(reference)))
  {
    hide ResolveEdge, Accepted, SortedIds, Where, Edge.IsValid, Kept;
  }

  ghost predicate Covered(reference: Edge, candidates: seq<Edge>, root: Root, x: real) {
    exists i: nat, along :: FragmentAt(reference, candidates, root, i, along)
      && along - candidates[i].evidence.length / 2.0 <= x <= along + candidates[i].evidence.length / 2.0
  }

  ghost predicate WithinEdge(reference: Edge, candidates: seq<Edge>, root: Root, i: nat, along: real)
    requires i < |candidates|
  {
    && candidates[i].evidence.length >= 0.0
    && -reference.evidence.length / 2.0 <= along - candidates[i].evidence.length / 2.0
    && along + candidates[i].evidence.length / 2.0 <= reference.evidence.length / 2.0
  }

  lemma {:induction false} FragmentIsKept(reference: Edge, candidates: seq<Edge>, root: Root, i: nat, along: real)
    requires SquareRoot(root) && Length(reference.evidence.tangent, root) > EPSILON
    requires FragmentAt(reference, candidates, root, i, along)
    ensures var half := candidates[i].evidence.length / 2.0;
      Project(reference.evidence, candidates[i].evidence, root) == Some(Interval(along - half, along + half))
    ensures var half := candidates[i].evidence.length / 2.0;
      Interval(along - half, along + half) in LineageKept(reference, candidates, root)
  {
    hide SquareRoot, OnAxis, LiesAt, Where, Project;
    var c := candidates[i];
    var half := c.evidence.length / 2.0;
    var f := Interval(along - half, along + half);
    assert (f.start + f.end) / 2.0 == along && f.end - f.start == c.evidence.length;
    KeptIff(reference.evidence, c.evidence, root, f);
    var lineage := Where(candidates, OfRole(reference));
    assert c in candidates && OfRole(reference)(c);
    assert c in lineage;
    KeptMembers(reference.evidence, lineage, root, f);
  }

  lemma {:induction false} KeptCounts(reference: Evidence, s: seq<Edge>, root: Root, i: nat, j: nat)
    requires Length(reference.tangent, root) > EPSILON && i < |s|
    requires Project(reference, s[i].evidence, root).Some? && (i != j && j < |s| ==> Project(reference, s[j].evidence, root).Some?)
    ensures |Kept(reference, s, root)| >= if i != j && j < |s| then 2 else 1
    decreases |s|
  {
    hide Project;
    if i > 0 && j > 0 {
      KeptCounts(reference, s[1..], root, i - 1, j - 1);
    } else if i > 0 && j == 0 {
      KeptCounts(reference, s[1..], root, i - 1, |s|);
    } else if i == 0 && 0 < j < |s| {
      KeptCounts(reference, s[1..], root, j - 1, |s|);
    }
  }

  lemma {:induction false} TwoFragmentsKept(reference: Edge, candidates: seq<Edge>, root: Root, i: nat, a: real, j: nat, b: real)
    requires SquareRoot(root) && Length(reference.evidence.tangent, root) > EPSILON
    requires i < j && FragmentAt(reference, candidates, root, i, a) && FragmentAt(reference, candidates, root, j, b)
    ensures |LineageKept(reference, candidates, root)| >= 2
  {
    hide SquareRoot, OnAxis, LiesAt, Where, Project, Kept;
    var keep := OfRole(reference);
    FragmentIsKept(reference, candidates, root, i, a);
    FragmentIsKept(reference, candidates, root, j, b);
    var c, d := candidates[i], candidates[j];
    WhereAt(candidates, keep, i);
    var tail := candidates[i + 1..];
    assert tail[j - i - 1] == d;
    WhereAt(tail, keep, j - i - 1);
    var lineage := Where(candidates, keep);
    var head := |Where(candidates[..i], keep)|;
    var gap := |Where(tail[..j - i - 1], keep)|;
    assert lineage[head] == c && lineage[head + 1 + gap] == d;
    KeptCounts(reference.evidence, lineage, root, head, head + 1 + gap);
  }

  /**
   * At least two fragments that lie within the edge, have no negative length and cover it are always reported as a
   * split, with the ids of every candidate of the lineage and role.
   */
  lemma {:induction false} CoveringIsSplit(
    reference: Edge, candidates: seq<Edge>, root: Root, i: nat, a: real, j: nat, b: real)
    requires SquareRoot(root) && SweepReached(reference, candidates, root)
    requires i < j && FragmentAt(reference, candidates, root, i, a) && FragmentAt(reference, candidates, root, j, b)
    requires forall k: nat, along :: FragmentAt(reference, candidates, root, k, along) ==>
      k < |candidates| && WithinEdge(reference, candidates, root, k, along)
    requires forall x: real :: -reference.evidence.length / 2.0 <= x <= reference.evidence.length / 2.0 ==>
      Covered(reference, candidates, root, x)
    ensures ResolveSplit(reference, candidates, root) == Ambiguous(SortedIds(Where(candidates, OfRole(reference))))
  {
    hide SquareRoot, FragmentAt, LineageKept, Accepted, ResolveEdge, ResolveSplit, SortedIds, Where, Edge.IsValid;
    var kept, half := LineageKept(reference, candidates, root), reference.evidence.length / 2.0;
    TwoFragmentsKept(reference, candidates, root, i, a, j, b);
    forall f | f in kept ensures -half <= f.start <= f.end <= half {
      var k := KeptIsFragment(reference, candidates, root, f);
      assert WithinEdge(reference, candidates, root, k, (f.start + f.end) / 2.0);
    }
    forall x: real | -half <= x <= half ensures CoveredAt(kept, x) {
      assert Covered(reference, candidates, root, x);
      var k: nat, along :| FragmentAt(reference, candidates, root, k, along)
        && along - candidates[k].evidence.length / 2.0 <= x <= along + candidates[k].evidence.length / 2.0;
      FragmentIsKept(reference, candidates, root, k, along);
    }
    CoveringAccepted(kept, half);
    SweepDecides(reference, candidates, root);
  }
}
