/** Reattaching a selected edge after an edit, whole or split into fragments. */
module EdgeReferences {
  import opened Wrappers
  import opened Ordering
  import opened Text
  import opened Sweep

  datatype Vec = Vec(x: real, y: real, z: real)

  function Dot(a: Vec, b: Vec): real { a.x * b.x + a.y * b.y + a.z * b.z }

  function Minus(a: Vec, b: Vec): Vec { Vec(a.x - b.x, a.y - b.y, a.z - b.z) }

  function Times(k: real, a: Vec): Vec { Vec(k * a.x, k * a.y, k * a.z) }

  function Over(a: Vec, k: real): Vec
    requires k != 0.0
  {
    Vec(a.x / k, a.y / k, a.z / k)
  }

  function Abs(x: real): real { if x < 0.0 then -x else x }

  const EDGE_MIDPOINT_TOLERANCE: real := 0.000001
  const EDGE_TANGENT_TOLERANCE: real := 0.000001

  /** The gap after 1 in doubles, 2 to the power -52. */
  const EPSILON: real := 1.0 / 4503599627370496.0

  /** The square root; nothing in this module depends on what it computes. */
  type Root = real -> real

  datatype Evidence = Evidence(midpoint: Vec, tangent: Vec, length: real)
  {
    /** Finiteness is built into `real`. */
    predicate IsValid() { length > 0.0 && Dot(tangent, tangent) > EPSILON }
  }

  datatype Provenance = Provenance(featureId: string, revisionId: string, edgeId: string)

  /** A selected edge, and equally a candidate for it. */
  datatype Edge = Edge(semanticId: string, provenance: Provenance, role: string, evidence: Evidence)
  {
    predicate IsValid() {
      && semanticId != "" && role != ""
      && provenance.featureId != "" && provenance.revisionId != "" && provenance.edgeId != ""
      && evidence.IsValid()
    }
  }

  datatype Reattachment =
    | Resolved(semanticId: string)
    | Ambiguous(candidateIds: seq<string>)
    | Lost
    | Incompatible(candidateIds: seq<string>)

  // ---------- Whole edges ----------

  function Length(v: Vec, root: Root): real { root(Dot(v, v)) }

  function Scale(reference: Evidence, candidate: Evidence, root: Root): real {
    Length(reference.tangent, root) * Length(candidate.tangent, root)
  }

  /** Where a tangent has length 0 the program's quotient is NaN, which fails the test. */
  predicate GeometricMatch(reference: Evidence, candidate: Evidence, root: Root) {
    var scale := Scale(reference, candidate, root);
    && Length(Minus(reference.midpoint, candidate.midpoint), root) <= EDGE_MIDPOINT_TOLERANCE
    && Abs(reference.length - candidate.length) <= EDGE_LENGTH_TOLERANCE
    && scale != 0.0
    && 1.0 - Abs(Dot(reference.tangent, candidate.tangent) / scale) <= EDGE_TANGENT_TOLERANCE
  }

  function Where(edges: seq<Edge>, keep: Edge -> bool): (r: seq<Edge>)
    ensures forall e :: e in r <==> e in edges && keep(e)
  {
    if edges == [] then [] else
    (if keep(edges[0]) then [edges[0]] else []) + Where(edges[1..], keep)
  }

  function Ids(edges: seq<Edge>): set<string> { set e | e in edges :: e.semanticId }

  /** The candidates' ids, sorted and each once. */
  function SortedIds(edges: seq<Edge>): seq<string> {
    TextOrder();
    Ascending(Ids(edges), TextLe)
  }

  function OfLineage(reference: Edge): Edge -> bool { (c: Edge) => c.provenance == reference.provenance }

  function OfRole(reference: Edge): Edge -> bool {
    (c: Edge) => c.provenance == reference.provenance && c.role == reference.role
  }

  function Matching(reference: Edge, root: Root): Edge -> bool {
    (c: Edge) => OfRole(reference)(c) && GeometricMatch(reference.evidence, c.evidence, root)
  }

  /** Provenance narrows first, then the role, then the geometry. */
  function ResolveEdge(reference: Edge, candidates: seq<Edge>, root: Root): Reattachment {
    if !reference.IsValid() then Incompatible([]) else
    if exists c :: c in candidates && !c.IsValid() then Incompatible(SortedIds(candidates)) else
    var lineage := Where(candidates, OfLineage(reference));
    if lineage == [] then Lost else
    if Where(candidates, OfRole(reference)) == [] then Incompatible(SortedIds(lineage)) else
    var matches := Where(candidates, Matching(reference, root));
    if |matches| == 1 then Resolved(matches[0].semanticId) else
    if matches == [] then Incompatible(SortedIds(lineage)) else Ambiguous(SortedIds(matches))
  }

  // ---------- Split edges ----------

  /** A fragment's interval on the reference's axis, or nothing when it points or lies elsewhere. */
  function Project(reference: Evidence, candidate: Evidence, root: Root): (r: Option<Interval>)
    requires Length(reference.tangent, root) > EPSILON
    ensures r.Some? ==> r.value.end - r.value.start == candidate.length
  {
    var size := Length(candidate.tangent, root);
    if size <= EPSILON then None else
    var direction := Over(reference.tangent, Length(reference.tangent, root));
    var offset := Minus(candidate.midpoint, reference.midpoint);
    var along := Dot(offset, direction);
    var across := Minus(offset, Times(along, direction));
    if 1.0 - Abs(Dot(direction, Over(candidate.tangent, size))) > EDGE_TANGENT_TOLERANCE
      || Length(across, root) > EDGE_MIDPOINT_TOLERANCE then None
    else Some(Interval(along - candidate.length / 2.0, along + candidate.length / 2.0))
  }

  function Kept(reference: Evidence, fragments: seq<Edge>, root: Root): seq<Interval>
    requires Length(reference.tangent, root) > EPSILON
  {
    if fragments == [] then [] else
    var rest := Kept(reference, fragments[1..], root);
    match Project(reference, fragments[0].evidence, root)
    case None => rest
    case Some(f) => [f] + rest
  }

  predicate FragmentsReconstruct(reference: Evidence, fragments: seq<Edge>, root: Root) {
    && Length(reference.tangent, root) > EPSILON
    && Accepted(Kept(reference, fragments, root), reference.length / 2.0)
  }

  /** A split is recognised only where the whole edge was not found, among the candidates of its lineage and role. */
  function ResolveSplit(reference: Edge, candidates: seq<Edge>, root: Root): Reattachment {
    var outcome := ResolveEdge(reference, candidates, root);
    if !outcome.Incompatible? || !reference.IsValid() || reference.provenance.edgeId != reference.semanticId then
      outcome
    else
      var lineage := Where(candidates, OfRole(reference));
      if |lineage| >= 2 && FragmentsReconstruct(reference.evidence, lineage, root) then Ambiguous(SortedIds(lineage))
      else outcome
  }

  // ---------- Order of the candidates ----------

  ghost predicate Rearranged(a: seq<Edge>, b: seq<Edge>) { multiset(a) == multiset(b) }

  lemma {:induction false} RearrangedMembers(a: seq<Edge>, b: seq<Edge>)
    requires Rearranged(a, b)
    ensures |a| == |b| && forall e :: e in a <==> e in b
  {
    assert |multiset(a)| == |a| && |multiset(b)| == |b|;
    forall e ensures e in a <==> e in b { assert e in multiset(a) <==> e in multiset(b); }
  }

  function Drop(s: seq<Edge>, i: nat): seq<Edge>
    requires i < |s|
  {
    s[..i] + s[i + 1..]
  }

  lemma {:induction false} DropTakesOne(s: seq<Edge>, i: nat)
    requires i < |s|
    ensures multiset(s) == multiset(Drop(s, i)) + multiset{s[i]}
  {
    assert s == s[..i] + [s[i]] + s[i + 1..];
  }

  lemma {:induction false} RearrangedDrop(a: seq<Edge>, b: seq<Edge>) returns (i: nat)
    requires Rearranged(a, b) && a != []
    ensures i < |b| && b[i] == a[0] && Rearranged(a[1..], Drop(b, i))
  {
    RearrangedMembers(a, b);
    assert a[0] in a;
    i :| 0 <= i < |b| && b[i] == a[0];
    DropTakesOne(a, 0);
    DropTakesOne(b, i);
    var c, d := a[1..], Drop(b, i);
    assert Drop(a, 0) == c;
    assert multiset(c) == multiset(d) by {
      forall e ensures multiset(c)[e] == multiset(d)[e] { Cancel(multiset(c), multiset(d), a[0], e); }
    }
  }

  lemma {:induction false} Cancel(m: multiset<Edge>, n: multiset<Edge>, x: Edge, e: Edge)
    requires m + multiset{x} == n + multiset{x}
    ensures m[e] == n[e]
  {
    assert (m + multiset{x})[e] == (n + multiset{x})[e];
  }

  function Counted(keep: Edge -> bool, e: Edge, f: Edge): nat { if keep(e) && e == f then 1 else 0 }

  lemma {:induction false} WhereFirst(s: seq<Edge>, keep: Edge -> bool, f: Edge)
    requires s != []
    ensures multiset(Where(s, keep))[f] == Counted(keep, s[0], f) + multiset(Where(s[1..], keep))[f]
  {
    var rest := Where(s[1..], keep);
    if keep(s[0]) { assert multiset([s[0]] + rest) == multiset{s[0]} + multiset(rest); }
  }

  lemma {:induction false} WhereDrop(b: seq<Edge>, i: nat, keep: Edge -> bool, f: Edge)
    requires i < |b|
    ensures multiset(Where(b, keep))[f] == multiset(Where(Drop(b, i), keep))[f] + Counted(keep, b[i], f)
  {
    hide Where, Counted;
    WhereFirst(b, keep, f);
    if i == 0 {
      assert Drop(b, 0) == b[1..];
    } else {
      WhereDrop(b[1..], i - 1, keep, f);
      WhereFirst(Drop(b, i), keep, f);
      assert Drop(b, i)[1..] == Drop(b[1..], i - 1) && Drop(b, i)[0] == b[0];
    }
  }

  lemma {:induction false} WhereRearranged(a: seq<Edge>, b: seq<Edge>, keep: Edge -> bool)
    requires Rearranged(a, b)
    ensures Rearranged(Where(a, keep), Where(b, keep))
    decreases |a|
  {
    RearrangedMembers(a, b);
    if a != [] {
      var i := RearrangedDrop(a, b);
      WhereRearranged(a[1..], Drop(b, i), keep);
      forall f ensures multiset(Where(a, keep))[f] == multiset(Where(b, keep))[f] {
        WhereDrop(b, i, keep, f);
        WhereFirst(a, keep, f);
      }
    }
  }

  lemma {:induction false} KeptMembers(reference: Evidence, s: seq<Edge>, root: Root, f: Interval)
    requires Length(reference.tangent, root) > EPSILON
    ensures f in Kept(reference, s, root) <==> exists e :: e in s && Project(reference, e.evidence, root) == Some(f)
  {
    if s != [] {
      KeptMembers(reference, s[1..], root, f);
      if f in Kept(reference, s, root) && Project(reference, s[0].evidence, root) != Some(f) {
        var e :| e in s[1..] && Project(reference, e.evidence, root) == Some(f);
        assert e in s;
      }
      if e :| e in s && Project(reference, e.evidence, root) == Some(f) {
        assert e == s[0] || e in s[1..];
      }
    }
  }

  lemma {:induction false} KeptDrop(reference: Evidence, b: seq<Edge>, i: nat, root: Root)
    requires Length(reference.tangent, root) > EPSILON && i < |b|
    ensures |Kept(reference, b, root)| ==
      |Kept(reference, Drop(b, i), root)| + (if Project(reference, b[i].evidence, root).Some? then 1 else 0)
  {
    hide Project;
    if i == 0 {
      assert Drop(b, 0) == b[1..];
    } else {
      KeptDrop(reference, b[1..], i - 1, root);
      assert Drop(b, i)[1..] == Drop(b[1..], i - 1) && Drop(b, i)[0] == b[0];
    }
  }

  lemma {:induction false} KeptLength(reference: Evidence, a: seq<Edge>, b: seq<Edge>, root: Root)
    requires Length(reference.tangent, root) > EPSILON && Rearranged(a, b)
    ensures |Kept(reference, a, root)| == |Kept(reference, b, root)|
    decreases |a|
  {
    hide Project;
    RearrangedMembers(a, b);
    if a != [] {
      var i := RearrangedDrop(a, b);
      KeptLength(reference, a[1..], Drop(b, i), root);
      KeptDrop(reference, b, i, root);
    }
  }

  ghost predicate NoNegativeLength(s: seq<Edge>) {
    forall e :: e in s ==> e.evidence.length >= 0.0
  }

  lemma {:induction false} KeptForward(reference: Evidence, s: seq<Edge>, root: Root)
    requires Length(reference.tangent, root) > EPSILON && NoNegativeLength(s)
    ensures Forward(Kept(reference, s, root))
  {
    forall f | f in Kept(reference, s, root) ensures f.start <= f.end {
      KeptMembers(reference, s, root, f);
    }
  }

  lemma {:induction false} KeptSame(reference: Evidence, a: seq<Edge>, b: seq<Edge>, root: Root)
    requires Length(reference.tangent, root) > EPSILON && Rearranged(a, b)
    ensures |Kept(reference, a, root)| == |Kept(reference, b, root)|
    ensures forall f :: f in Kept(reference, a, root) <==> f in Kept(reference, b, root)
  {
    hide Project, Kept;
    RearrangedMembers(a, b);
    KeptLength(reference, a, b, root);
    forall f ensures f in Kept(reference, a, root) <==> f in Kept(reference, b, root) {
      KeptMembers(reference, a, root, f);
      KeptMembers(reference, b, root, f);
    }
  }

  lemma {:induction false} SortedIdsRearranged(a: seq<Edge>, b: seq<Edge>)
    requires Rearranged(a, b)
    ensures SortedIds(a) == SortedIds(b)
  {
    RearrangedMembers(a, b);
    assert Ids(a) == Ids(b);
  }

  lemma {:induction false} ResolveRearranged(reference: Edge, a: seq<Edge>, b: seq<Edge>, root: Root)
    requires Rearranged(a, b)
    ensures ResolveEdge(reference, a, root) == ResolveEdge(reference, b, root)
  {
    hide Matching, OfLineage, OfRole, Where, SortedIds, Edge.IsValid;
    RearrangedMembers(a, b);
    SortedIdsRearranged(a, b);
    SameWhere(a, b, OfLineage(reference));
    SameWhere(a, b, OfRole(reference));
    SameWhere(a, b, Matching(reference, root));
  }

  lemma {:induction false} SameWhere(a: seq<Edge>, b: seq<Edge>, keep: Edge -> bool)
    requires Rearranged(a, b)
    ensures |Where(a, keep)| == |Where(b, keep)| && SortedIds(Where(a, keep)) == SortedIds(Where(b, keep))
    ensures |Where(a, keep)| == 1 ==> Where(a, keep)[0] == Where(b, keep)[0]
  {
    hide Where, SortedIds;
    var c, d := Where(a, keep), Where(b, keep);
    WhereRearranged(a, b, keep);
    SortedIdsRearranged(c, d);
    RearrangedMembers(c, d);
    if |c| == 1 { assert c[0] in d; }
  }

  /** The whole edge was not found, and the sweep is asked about the fragments. */
  predicate SweepReached(reference: Edge, candidates: seq<Edge>, root: Root) {
    && ResolveEdge(reference, candidates, root).Incompatible?
    && reference.IsValid() && reference.provenance.edgeId == reference.semanticId
    && Length(reference.evidence.tangent, root) > EPSILON
  }

  /** The intervals of the candidates of the edge's lineage and role. */
  function LineageKept(reference: Edge, candidates: seq<Edge>, root: Root): seq<Interval>
    requires Length(reference.evidence.tangent, root) > EPSILON
  {
    Kept(reference.evidence, Where(candidates, OfRole(reference)), root)
  }

  ghost predicate SplitTie(reference: Edge, candidates: seq<Edge>, root: Root) {
    && SweepReached(reference, candidates, root)
    && Tie(LineageKept(reference, candidates, root), reference.evidence.length / 2.0)
  }

  lemma {:induction false} LineageKeptSame(reference: Edge, a: seq<Edge>, b: seq<Edge>, root: Root)
    requires Rearranged(a, b) && Length(reference.evidence.tangent, root) > EPSILON
    ensures |LineageKept(reference, a, root)| == |LineageKept(reference, b, root)|
    ensures forall f :: f in LineageKept(reference, a, root) <==> f in LineageKept(reference, b, root)
  {
    hide Kept;
    WhereRearranged(a, b, OfRole(reference));
    KeptSame(reference.evidence, Where(a, OfRole(reference)), Where(b, OfRole(reference)), root);
  }

  lemma {:induction false} KeptAtMost(reference: Evidence, s: seq<Edge>, root: Root)
    requires Length(reference.tangent, root) > EPSILON
    ensures |Kept(reference, s, root)| <= |s|
  {
    if s != [] { KeptAtMost(reference, s[1..], root); }
  }

  /** Where the sweep is reached it decides between a split and nothing found. */
  lemma {:induction false} SweepDecides(reference: Edge, candidates: seq<Edge>, root: Root)
    requires SweepReached(reference, candidates, root)
    ensures ResolveSplit(reference, candidates, root) ==
      if Accepted(LineageKept(reference, candidates, root), reference.evidence.length / 2.0)
      then Ambiguous(SortedIds(Where(candidates, OfRole(reference)))) else ResolveEdge(reference, candidates, root)
  {
    hide ResolveEdge, SortedIds, Where, Edge.IsValid, Kept;
    KeptAtMost(reference.evidence, Where(candidates, OfRole(reference)), root);
    if |LineageKept(reference, candidates, root)| < 2 {
      TooFew(LineageKept(reference, candidates, root), reference.evidence.length / 2.0);
    }
  }

  /** Without a tie the order in which the candidates are given does not matter. */
  lemma {:induction false} SameUnlessTie(reference: Edge, a: seq<Edge>, b: seq<Edge>, root: Root)
    requires Rearranged(a, b) && !SplitTie(reference, a, root)
    ensures ResolveSplit(reference, a, root) == ResolveSplit(reference, b, root)
  {
    hide ResolveEdge, SortedIds, Edge.IsValid, Where, Kept, Accepted, Tie, LineageKept;
    ResolveRearranged(reference, a, b, root);
    SameWhere(a, b, OfRole(reference));
    if SweepReached(reference, a, root) {
      LineageKeptSame(reference, a, b, root);
      OrderNeverMatters(LineageKept(reference, a, root), LineageKept(reference, b, root), reference.evidence.length / 2.0);
      SweepDecides(reference, a, root);
      SweepDecides(reference, b, root);
    }
  }

  /** Giving the candidate behind one interval first puts the interval first. */
  lemma {:induction false} CandidateToFront(reference: Edge, a: seq<Edge>, root: Root, f: Interval)
    returns (b: seq<Edge>, rest: seq<Interval>)
    requires Length(reference.evidence.tangent, root) > EPSILON && f in LineageKept(reference, a, root)
    ensures Rearranged(a, b) && LineageKept(reference, b, root) == [f] + rest
  {
    hide Project;
    var lineage := Where(a, OfRole(reference));
    KeptMembers(reference.evidence, lineage, root, f);
    var e :| e in lineage && Project(reference.evidence, e.evidence, root) == Some(f);
    var i :| 0 <= i < |a| && a[i] == e;
    b := [e] + Drop(a, i);
    DropTakesOne(a, i);
    assert b[1..] == Drop(a, i);
    var others := Where(Drop(a, i), OfRole(reference));
    assert Where(b, OfRole(reference)) == [e] + others;
    assert ([e] + others)[1..] == others;
    rest := Kept(reference.evidence, others, root);
  }

  /**
   * The order in which the candidates are given matters exactly when the sweep is reached and, among the fragments
   * that start first, one ends more than the tolerance before its start and another does not, nothing else missing.
   */
  lemma {:induction false} CandidateOrderMattersIff(reference: Edge, a: seq<Edge>, root: Root)
    ensures (exists b :: Rearranged(a, b) && ResolveSplit(reference, b, root) != ResolveSplit(reference, a, root))
      <==> SplitTie(reference, a, root)
  {
    hide ResolveSplit, ResolveEdge, Edge.IsValid, LineageKept, Reconstructs, StartsFirst, ReachesStart, Accepted, Rearranged;
    if !SplitTie(reference, a, root) {
      forall b | Rearranged(a, b) ensures ResolveSplit(reference, b, root) == ResolveSplit(reference, a, root) {
        SameUnlessTie(reference, a, b, root);
      }
    } else {
      var kept, half := LineageKept(reference, a, root), reference.evidence.length / 2.0;
      var f, g :| StartsTogether(kept, f, g) && ReachesStart(f) && !ReachesStart(g);
      var x := if Accepted(kept, half) then g else f;
      var b, rest := CandidateToFront(reference, a, root, x);
      LineageKeptSame(reference, a, b, root);
      FrontDecides(kept, x, rest, half);
      ResolveRearranged(reference, a, b, root);
      SweepDecides(reference, a, root);
      SweepDecides(reference, b, root);
    }
  }

  /** In particular it never matters when no candidate that takes part has a negative length. */
  lemma {:induction false} CandidateOrderNeverMatters(reference: Edge, a: seq<Edge>, b: seq<Edge>, root: Root)
    requires Rearranged(a, b) && NoNegativeLength(Where(a, OfRole(reference)))
    ensures ResolveSplit(reference, a, root) == ResolveSplit(reference, b, root)
  {
    hide ResolveSplit, ResolveEdge, Edge.IsValid, Where, Tie, Rearranged;
    if Length(reference.evidence.tangent, root) > EPSILON {
      KeptForward(reference.evidence, Where(a, OfRole(reference)), root);
      ForwardHasNoTie(LineageKept(reference, a, root), reference.evidence.length / 2.0);
    }
    SameUnlessTie(reference, a, b, root);
  }

  // ---------- An order that matters ----------

  const SPLIT_PROVENANCE := Provenance("feature", "revision", "edge")

  /** An edge of length 2 along the first axis. */
  const SPLIT_EDGE := Edge("edge", SPLIT_PROVENANCE, "role", Evidence(Vec(0.0, 0.0, 0.0), Vec(1.0, 0.0, 0.0), 2.0))

  /** The whole edge again, and a fragment of length -1 that starts where it starts. */
  const WHOLE := SPLIT_EDGE.(semanticId := "whole")

  const BACKWARDS :=
    Edge("backwards", SPLIT_PROVENANCE, "role", Evidence(Vec(-1.5, 0.0, 0.0), Vec(1.0, 0.0, 0.0), -1.0))

  const AXIS := Vec(1.0, 0.0, 0.0)

  lemma {:induction false} AxisArithmetic(m: real)
    ensures Dot(AXIS, AXIS) == 1.0 && Over(AXIS, 1.0) == AXIS
    ensures var offset := Minus(Vec(m, 0.0, 0.0), Vec(0.0, 0.0, 0.0));
      Dot(offset, AXIS) == m && Minus(offset, Times(m, AXIS)) == Vec(0.0, 0.0, 0.0)
    ensures Dot(Vec(0.0, 0.0, 0.0), Vec(0.0, 0.0, 0.0)) == 0.0
  {
  }

  lemma {:induction false} OnAxis(m: real, length: real, root: Root)
    requires root(0.0) == 0.0 && root(1.0) == 1.0
    ensures Length(AXIS, root) == 1.0
    ensures Project(SPLIT_EDGE.evidence, Evidence(Vec(m, 0.0, 0.0), AXIS, length), root)
      == Some(Interval(m - length / 2.0, m + length / 2.0))
  {
    AxisArithmetic(m);
    hide Dot, Over, Minus, Times;
    assert Length(Vec(0.0, 0.0, 0.0), root) == 0.0 && Abs(1.0) == 1.0;
  }

  lemma {:induction false} SplitIntervals(root: Root)
    requires root(0.0) == 0.0 && root(1.0) == 1.0
    ensures Length(SPLIT_EDGE.evidence.tangent, root) > EPSILON
    ensures Project(SPLIT_EDGE.evidence, WHOLE.evidence, root) == Some(Interval(-1.0, 1.0))
    ensures Project(SPLIT_EDGE.evidence, BACKWARDS.evidence, root) == Some(Interval(-1.0, -2.0))
  {
    hide Project, Length;
    OnAxis(0.0, 2.0, root);
    OnAxis(-1.5, -1.0, root);
  }

  /** With one negative length two orders of the same two candidates give a split and nothing found. */
  lemma {:induction false} OrderMattersForNegativeLengths(root: Root)
    requires root(0.0) == 0.0 && root(1.0) == 1.0
    ensures SPLIT_EDGE.IsValid()
    ensures ResolveSplit(SPLIT_EDGE, [WHOLE, BACKWARDS], root) == Ambiguous(SortedIds([WHOLE, BACKWARDS]))
    ensures ResolveSplit(SPLIT_EDGE, [BACKWARDS, WHOLE], root) == Incompatible(SortedIds([BACKWARDS, WHOLE]))
  {
    hide Project, SortedIds, Accepted;
    SplitIntervals(root);
    assert BACKWARDS in [WHOLE, BACKWARDS] && BACKWARDS in [BACKWARDS, WHOLE] && !BACKWARDS.IsValid();
    TwoKept(WHOLE, BACKWARDS, root);
    TwoKept(BACKWARDS, WHOLE, root);
    TwoIntervals();
    SweepDecides(SPLIT_EDGE, [WHOLE, BACKWARDS], root);
    SweepDecides(SPLIT_EDGE, [BACKWARDS, WHOLE], root);
  }

  lemma {:induction false} TwoKept(c: Edge, d: Edge, root: Root)
    requires OfRole(SPLIT_EDGE)(c) && OfRole(SPLIT_EDGE)(d) && Length(SPLIT_EDGE.evidence.tangent, root) > EPSILON
    requires Project(SPLIT_EDGE.evidence, c.evidence, root).Some? && Project(SPLIT_EDGE.evidence, d.evidence, root).Some?
    ensures Where([c, d], OfRole(SPLIT_EDGE)) == [c, d]
    ensures LineageKept(SPLIT_EDGE, [c, d], root) ==
      [Project(SPLIT_EDGE.evidence, c.evidence, root).value, Project(SPLIT_EDGE.evidence, d.evidence, root).value]
  {
    hide Project, OfRole;
    var keep := OfRole(SPLIT_EDGE);
    assert [c, d][1..] == [d] && [d][1..] == [];
    assert Where([d], keep) == [d];
    assert Kept(SPLIT_EDGE.evidence, [d], root) == [Project(SPLIT_EDGE.evidence, d.evidence, root).value];
  }

  lemma {:induction false} TwoIntervals()
    ensures Accepted([Interval(-1.0, 1.0), Interval(-1.0, -2.0)], 1.0)
    ensures !Accepted([Interval(-1.0, -2.0), Interval(-1.0, 1.0)], 1.0)
  {
    var long, back := Interval(-1.0, 1.0), Interval(-1.0, -2.0);
    var a, b := [long, back], [back, long];
    assert long in a && back in a && a == [long] + [back] && b == [back] + [long];
    FrontDecides(a, long, [back], 1.0);
    FrontDecides(a, back, [long], 1.0);
  }

  // ---------- What the outcomes mean ----------

  /** An edge is resolved exactly when everything is well formed and one candidate, given once, matches it. */
  lemma {:induction false} ResolvedIff(reference: Edge, candidates: seq<Edge>, root: Root, id: string)
    ensures ResolveSplit(reference, candidates, root) == Resolved(id) <==>
      && reference.IsValid() && (forall c :: c in candidates ==> c.IsValid())
      && var matches := Where(candidates, Matching(reference, root)); |matches| == 1 && matches[0].semanticId == id
  {
    hide GeometricMatch, SortedIds, Edge.IsValid, FragmentsReconstruct;
    var matches := Where(candidates, Matching(reference, root));
    if |matches| == 1 {
      assert matches[0] in Where(candidates, OfRole(reference)) && matches[0] in Where(candidates, OfLineage(reference));
    }
  }

  /** A split is recognised only where fragments of the edge's lineage and role cover it within the tolerance. */
  lemma {:induction false} SplitCoversEdge(reference: Edge, candidates: seq<Edge>, root: Root, x: real)
    requires ResolveEdge(reference, candidates, root).Incompatible? && ResolveSplit(reference, candidates, root).Ambiguous?
    requires -reference.evidence.length / 2.0 <= x <= reference.evidence.length / 2.0
    ensures Length(reference.evidence.tangent, root) > EPSILON
    ensures exists c, f :: (c in candidates && OfRole(reference)(c)
      && Project(reference.evidence, c.evidence, root) == Some(f) && Near(f, x))
  {
    hide Project, ResolveEdge, Accepted, Near;
    var lineage := Where(candidates, OfRole(reference));
    var kept := Kept(reference.evidence, lineage, root);
    AcceptedCovers(kept, reference.evidence.length / 2.0, x);
    var f :| f in kept && Near(f, x);
    KeptMembers(reference.evidence, lineage, root, f);
    var c :| c in lineage && Project(reference.evidence, c.evidence, root) == Some(f);
    assert c in candidates && OfRole(reference)(c);
  }
}
