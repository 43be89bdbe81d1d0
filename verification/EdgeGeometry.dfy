/** What reattachment decides, in coordinates: squares in place of roots, and positions of candidates in place of lists. */
module EdgeGeometry {
  import opened Wrappers
  import opened Ordering
  import opened Text
  import opened Sweep
  import opened EdgeReferences

  /** The program's square root, over the reals. */
  ghost predicate SquareRoot(root: Root) {
    forall x :: x >= 0.0 ==> root(x) >= 0.0 && root(x) * root(x) == x
  }

  function Norm2(v: Vec): real { v.x * v.x + v.y * v.y + v.z * v.z }

  function Inner(a: Vec, b: Vec): real { a.x * b.x + a.y * b.y + a.z * b.z }

  function Offset(reference: Evidence, candidate: Evidence): Vec {
    Vec(candidate.midpoint.x - reference.midpoint.x, candidate.midpoint.y - reference.midpoint.y,
        candidate.midpoint.z - reference.midpoint.z)
  }

  /** The cosine of the angle between the tangents is at least 1 - 0.000001 in size, squared to avoid roots. */
  ghost predicate Parallel(reference: Evidence, candidate: Evidence) {
    Inner(reference.tangent, candidate.tangent) * Inner(reference.tangent, candidate.tangent)
      >= 0.999999 * 0.999999 * (Norm2(reference.tangent) * Norm2(candidate.tangent))
  }

  /** The midpoints, the lengths and the directions agree within the tolerances. */
  ghost predicate SamePlace(reference: Evidence, candidate: Evidence) {
    && Norm2(Offset(reference, candidate)) <= 0.000001 * 0.000001
    && -0.000001 <= reference.length - candidate.length <= 0.000001
    && Parallel(reference, candidate)
  }

  // ---------- Arithmetic ----------

  function Mul(x: real, y: real): real { x * y }

  lemma {:induction false} MulMonotone(a: real, b: real, c: real)
    requires a >= 0.0 && b <= c
    ensures Mul(a, b) <= Mul(a, c)
  {
    assert Mul(a, c) - Mul(a, b) == a * (c - b);
  }

  lemma {:induction false} MulPositive(a: real, b: real)
    requires a > 0.0 && b > 0.0
    ensures Mul(a, b) > 0.0
  {
  }

  lemma {:induction false} MulSwaps(a: real, b: real)
    ensures Mul(a, b) == Mul(b, a)
  {
  }

  /** Squares compare as their nonnegative roots do. */
  lemma {:induction false} SquaresCompare(a: real, b: real)
    requires a >= 0.0 && b >= 0.0
    ensures a <= b <==> Mul(a, a) <= Mul(b, b)
  {
    if a <= b {
      MulMonotone(a, a, b);
      MulMonotone(b, a, b);
      MulSwaps(a, b);
    } else {
      StrictSquares(b, a);
    }
  }

  lemma {:induction false} StrictSquares(a: real, b: real)
    requires 0.0 <= a < b
    ensures Mul(a, a) < Mul(b, b)
  {
    MulPositive(b - a, b + a);
    assert Mul(b, b) - Mul(a, a) == Mul(b - a, b + a);
  }

  lemma {:induction false} RootWithin(root: Root, x: real, t: real)
    requires SquareRoot(root) && x >= 0.0 && t >= 0.0
    ensures root(x) <= t <==> x <= t * t
  {
    SquaresCompare(root(x), t);
  }

  lemma {:induction false} SumOfSquares(v: Vec)
    ensures Norm2(v) >= 0.0 && Norm2(v) == Dot(v, v)
  {
    SquareNotNegative(v.x);
    SquareNotNegative(v.y);
    SquareNotNegative(v.z);
  }

  lemma {:induction false} SquareNotNegative(x: real)
    ensures x * x >= 0.0
  {
    if x < 0.0 { assert x * x == (-x) * (-x); }
  }

  /** Comparing the size of a quotient with a bound, without the division and without the sign. */
  lemma {:induction false} QuotientCompares(d: real, s: real, k: real)
    requires s > 0.0 && k >= 0.0
    ensures Abs(d / s) >= k <==> Mul(d, d) >= Mul(Mul(k, k), Mul(s, s))
  {
    var q := d / s;
    assert d == Mul(q, s);
    assert Mul(Abs(q), s) == Abs(d) by { AbsTimes(q, s); }
    SquaresCompare(Mul(k, s), Abs(d)) by { MulNotNegative(k, s); }
    assert Mul(Abs(d), Abs(d)) == Mul(d, d);
    assert Mul(Mul(k, s), Mul(k, s)) == Mul(Mul(k, k), Mul(s, s)) by { SquareOfProduct(k, s); }
    OrderScales(k, Abs(q), s);
  }

  lemma {:induction false} MulNotNegative(a: real, b: real)
    requires a >= 0.0 && b >= 0.0
    ensures Mul(a, b) >= 0.0
  {
  }

  lemma {:induction false} AbsTimes(q: real, s: real)
    requires s > 0.0
    ensures Mul(Abs(q), s) == Abs(Mul(q, s))
  {
    if q < 0.0 {
      assert Mul(-q, s) == -Mul(q, s);
      MulPositive(-q, s);
    } else {
      MulNotNegative(q, s);
    }
  }

  lemma {:induction false} SquareOfProduct(k: real, s: real)
    ensures Mul(Mul(k, s), Mul(k, s)) == Mul(Mul(k, k), Mul(s, s))
  {
    assert (k * s) * (k * s) == (k * k) * (s * s);
  }

  lemma {:induction false} OrderScales(k: real, q: real, s: real)
    requires s > 0.0
    ensures k <= q <==> Mul(k, s) <= Mul(q, s)
  {
    if k <= q {
      MulMonotone(s, k, q);
      MulSwaps(s, k);
      MulSwaps(s, q);
    } else {
      MulPositive(k - q, s);
      assert Mul(k - q, s) == Mul(k, s) - Mul(q, s);
    }
  }

  // ---------- Whole edges ----------

  lemma {:induction false} RootPositive(root: Root, v: Vec)
    requires SquareRoot(root) && Norm2(v) > 0.0
    ensures Length(v, root) > 0.0 && Mul(Length(v, root), Length(v, root)) == Norm2(v)
  {
    SumOfSquares(v);
  }

  ghost predicate TangentsAgree(reference: Evidence, candidate: Evidence, root: Root) {
    var s := Scale(reference, candidate, root);
    s != 0.0 && 1.0 - Abs(Dot(reference.tangent, candidate.tangent) / s) <= EDGE_TANGENT_TOLERANCE
  }

  lemma {:induction false} ParallelIff(root: Root, reference: Evidence, candidate: Evidence)
    requires SquareRoot(root) && Norm2(reference.tangent) > 0.0 && Norm2(candidate.tangent) > 0.0
    ensures TangentsAgree(reference, candidate, root) <==> Parallel(reference, candidate)
  {
    var a, b := Length(reference.tangent, root), Length(candidate.tangent, root);
    RootPositive(root, reference.tangent);
    RootPositive(root, candidate.tangent);
    MulPositive(a, b);
    var d, s := Dot(reference.tangent, candidate.tangent), Scale(reference, candidate, root);
    assert s == Mul(a, b);
    QuotientCompares(d, s, 0.999999);
    SquareOfProduct(a, b);
    assert Mul(s, s) == Mul(Norm2(reference.tangent), Norm2(candidate.tangent));
    ParallelSays(reference, candidate, d);
    TangentsSay(reference, candidate, root, d, s);
    hide TangentsAgree, Parallel, Mul, Norm2, Dot, Abs;
  }

  lemma {:induction false} ParallelSays(reference: Evidence, candidate: Evidence, d: real)
    requires d == Dot(reference.tangent, candidate.tangent)
    ensures Parallel(reference, candidate) <==>
      Mul(d, d) >= Mul(Mul(0.999999, 0.999999), Mul(Norm2(reference.tangent), Norm2(candidate.tangent)))
  {
    assert d == Inner(reference.tangent, candidate.tangent);
    hide Inner, Norm2, Dot;
  }

  lemma {:induction false} TangentsSay(reference: Evidence, candidate: Evidence, root: Root, d: real, s: real)
    requires d == Dot(reference.tangent, candidate.tangent)
    requires s == Scale(reference, candidate, root) && s > 0.0
    ensures TangentsAgree(reference, candidate, root) <==> Abs(d / s) >= 0.999999
  {
    hide Dot, Length, Scale;
  }

  lemma {:induction false} MatchParts(root: Root, reference: Evidence, candidate: Evidence)
    ensures GeometricMatch(reference, candidate, root) <==>
      && Length(Minus(reference.midpoint, candidate.midpoint), root) <= EDGE_MIDPOINT_TOLERANCE
      && Abs(reference.length - candidate.length) <= EDGE_LENGTH_TOLERANCE
      && TangentsAgree(reference, candidate, root)
  {
    hide Length, Minus, Abs, Dot, Scale;
  }

  /** Two well-formed edges match exactly when they are in the same place. */
  lemma {:induction false} MatchIff(root: Root, reference: Evidence, candidate: Evidence)
    requires SquareRoot(root) && Norm2(reference.tangent) > 0.0 && Norm2(candidate.tangent) > 0.0
    ensures GeometricMatch(reference, candidate, root) <==> SamePlace(reference, candidate)
  {
    var offset, back := Offset(reference, candidate), Minus(reference.midpoint, candidate.midpoint);
    MatchParts(root, reference, candidate);
    ParallelIff(root, reference, candidate);
    SumOfSquares(back);
    NormTurns(reference.midpoint, candidate.midpoint);
    RootWithin(root, Norm2(back), 0.000001);
    assert Length(back, root) == root(Norm2(back));
    hide Norm2, Parallel, SquareRoot, Dot, GeometricMatch, TangentsAgree;
  }

  lemma {:induction false} NormTurns(a: Vec, b: Vec)
    ensures Norm2(Vec(a.x - b.x, a.y - b.y, a.z - b.z)) == Norm2(Vec(b.x - a.x, b.y - a.y, b.z - a.z))
  {
    SquareTurns(a.x, b.x);
    SquareTurns(a.y, b.y);
    SquareTurns(a.z, b.z);
  }

  lemma {:induction false} SquareTurns(a: real, b: real)
    ensures (a - b) * (a - b) == (b - a) * (b - a)
  {
  }

  // ---------- Which candidate ----------

  ghost predicate WellFormed(e: Edge) {
    && e.semanticId != "" && e.role != ""
    && e.provenance.featureId != "" && e.provenance.revisionId != "" && e.provenance.edgeId != ""
    && e.evidence.length > 0.0 && Norm2(e.evidence.tangent) > 1.0 / 4503599627370496.0
  }

  ghost predicate AllWellFormed(reference: Edge, candidates: seq<Edge>) {
    WellFormed(reference) && forall i :: 0 <= i < |candidates| ==> WellFormed(candidates[i])
  }

  ghost predicate SharesLineage(reference: Edge, candidates: seq<Edge>, i: nat) {
    i < |candidates| && candidates[i].provenance == reference.provenance
  }

  /** The candidate at this position has the lineage and role of the reference and lies in its place. */
  ghost predicate MatchesAt(reference: Edge, candidates: seq<Edge>, i: nat) {
    SharesLineage(reference, candidates, i) && candidates[i].role == reference.role
    && SamePlace(reference.evidence, candidates[i].evidence)
  }

  lemma {:induction false} WellFormedIff(e: Edge)
    ensures e.IsValid() <==> WellFormed(e)
  {
  }

  lemma {:induction false} WhereAppend(a: seq<Edge>, b: seq<Edge>, keep: Edge -> bool)
    ensures Where(a + b, keep) == Where(a, keep) + Where(b, keep)
  {
    if a == [] {
      assert a + b == b;
    } else {
      WhereHead(a[0], a[1..], keep);
      WhereHead(a[0], a[1..] + b, keep);
      assert a == [a[0]] + a[1..] && a + b == [a[0]] + (a[1..] + b);
      hide Where, IfKept;
      WhereAppend(a[1..], b, keep);
    }
  }

  function IfKept(e: Edge, keep: Edge -> bool): seq<Edge> { if keep(e) then [e] else [] }

  lemma {:induction false} WhereHead(e: Edge, rest: seq<Edge>, keep: Edge -> bool)
    ensures Where([e] + rest, keep) == IfKept(e, keep) + Where(rest, keep)
  {
    assert ([e] + rest)[1..] == rest;
  }

  lemma {:induction false} WhereAt(s: seq<Edge>, keep: Edge -> bool, i: nat)
    requires i < |s| && keep(s[i])
    ensures Where(s, keep) == Where(s[..i], keep) + [s[i]] + Where(s[i + 1..], keep)
  {
    assert s == s[..i] + ([s[i]] + s[i + 1..]);
    WhereAppend(s[..i], [s[i]] + s[i + 1..], keep);
    WhereAppend([s[i]], s[i + 1..], keep);
    assert Where([s[i]], keep) == [s[i]];
  }

  lemma {:induction false} WhereNone(s: seq<Edge>, keep: Edge -> bool)
    ensures Where(s, keep) == [] <==> forall i :: 0 <= i < |s| ==> !keep(s[i])
  {
    hide Where;
    var kept := Where(s, keep);
    if i :| 0 <= i < |s| && keep(s[i]) { assert s[i] in kept; }
    if kept != [] {
      assert kept[0] in kept;
      var i :| 0 <= i < |s| && s[i] == kept[0];
    }
  }

  ghost predicate OnlyAt(s: seq<Edge>, keep: Edge -> bool, i: nat) {
    i < |s| && keep(s[i]) && forall j :: 0 <= j < |s| && keep(s[j]) ==> j == i
  }

  lemma {:induction false} WhereOne(s: seq<Edge>, keep: Edge -> bool, i: nat)
    requires i < |s| && keep(s[i])
    ensures |Where(s, keep)| == 1 <==> OnlyAt(s, keep, i)
    ensures |Where(s, keep)| == 1 ==> Where(s, keep) == [s[i]]
  {
    hide Where;
    WhereAt(s, keep, i);
    WhereNone(s[..i], keep);
    WhereNone(s[i + 1..], keep);
    forall j | 0 <= j < |s| && j != i ensures keep(s[j]) <==> if j < i then keep(s[..i][j]) else keep(s[i + 1..][j - i - 1]) {}
    if OnlyAt(s, keep, i) {
      forall j | 0 <= j < |s[..i]| ensures !keep(s[..i][j]) {}
      var tail := s[i + 1..];
      forall j | 0 <= j < |tail| ensures !keep(tail[j]) { assert tail[j] == s[i + 1 + j]; }
    }
  }

  /** A filtered list has one element exactly when one position is kept, and then it is that one. */
  lemma {:induction false} WhereOneIff(s: seq<Edge>, keep: Edge -> bool)
    ensures |Where(s, keep)| == 1 <==> exists i: nat :: OnlyAt(s, keep, i)
    ensures forall i: nat :: OnlyAt(s, keep, i) ==> Where(s, keep) == [s[i]]
  {
    hide Where;
    WhereNone(s, keep);
    if i: nat :| i < |s| && keep(s[i]) { WhereOne(s, keep, i); }
    forall i: nat | OnlyAt(s, keep, i) ensures Where(s, keep) == [s[i]] { WhereOne(s, keep, i); }
  }

  lemma {:induction false} MatchingIsMatches(reference: Edge, candidates: seq<Edge>, root: Root, i: nat)
    requires SquareRoot(root) && AllWellFormed(reference, candidates) && i < |candidates|
    ensures Matching(reference, root)(candidates[i]) <==> MatchesAt(reference, candidates, i)
  {
    var c := candidates[i];
    assert WellFormed(c);
    assert Norm2(reference.evidence.tangent) > 0.0 && Norm2(c.evidence.tangent) > 0.0;
    MatchIff(root, reference.evidence, c.evidence);
    hide GeometricMatch, SamePlace, SquareRoot, WellFormed;
    assert OfRole(reference)(c) <==> c.provenance == reference.provenance && c.role == reference.role;
    assert Matching(reference, root)(c) <==>
      c.provenance == reference.provenance && c.role == reference.role && GeometricMatch(reference.evidence, c.evidence, root);
  }

  lemma {:induction false} EveryMatch(reference: Edge, candidates: seq<Edge>, root: Root)
    requires SquareRoot(root) && AllWellFormed(reference, candidates)
    ensures forall i: nat :: i < |candidates| ==> (Matching(reference, root)(candidates[i]) <==> MatchesAt(reference, candidates, i))
  {
    hide Matching, MatchesAt, AllWellFormed, SquareRoot;
    forall i: nat | i < |candidates| ensures Matching(reference, root)(candidates[i]) <==> MatchesAt(reference, candidates, i) {
      MatchingIsMatches(reference, candidates, root, i);
    }
  }

  /** One position, and no other, holds a match. */
  ghost predicate OnlyMatch(reference: Edge, candidates: seq<Edge>, i: nat) {
    MatchesAt(reference, candidates, i) && forall j: nat :: MatchesAt(reference, candidates, j) ==> j == i
  }

  lemma {:induction false} OnlyMatchIff(reference: Edge, candidates: seq<Edge>, root: Root, i: nat)
    requires SquareRoot(root) && AllWellFormed(reference, candidates)
    ensures OnlyMatch(reference, candidates, i) <==> OnlyAt(candidates, Matching(reference, root), i)
  {
    hide Matching, AllWellFormed, SquareRoot, SamePlace;
    EveryMatch(reference, candidates, root);
  }

  lemma {:induction false} ValidIffWellFormed(reference: Edge, candidates: seq<Edge>)
    ensures (reference.IsValid() && forall c :: c in candidates ==> c.IsValid()) <==> AllWellFormed(reference, candidates)
  {
    WellFormedIff(reference);
    forall i | 0 <= i < |candidates| ensures candidates[i].IsValid() <==> WellFormed(candidates[i]) { WellFormedIff(candidates[i]); }
    hide WellFormed, Edge.IsValid;
  }

  /**
   * An edge is reattached to an id exactly when all is well formed and exactly one position holds a candidate of its
   * lineage and role in its place, and that candidate has the id.
   */
  lemma {:induction false} ResolvedExactly(reference: Edge, candidates: seq<Edge>, root: Root, id: string)
    requires SquareRoot(root)
    ensures ResolveSplit(reference, candidates, root) == Resolved(id) <==>
      AllWellFormed(reference, candidates)
      && exists i: nat :: OnlyMatch(reference, candidates, i) && candidates[i].semanticId == id
  {
    hide ResolveSplit, Matching, AllWellFormed, OnlyMatch, OnlyAt, SquareRoot, Where, Edge.IsValid;
    var keep := Matching(reference, root);
    ResolvedIff(reference, candidates, root, id);
    ValidIffWellFormed(reference, candidates);
    WhereOneIff(candidates, keep);
    if AllWellFormed(reference, candidates) {
      forall i: nat ensures OnlyMatch(reference, candidates, i) <==> OnlyAt(candidates, keep, i) {
        OnlyMatchIff(reference, candidates, root, i);
      }
      if |Where(candidates, keep)| == 1 {
        var i: nat :| OnlyAt(candidates, keep, i);
        assert OnlyMatch(reference, candidates, i);
      }
    }
  }

  // ---------- The other outcomes ----------

  ghost function Matches(reference: Edge, candidates: seq<Edge>): nat -> bool {
    (i: nat) => MatchesAt(reference, candidates, i)
  }

  ghost function OfSameLineage(reference: Edge, candidates: seq<Edge>): nat -> bool {
    (i: nat) => SharesLineage(reference, candidates, i)
  }

  ghost function Everywhere(): nat -> bool { (i: nat) => true }

  ghost predicate HasId(edges: seq<Edge>, kept: nat -> bool, id: string) {
    exists i: nat :: i < |edges| && kept(i) && edges[i].semanticId == id
  }

  /** The ids of the edges kept, ascending and each once. */
  ghost predicate ListsIds(ids: seq<string>, edges: seq<Edge>, kept: nat -> bool) {
    && (forall i, j :: 0 <= i < j < |ids| ==> ids[i] != ids[j] && TextLe(ids[i], ids[j]))
    && (forall x :: x in ids <==> HasId(edges, kept, x))
  }

  lemma {:induction false} SortedIdsList(edges: seq<Edge>, keep: Edge -> bool, kept: nat -> bool)
    requires forall i: nat :: i < |edges| ==> (keep(edges[i]) <==> kept(i))
    ensures ListsIds(SortedIds(Where(edges, keep)), edges, kept)
  {
    hide Where;
    var some := Where(edges, keep);
    var ids := SortedIds(some);
    TextOrder();
    forall x ensures x in ids <==> HasId(edges, kept, x) {
      assert x in ids <==> x in Ids(some);
      if x in Ids(some) {
        var e :| e in some && e.semanticId == x;
        var i: nat :| i < |edges| && edges[i] == e;
        assert kept(i);
      }
      if HasId(edges, kept, x) {
        var i: nat :| i < |edges| && kept(i) && edges[i].semanticId == x;
        assert edges[i] in some;
      }
    }
  }

  lemma {:induction false} AllIdsList(edges: seq<Edge>)
    ensures ListsIds(SortedIds(edges), edges, Everywhere())
  {
    var all := (e: Edge) => true;
    WhereAll(edges, all);
    SortedIdsList(edges, all, Everywhere());
  }

  lemma {:induction false} WhereAll(edges: seq<Edge>, keep: Edge -> bool)
    requires forall e :: keep(e)
    ensures Where(edges, keep) == edges
  {
    if edges != [] {
      WhereAll(edges[1..], keep);
      assert edges == [edges[0]] + edges[1..];
    }
  }

  lemma {:induction false} LineageList(reference: Edge, candidates: seq<Edge>)
    ensures ListsIds(SortedIds(Where(candidates, OfLineage(reference))), candidates, OfSameLineage(reference, candidates))
    ensures Where(candidates, OfLineage(reference)) == [] <==> forall i: nat :: !SharesLineage(reference, candidates, i)
  {
    hide Where, ListsIds, SortedIds;
    WhereNone(candidates, OfLineage(reference));
    forall i: nat | i < |candidates| ensures OfLineage(reference)(candidates[i]) <==> OfSameLineage(reference, candidates)(i) {}
    SortedIdsList(candidates, OfLineage(reference), OfSameLineage(reference, candidates));
  }

  lemma {:induction false} MatchList(reference: Edge, candidates: seq<Edge>, root: Root)
    requires SquareRoot(root) && AllWellFormed(reference, candidates)
    ensures ListsIds(SortedIds(Where(candidates, Matching(reference, root))), candidates, Matches(reference, candidates))
    ensures Where(candidates, Matching(reference, root)) == [] <==> forall i: nat :: !MatchesAt(reference, candidates, i)
    ensures |Where(candidates, Matching(reference, root))| == 1 <==> exists i: nat :: OnlyMatch(reference, candidates, i)
  {
    hide Where, ListsIds, SortedIds, Matching, AllWellFormed, SquareRoot, OnlyMatch, OnlyAt, SamePlace;
    var keep := Matching(reference, root);
    EveryMatch(reference, candidates, root);
    WhereNone(candidates, keep);
    WhereOneIff(candidates, keep);
    forall i: nat ensures OnlyMatch(reference, candidates, i) <==> OnlyAt(candidates, keep, i) {
      OnlyMatchIff(reference, candidates, root, i);
    }
    forall i: nat | i < |candidates| ensures keep(candidates[i]) <==> Matches(reference, candidates)(i) {}
    SortedIdsList(candidates, keep, Matches(reference, candidates));
  }

  /** More than one position holds a match. */
  ghost predicate SeveralMatch(reference: Edge, candidates: seq<Edge>) {
    exists i: nat, j: nat :: i < j && MatchesAt(reference, candidates, i) && MatchesAt(reference, candidates, j)
  }

  lemma {:induction false} NoneOneOrSeveral(reference: Edge, candidates: seq<Edge>)
    ensures SeveralMatch(reference, candidates) <==>
      !(forall i: nat :: !MatchesAt(reference, candidates, i)) && !(exists i: nat :: OnlyMatch(reference, candidates, i))
  {
    hide MatchesAt;
    if i: nat :| MatchesAt(reference, candidates, i) {
      if !OnlyMatch(reference, candidates, i) {
        var j: nat :| MatchesAt(reference, candidates, j) && j != i;
        assert SeveralMatch(reference, candidates);
      }
    }
  }

  lemma {:induction false} RoleOfMatch(reference: Edge, candidates: seq<Edge>, root: Root)
    ensures Where(candidates, OfRole(reference)) == [] ==> Where(candidates, Matching(reference, root)) == []
    ensures Where(candidates, OfLineage(reference)) == [] ==> Where(candidates, OfRole(reference)) == []
  {
    hide Where, GeometricMatch;
    WhereNone(candidates, OfRole(reference));
    WhereNone(candidates, OfLineage(reference));
    WhereNone(candidates, Matching(reference, root));
  }

  /** When nothing is wrong with the edges: lost without a candidate of the lineage, ambiguous with several matches. */
  lemma {:induction false} WellFormedOutcomes(reference: Edge, candidates: seq<Edge>, root: Root)
    requires SquareRoot(root) && AllWellFormed(reference, candidates)
    ensures var r := ResolveEdge(reference, candidates, root);
      && (r == Lost <==> forall i: nat :: !SharesLineage(reference, candidates, i))
      && (r.Ambiguous? <==> SeveralMatch(reference, candidates))
      && (r.Ambiguous? ==> ListsIds(r.candidateIds, candidates, Matches(reference, candidates)))
      && (r.Incompatible? ==> ListsIds(r.candidateIds, candidates, OfSameLineage(reference, candidates)))
  {
    hide SquareRoot, Where, SortedIds, ListsIds, Edge.IsValid, Matching, AllWellFormed, MatchesAt, OnlyMatch, SeveralMatch, SharesLineage;
    ValidIffWellFormed(reference, candidates);
    LineageList(reference, candidates);
    MatchList(reference, candidates, root);
    NoneOneOrSeveral(reference, candidates);
    RoleOfMatch(reference, candidates, root);
  }

  /** Otherwise nothing is reattached: an ill-formed reference lists nothing, ill-formed candidates list them all. */
  lemma {:induction false} IllFormedOutcomes(reference: Edge, candidates: seq<Edge>, root: Root)
    requires !AllWellFormed(reference, candidates)
    ensures var r := ResolveEdge(reference, candidates, root);
      && r.Incompatible? && (!WellFormed(reference) ==> r.candidateIds == [])
      && (WellFormed(reference) ==> ListsIds(r.candidateIds, candidates, Everywhere()))
  {
    hide Where, SortedIds, ListsIds, Edge.IsValid, Matching;
    WellFormedIff(reference);
    ValidIffWellFormed(reference, candidates);
    AllIdsList(candidates);
    hide WellFormed;
  }
}
