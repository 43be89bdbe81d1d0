/** Triangles, interned vertices and the edge-use table of a mesh. */
module MeshModel {
  import opened Wrappers

  datatype Vec = Vec(x: real, y: real, z: real)

  function Sub(a: Vec, b: Vec): Vec { Vec(a.x - b.x, a.y - b.y, a.z - b.z) }

  function Minor(a: real, b: real, c: real, d: real): real { a * d - b * c }

  function Cross(a: Vec, b: Vec): Vec {
    Vec(Minor(a.y, a.z, b.y, b.z), Minor(a.z, a.x, b.z, b.x), Minor(a.x, a.y, b.x, b.y))
  }

  function Dot(a: Vec, b: Vec): real { a.x * b.x + a.y * b.y + a.z * b.z }

  /** Three corner positions as parsed. */
  datatype Raw = Raw(p: Vec, q: Vec, r: Vec)
  {
    function Corners(): set<Vec> { {p, q, r} }
  }

  /** A triangle with its corners' positions and vertex numbers. */
  datatype Tri = Tri(raw: Raw, i: nat, j: nat, k: nat)
  {
    predicate HasVertex(v: nat) { v == i || v == j || v == k }

    /** The triangle runs along its boundary from `u` to `v`. */
    predicate HasEdge(u: nat, v: nat) { (u == i && v == j) || (u == j && v == k) || (u == k && v == i) }

    function Facet(): set<nat> { {i, j, k} }

    predicate Proper() { i != j && j != k && k != i }
  }

  datatype Reason =
    | Degenerate | DuplicateFacet | OpenBoundary | NonManifold | InconsistentOrientation
    | NonPositiveVolume | MaterialBodyCount | CavityContainment

  function AreaSquared(t: Raw): real {
    var c := Cross(Sub(t.q, t.p), Sub(t.r, t.p));
    Dot(c, c)
  }

  predicate IsDegenerate(t: Raw) {
    t.p == t.q || t.q == t.r || t.r == t.p || AreaSquared(t) == 0.0
  }

  predicate SameFacet(a: Raw, b: Raw) {
    a.Corners() == b.Corners()
  }

  // ---------- Interning ----------

  /** The vertex list and the position-to-number map agree, and no position is listed twice. */
  ghost predicate Interned(vertices: seq<Vec>, ids: map<Vec, nat>) {
    && (forall v :: v in ids <==> v in vertices)
    && (forall v :: v in ids ==> ids[v] < |vertices| && vertices[ids[v]] == v)
    && (forall i, j :: 0 <= i < j < |vertices| ==> vertices[i] != vertices[j])
  }

  method Intern(vertices: seq<Vec>, ids: map<Vec, nat>, v: Vec) returns (vertices': seq<Vec>, ids': map<Vec, nat>, id: nat)
    requires Interned(vertices, ids)
    ensures Interned(vertices', ids') && vertices <= vertices'
    ensures id < |vertices'| && vertices'[id] == v
  {
    if v in ids {
      vertices', ids', id := vertices, ids, ids[v];
    } else {
      id := |vertices|;
      vertices', ids' := vertices + [v], ids[v := id];
    }
  }

  /** The triangle's numbers are those of its corner positions. */
  ghost predicate Placed(t: Tri, vertices: seq<Vec>) {
    && t.i < |vertices| && t.j < |vertices| && t.k < |vertices|
    && vertices[t.i] == t.raw.p && vertices[t.j] == t.raw.q && vertices[t.k] == t.raw.r
  }

  ghost predicate Distinct(vertices: seq<Vec>) {
    forall i, j :: 0 <= i < j < |vertices| ==> vertices[i] != vertices[j]
  }

  /** Every triangle is placed and proper, and no two have the same three vertices. */
  ghost predicate WellFormed(tris: seq<Tri>, vertices: seq<Vec>) {
    && Distinct(vertices)
    && (forall t :: 0 <= t < |tris| ==> Placed(tris[t], vertices) && tris[t].Proper())
    && (forall s, t :: 0 <= s < t < |tris| ==> tris[s].Facet() != tris[t].Facet())
  }

  lemma {:induction false} FacetsMatch(a: Tri, b: Tri, vertices: seq<Vec>)
    requires Distinct(vertices) && Placed(a, vertices) && Placed(b, vertices)
    ensures a.Facet() == b.Facet() <==> SameFacet(a.raw, b.raw)
  {
    var f, g := a.Facet(), b.Facet();
    var x, y := a.raw.Corners(), b.raw.Corners();
    if f == g {
      assert a.i in g && a.j in g && a.k in g && b.i in f && b.j in f && b.k in f;
      assert forall v :: v in x <==> v in y;
    } else if x == y {
      assert a.raw.p in y && a.raw.q in y && a.raw.r in y && b.raw.p in x && b.raw.q in x && b.raw.r in x;
      assert forall n :: n in f <==> n in g;
    }
  }

  lemma {:induction false} PlacedGrows(t: Tri, a: seq<Vec>, b: seq<Vec>)
    requires Placed(t, a) && a <= b
    ensures Placed(t, b)
  {
  }

  /** The first `n` parsed triangles are sound and name different facets. */
  ghost predicate NoFault(raws: seq<Raw>, n: nat)
    requires n <= |raws|
  {
    && (forall t :: 0 <= t < n ==> !IsDegenerate(raws[t]))
    && (forall s, t :: 0 <= s < t < n ==> !SameFacet(raws[s], raws[t]))
  }

  /** The parsed triangle `t` is the first fault, for the given reason. */
  ghost predicate FirstFault(raws: seq<Raw>, t: nat, reason: Reason)
    requires t < |raws|
  {
    && NoFault(raws, t)
    && match reason
       case Degenerate => IsDegenerate(raws[t])
       case DuplicateFacet => !IsDegenerate(raws[t]) && exists s :: 0 <= s < t && SameFacet(raws[s], raws[t])
       case _ => false
  }

  method NumberCorners(raw: Raw, vertices: seq<Vec>, ids: map<Vec, nat>)
    returns (vertices': seq<Vec>, ids': map<Vec, nat>, tri: Tri)
    requires Interned(vertices, ids)
    ensures Interned(vertices', ids') && Distinct(vertices') && vertices <= vertices'
    ensures tri.raw == raw && Placed(tri, vertices')
  {
    var i, j, k: nat;
    vertices', ids', i := Intern(vertices, ids, raw.p);
    vertices', ids', j := Intern(vertices', ids', raw.q);
    vertices', ids', k := Intern(vertices', ids', raw.r);
    tri := Tri(raw, i, j, k);
  }

  lemma {:induction false} OneMore(raws: seq<Raw>, tris: seq<Tri>, earlier: seq<Vec>, vertices: seq<Vec>, tri: Tri)
    requires |tris| < |raws| && WellFormed(tris, earlier) && earlier <= vertices && Distinct(vertices)
    requires forall t :: 0 <= t < |tris| ==> tris[t].raw == raws[t]
    requires Placed(tri, vertices) && tri.raw == raws[|tris|]
    ensures forall t :: 0 <= t < |tris| ==> (tris[t].Facet() == tri.Facet() <==> SameFacet(raws[t], tri.raw))
    ensures tri.Proper() && (forall t :: 0 <= t < |tris| ==> tris[t].Facet() != tri.Facet()) ==>
      WellFormed(tris + [tri], vertices)
    ensures tri.Proper() <==> !(tri.raw.p == tri.raw.q || tri.raw.q == tri.raw.r || tri.raw.r == tri.raw.p)
  {
    hide SameFacet;
    forall t | 0 <= t < |tris|
      ensures Placed(tris[t], vertices) && (tris[t].Facet() == tri.Facet() <==> SameFacet(raws[t], tri.raw))
    {
      PlacedGrows(tris[t], earlier, vertices);
      FacetsMatch(tris[t], tri, vertices);
    }
  }

  /** Number the corners, refusing degenerate and repeated facets at the first one. */
  method NumberTriangles(raws: seq<Raw>) returns (r: Result<(seq<Vec>, seq<Tri>), Reason>)
    ensures r.Ok? ==> var (vertices, tris) := r.value;
      WellFormed(tris, vertices) && |tris| == |raws| && (forall t :: 0 <= t < |raws| ==> tris[t].raw == raws[t])
      && NoFault(raws, |raws|)
    ensures r.Err? ==> exists t :: 0 <= t < |raws| && FirstFault(raws, t, r.error)
  {
    hide SameFacet, AreaSquared, Placed;
    var vertices: seq<Vec>, ids: map<Vec, nat>, tris: seq<Tri>, facets: set<set<nat>> := [], map[], [], {};
    for n := 0 to |raws|
      invariant Interned(vertices, ids) && |tris| == n
      invariant WellFormed(tris, vertices) && NoFault(raws, n)
      invariant forall t :: 0 <= t < n ==> tris[t].raw == raws[t]
      invariant forall f :: f in facets <==> exists t :: 0 <= t < n && tris[t].Facet() == f
    {
      ghost var earlier := vertices;
      var tri: Tri;
      vertices, ids, tri := NumberCorners(raws[n], vertices, ids);
      OneMore(raws, tris, earlier, vertices, tri);
      if tri.i == tri.j || tri.j == tri.k || tri.k == tri.i || AreaSquared(raws[n]) == 0.0 {
        assert FirstFault(raws, n, Degenerate);
        return Err(Degenerate);
      }
      if tri.Facet() in facets {
        assert FirstFault(raws, n, DuplicateFacet);
        return Err(DuplicateFacet);
      }
      facets := facets + {tri.Facet()};
      tris := tris + [tri];
    }
    r := Ok((vertices, tris));
  }
}
