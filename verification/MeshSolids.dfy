/** What the volumes and areas of the mesh check measure, in coordinates. */
module MeshSolids {
  import opened MeshModel
  import opened MeshVolume
  import opened MeshVerify

  /** The determinant of three edge vectors, in coordinates. */
  function Determinant(u: Vec, v: Vec, w: Vec): real {
    u.x * v.y * w.z + u.y * v.z * w.x + u.z * v.x * w.y - u.x * v.z * w.y - u.y * v.x * w.z - u.z * v.y * w.x
  }

  /** The four facets of a tetrahedron; they run counterclockwise seen from outside when the determinant is positive. */
  function Tetrahedron(a: Vec, b: Vec, c: Vec, d: Vec): seq<Raw> {
    [Raw(a, c, b), Raw(a, b, d), Raw(b, c, d), Raw(c, a, d)]
  }

  lemma {:induction false} TripleIsDeterminant(u: Vec, v: Vec, w: Vec)
    ensures Dot(u, Cross(v, w)) == Determinant(u, v, w)
  {
    Spread(u.x, v.y, w.z, v.z, w.y);
    Spread(u.y, v.z, w.x, v.x, w.z);
    Spread(u.z, v.x, w.y, v.y, w.x);
    assert u.y * v.z * w.x - u.y * v.x * w.z == u.y * (v.z * w.x - v.x * w.z);
  }

  function Negated(v: Vec): Vec { Vec(-v.x, -v.y, -v.z) }

  lemma {:induction false} AtOrigin(q: Vec, r: Vec)
    ensures TriangleVolume(Raw(Vec(0.0, 0.0, 0.0), q, r)) == 0.0
    ensures TriangleVolume(Raw(q, Vec(0.0, 0.0, 0.0), r)) == 0.0
  {
    assert Cross(Vec(0.0, 0.0, 0.0), r) == Vec(0.0, 0.0, 0.0);
  }

  /** Moving a tetrahedron so that its first corner lies at the origin. */
  lemma {:induction false} TetrahedronMoves(a: Vec, b: Vec, c: Vec, d: Vec, m: Vec)
    ensures var t, s := Tetrahedron(a, b, c, d), Tetrahedron(Add(a, m), Add(b, m), Add(c, m), Add(d, m));
      TriangleVolume(s[0]) + TriangleVolume(s[1]) + TriangleVolume(s[2]) + TriangleVolume(s[3]) ==
      TriangleVolume(t[0]) + TriangleVolume(t[1]) + TriangleVolume(t[2]) + TriangleVolume(t[3])
  {
    hide TriangleVolume, EdgeFlux, Add;
    var t := Tetrahedron(a, b, c, d);
    TriangleMoves(t[0], m);
    TriangleMoves(t[1], m);
    TriangleMoves(t[2], m);
    TriangleMoves(t[3], m);
    FluxTurns(a, b, m);
    FluxTurns(a, c, m);
    FluxTurns(a, d, m);
    FluxTurns(b, c, m);
    FluxTurns(b, d, m);
    FluxTurns(c, d, m);
  }

  lemma {:induction false} FourFacets(raws: seq<Raw>)
    requires |raws| == 4
    ensures Within([0, 1, 2, 3], |raws|)
    ensures VolumeOf(raws, [0, 1, 2, 3]) == TotalVolume(raws) ==
      TriangleVolume(raws[0]) + TriangleVolume(raws[1]) + TriangleVolume(raws[2]) + TriangleVolume(raws[3])
  {
    hide TriangleVolume;
    var four, three, two, one := [0, 1, 2, 3], [0, 1, 2], [0, 1], [0];
    assert four[..3] == three && three[..2] == two && two[..1] == one && one[..0] == [];
    assert raws[..3][..2] == raws[..2] && raws[..2][..1] == raws[..1] && raws[..1][..0] == [];
    assert TotalVolume(raws[..1]) == TriangleVolume(raws[0]);
    assert TotalVolume(raws[..2]) == TotalVolume(raws[..1]) + TriangleVolume(raws[1]);
    assert TotalVolume(raws[..3]) == TotalVolume(raws[..2]) + TriangleVolume(raws[2]);
    assert VolumeOf(raws, one) == TriangleVolume(raws[0]);
    assert VolumeOf(raws, two) == VolumeOf(raws, one) + TriangleVolume(raws[1]);
    assert VolumeOf(raws, three) == VolumeOf(raws, two) + TriangleVolume(raws[2]);
  }

  /** The facets of a tetrahedron have a sixth of the determinant of its edges as their volume. */
  lemma {:induction false} TetrahedronVolume(a: Vec, b: Vec, c: Vec, d: Vec)
    ensures Within([0, 1, 2, 3], |Tetrahedron(a, b, c, d)|)
    ensures VolumeOf(Tetrahedron(a, b, c, d), [0, 1, 2, 3]) == TotalVolume(Tetrahedron(a, b, c, d)) ==
      Determinant(Vec(b.x - a.x, b.y - a.y, b.z - a.z), Vec(c.x - a.x, c.y - a.y, c.z - a.z),
                  Vec(d.x - a.x, d.y - a.y, d.z - a.z)) / 6.0
  {
    var u, v, w := Sub(b, a), Sub(c, a), Sub(d, a);
    FourFacets(Tetrahedron(a, b, c, d));
    TetrahedronMoves(a, b, c, d, Negated(a));
    assert Add(a, Negated(a)) == Vec(0.0, 0.0, 0.0) && Add(b, Negated(a)) == u && Add(c, Negated(a)) == v && Add(d, Negated(a)) == w;
    AtOrigin(v, u);
    AtOrigin(u, w);
    AtOrigin(v, w);
    TripleIsDeterminant(u, v, w);
    OnlyOpposite(u, v, w);
    hide Determinant, VolumeOf, TotalVolume;
  }

  lemma {:induction false} OnlyOpposite(u: Vec, v: Vec, w: Vec)
    ensures TriangleVolume(Raw(u, v, w)) == Dot(u, Cross(v, w)) / 6.0
  {
  }

  // ---------- Turning a shell inside out ----------

  function Reversed(t: Raw): Raw { Raw(t.p, t.r, t.q) }

  function ReversedAll(raws: seq<Raw>): (r: seq<Raw>)
    ensures |r| == |raws| && forall t :: 0 <= t < |raws| ==> r[t] == Reversed(raws[t])
  {
    seq(|raws|, t requires 0 <= t < |raws| => Reversed(raws[t]))
  }

  lemma {:induction false} CrossTurns(a: Vec, b: Vec)
    ensures Cross(b, a) == Negated(Cross(a, b))
  {
  }

  lemma {:induction false} DotNegated(a: Vec, b: Vec)
    ensures Dot(a, Negated(b)) == -Dot(a, b)
  {
  }

  lemma {:induction false} TriangleReverses(t: Raw)
    ensures TriangleVolume(Reversed(t)) == -TriangleVolume(t)
  {
    CrossTurns(t.q, t.r);
    DotNegated(t.p, Cross(t.q, t.r));
    hide Dot, Cross;
  }

  /** Reversing every facet negates the volume of any shell. */
  lemma {:induction false} ReversingNegates(raws: seq<Raw>, shell: seq<nat>)
    requires Within(shell, |raws|)
    ensures VolumeOf(ReversedAll(raws), shell) == -VolumeOf(raws, shell)
  {
    hide TriangleVolume;
    if shell != [] {
      var n := |shell| - 1;
      ReversingNegates(raws, shell[..n]);
      TriangleReverses(raws[shell[n]]);
    }
  }

  // ---------- Degenerate facets ----------

  ghost predicate Vanishes(u: Vec, v: Vec, a: real, b: real) {
    a * u.x + b * v.x == 0.0 && a * u.y + b * v.y == 0.0 && a * u.z + b * v.z == 0.0
  }

  ghost predicate Dependent(u: Vec, v: Vec) {
    exists a, b :: (a != 0.0 || b != 0.0) && Vanishes(u, v, a, b)
  }

  /** The corners lie on one line: the two edge vectors from the first are linearly dependent. */
  ghost predicate Collinear(t: Raw) {
    Dependent(Vec(t.q.x - t.p.x, t.q.y - t.p.y, t.q.z - t.p.z), Vec(t.r.x - t.p.x, t.r.y - t.p.y, t.r.z - t.p.z))
  }

  function Times(x: real, y: real): real { x * y }

  lemma {:induction false} TimesPositive(x: real, y: real)
    requires x > 0.0 && y > 0.0
    ensures Times(x, y) > 0.0 && Times(-x, -y) > 0.0
  {
    assert (-x) * (-y) == x * y;
  }

  lemma {:induction false} SquareZero(x: real)
    ensures Times(x, x) >= 0.0 && (Times(x, x) == 0.0 <==> x == 0.0)
  {
    assert Times(0.0, 0.0) == 0.0;
    hide Times;
    if x > 0.0 {
      TimesPositive(x, x);
    } else if x < 0.0 {
      TimesPositive(-x, -x);
      assert x == -(-x);
    }
  }

  lemma {:induction false} NormZero(c: Vec)
    ensures Dot(c, c) == 0.0 <==> c == Vec(0.0, 0.0, 0.0)
  {
    assert Dot(c, c) == Times(c.x, c.x) + Times(c.y, c.y) + Times(c.z, c.z);
    hide Times, Dot;
    SquareZero(c.x);
    SquareZero(c.y);
    SquareZero(c.z);
  }

  lemma {:induction false} MinorVanishes(p: real, q: real, r: real, s: real, a: real, b: real)
    requires a * p + b * r == 0.0 && a * q + b * s == 0.0 && (a != 0.0 || b != 0.0)
    ensures Minor(p, q, r, s) == 0.0
  {
    var m := p * s - q * r;
    assert b * m == p * (b * s) - q * (b * r);
    assert p * (b * s) == p * (-(a * q)) && q * (b * r) == q * (-(a * p));
    assert b * m == 0.0;
    assert a * m == (a * p) * s - (a * q) * r;
    assert (a * p) * s == (-(b * r)) * s && (a * q) * r == (-(b * s)) * r;
    assert a * m == 0.0;
    if b != 0.0 { OneFactor(b, m); } else { OneFactor(a, m); }
  }

  lemma {:induction false} OneFactor(a: real, m: real)
    requires a != 0.0 && a * m == 0.0
    ensures m == 0.0
  {
  }

  lemma {:induction false} DependentIffCrossZero(u: Vec, v: Vec)
    ensures Dependent(u, v) <==> Cross(u, v) == Vec(0.0, 0.0, 0.0)
  {
    if a, b :| (a != 0.0 || b != 0.0) && Vanishes(u, v, a, b) {
      MinorVanishes(u.y, u.z, v.y, v.z, a, b);
      MinorVanishes(u.z, u.x, v.z, v.x, a, b);
      MinorVanishes(u.x, u.y, v.x, v.y, a, b);
    }
    if Cross(u, v) == Vec(0.0, 0.0, 0.0) {
      var a, b := Coefficients(u, v);
    }
  }

  lemma {:induction false} Coefficients(u: Vec, v: Vec) returns (a: real, b: real)
    requires Cross(u, v) == Vec(0.0, 0.0, 0.0)
    ensures (a != 0.0 || b != 0.0) && Vanishes(u, v, a, b)
  {
    if u == Vec(0.0, 0.0, 0.0) {
      a, b := 1.0, 0.0;
    } else if u.x != 0.0 {
      a, b := -v.x, u.x;
    } else if u.y != 0.0 {
      a, b := -v.y, u.y;
    } else {
      a, b := -v.z, u.z;
    }
  }

  /** A facet is degenerate exactly when its corners lie on one line. */
  lemma {:induction false} DegenerateIffCollinear(t: Raw)
    ensures IsDegenerate(t) <==> Collinear(t)
  {
    AreaZeroIff(t);
    EqualIsCollinear(t);
    hide AreaSquared, Collinear;
  }

  lemma {:induction false} AreaZeroIff(t: Raw)
    ensures AreaSquared(t) == 0.0 <==> Collinear(t)
  {
    hide Cross, Dot, Dependent;
    var u, v := Sub(t.q, t.p), Sub(t.r, t.p);
    DependentIffCrossZero(u, v);
    NormZero(Cross(u, v));
  }

  lemma {:induction false} EqualIsCollinear(t: Raw)
    ensures t.p == t.q || t.q == t.r || t.r == t.p ==> Collinear(t)
  {
    var u, v := Sub(t.q, t.p), Sub(t.r, t.p);
    if t.p == t.q || t.q == t.r || t.r == t.p { EqualIsDependent(u, v); }
  }

  lemma {:induction false} EqualIsDependent(u: Vec, v: Vec)
    requires u == Vec(0.0, 0.0, 0.0) || v == Vec(0.0, 0.0, 0.0) || u == v
    ensures Dependent(u, v)
  {
    if u == Vec(0.0, 0.0, 0.0) {
      assert Vanishes(u, v, 1.0, 0.0);
    } else if v == Vec(0.0, 0.0, 0.0) {
      assert Vanishes(u, v, 0.0, 1.0);
    } else {
      assert Vanishes(u, v, 1.0, -1.0);
    }
  }

  // ---------- One material body ----------

  /** One shell is positive; every other is negative, inside it, touches neither it nor another, and nests in none. */
  ghost predicate Body(geo: Geometry, parts: seq<seq<Raw>>, volumes: seq<real>, e: nat)
    requires |parts| == |volumes|
  {
    && e < |volumes| && volumes[e] > 0.0 && Total(volumes) > 0.0
    && (forall k :: 0 <= k < |volumes| && k != e ==> volumes[k] < 0.0)
    && (forall k :: 0 <= k < |volumes| && k != e ==> geo.inside(parts[k], parts[e]))
    && (forall k :: 0 <= k < |volumes| && k != e ==> !geo.crosses(parts[k], parts[e]))
    && (forall i, j :: 0 <= i < j < |volumes| && i != e && j != e ==> !geo.crosses(parts[i], parts[j]))
    && (forall i, j :: 0 <= i < j < |volumes| && i != e && j != e ==> !geo.inside(parts[i], parts[j]))
    && (forall i, j :: 0 <= i < j < |volumes| && i != e && j != e ==> !geo.inside(parts[j], parts[i]))
  }

  lemma {:induction false} MaterialIffBody(geo: Geometry, parts: seq<seq<Raw>>, volumes: seq<real>, e: nat)
    requires |parts| == |volumes|
    ensures Material(geo, parts, volumes, e) <==> Body(geo, parts, volumes, e)
  {
    if Material(geo, parts, volumes, e) { MaterialIsBody(geo, parts, volumes, e); }
    if Body(geo, parts, volumes, e) { BodyIsMaterial(geo, parts, volumes, e); }
  }

  lemma {:induction false} MaterialIsBody(geo: Geometry, parts: seq<seq<Raw>>, volumes: seq<real>, e: nat)
    requires |parts| == |volumes| && Material(geo, parts, volumes, e)
    ensures Body(geo, parts, volumes, e)
  {
    hide Total;
    forall k | 0 <= k < |volumes| && k != e
      ensures volumes[k] < 0.0 && geo.inside(parts[k], parts[e]) && !geo.crosses(parts[k], parts[e])
    {
      assert Contained(geo, parts, k, e);
    }
    forall i, j | 0 <= i < j < |volumes| && i != e && j != e
      ensures !geo.crosses(parts[i], parts[j]) && !geo.inside(parts[i], parts[j]) && !geo.inside(parts[j], parts[i])
    {
      assert volumes[i] < 0.0 && volumes[j] < 0.0;
      assert Apart(geo, parts, i, j);
    }
  }

  lemma {:induction false} BodyIsMaterial(geo: Geometry, parts: seq<seq<Raw>>, volumes: seq<real>, e: nat)
    requires |parts| == |volumes| && Body(geo, parts, volumes, e)
    ensures Material(geo, parts, volumes, e)
  {
    hide Total;
    forall k | 0 <= k < |volumes| && k != e ensures Contained(geo, parts, k, e) {}
    forall i, j | 0 <= i < j < |volumes| && volumes[i] < 0.0 && volumes[j] < 0.0 ensures Apart(geo, parts, i, j) {}
  }
}
