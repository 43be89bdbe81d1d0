/** Signed volumes: translation does not change a closed shell's, and shells add up to the mesh. */
module MeshVolume {
  import opened MeshModel
  import opened MeshEdges
  import opened MeshShells
  import opened Sums

  function TriangleVolume(t: Raw): real {
    Dot(t.p, Cross(t.q, t.r)) / 6.0
  }

  predicate Within(shell: seq<nat>, n: nat) {
    forall i :: 0 <= i < |shell| ==> shell[i] < n
  }

  function VolumeOf(raws: seq<Raw>, shell: seq<nat>): real
    requires Within(shell, |raws|)
  {
    if shell == [] then 0.0 else
    VolumeOf(raws, shell[..|shell| - 1]) + TriangleVolume(raws[shell[|shell| - 1]])
  }

  function Add(a: Vec, b: Vec): Vec { Vec(a.x + b.x, a.y + b.y, a.z + b.z) }

  function Moved(t: Raw, d: Vec): Raw { Raw(Add(t.p, d), Add(t.q, d), Add(t.r, d)) }

  function MovedAll(raws: seq<Raw>, d: Vec): (r: seq<Raw>)
    ensures |r| == |raws| && forall t :: 0 <= t < |raws| ==> r[t] == Moved(raws[t], d)
  {
    seq(|raws|, t requires 0 <= t < |raws| => Moved(raws[t], d))
  }

  /** What one directed edge contributes to the change under translation. */
  function EdgeFlux(a: Vec, b: Vec, d: Vec): real {
    Dot(d, Cross(a, b))
  }

  lemma {:induction false} CrossAdd(a: Vec, b: Vec, d: Vec)
    ensures Cross(Add(a, d), Add(b, d)) == Add(Add(Cross(a, b), Cross(a, d)), Cross(d, b))
  {
    hide Minor;
    MinorAdd(a.y, a.z, b.y, b.z, d.y, d.z);
    MinorAdd(a.z, a.x, b.z, b.x, d.z, d.x);
    MinorAdd(a.x, a.y, b.x, b.y, d.x, d.y);
  }

  lemma {:induction false} MinorAdd(p: real, q: real, r: real, s: real, t: real, u: real)
    ensures Minor(p + t, q + u, r + t, s + u) == Minor(p, q, r, s) + Minor(p, q, t, u) + Minor(t, u, r, s)
  {
  }

  lemma {:induction false} DotAdd(a: Vec, b: Vec, c: Vec)
    ensures Dot(a, Add(b, c)) == Dot(a, b) + Dot(a, c)
    ensures Dot(Add(a, b), c) == Dot(a, c) + Dot(b, c)
  {
  }

  lemma {:induction false} Spread(x: real, a: real, b: real, c: real, d: real)
    ensures x * (a * b - c * d) == x * a * b - x * c * d
  {
    assert x * (a * b) == x * a * b && x * (c * d) == x * c * d;
  }

  lemma {:induction false} Triple(a: Vec, b: Vec, c: Vec)
    ensures Dot(a, Cross(b, c)) ==
      a.x * b.y * c.z - a.x * b.z * c.y + a.y * b.z * c.x - a.y * b.x * c.z + a.z * b.x * c.y - a.z * b.y * c.x
  {
    Spread(a.x, b.y, c.z, b.z, c.y);
    Spread(a.y, b.z, c.x, b.x, c.z);
    Spread(a.z, b.x, c.y, b.y, c.x);
  }

  lemma {:induction false} TripleTurns(a: Vec, b: Vec, c: Vec)
    ensures Dot(a, Cross(b, c)) == Dot(b, Cross(c, a)) == Dot(c, Cross(a, b))
    ensures Dot(a, Cross(a, b)) == 0.0 && Dot(a, Cross(b, a)) == 0.0
  {
    Triple(a, b, c);
    Triple(b, c, a);
    Triple(c, a, b);
    Triple(a, a, b);
    Triple(a, b, a);
  }

  /** Translating a triangle changes its volume by the flux through its three edges. */
  lemma {:induction false} TriangleMoves(t: Raw, d: Vec)
    ensures TriangleVolume(Moved(t, d)) ==
      TriangleVolume(t) + (EdgeFlux(t.p, t.q, d) + EdgeFlux(t.q, t.r, d) + EdgeFlux(t.r, t.p, d)) / 6.0
  {
    CrossAdd(t.q, t.r, d);
    var qr, qd, dr := Cross(t.q, t.r), Cross(t.q, d), Cross(d, t.r);
    DotAdd(t.p, d, Add(Add(qr, qd), dr));
    DotAdd(t.p, Add(qr, qd), dr);
    DotAdd(t.p, qr, qd);
    DotAdd(d, Add(qr, qd), dr);
    DotAdd(d, qr, qd);
    TripleTurns(t.p, t.q, d);
    TripleTurns(t.p, d, t.r);
    TripleTurns(d, t.q, t.r);
    TripleTurns(d, t.r, t.q);
  }

  lemma {:induction false} FluxTurns(a: Vec, b: Vec, d: Vec)
    ensures EdgeFlux(a, b, d) + EdgeFlux(b, a, d) == 0.0
  {
  }

  // ---------- Closed shells ----------

  /** The directed edges of the shell's triangles. */
  ghost function EdgeSet(tris: seq<Tri>, shell: seq<nat>): set<(nat, nat)>
    requires Within(shell, |tris|)
  {
    if shell == [] then {} else
    var t := tris[shell[|shell| - 1]];
    EdgeSet(tris, shell[..|shell| - 1]) + {(t.i, t.j), (t.j, t.k), (t.k, t.i)}
  }

  lemma {:induction false} EdgeSetExact(tris: seq<Tri>, shell: seq<nat>, u: nat, v: nat)
    requires Within(shell, |tris|)
    ensures (u, v) in EdgeSet(tris, shell) <==> exists t :: t in shell && tris[t].HasEdge(u, v)
  {
    if shell != [] {
      var n := |shell| - 1;
      EdgeSetExact(tris, shell[..n], u, v);
      assert shell == shell[..n] + [shell[n]];
    }
  }

  lemma {:induction false} ThreeEdges(s: set<(nat, nat)>, t: Tri, f: ((nat, nat)) -> real)
    requires t.Proper()
    requires (t.i, t.j) !in s && (t.j, t.k) !in s && (t.k, t.i) !in s
    ensures Sum(s + {(t.i, t.j), (t.j, t.k), (t.k, t.i)}, f) == Sum(s, f) + f((t.i, t.j)) + f((t.j, t.k)) + f((t.k, t.i))
    ensures |s + {(t.i, t.j), (t.j, t.k), (t.k, t.i)}| == |s| + 3
  {
    SumAddThree(s, f, (t.i, t.j), (t.j, t.k), (t.k, t.i));
  }

  /** In a closed oriented mesh a directed edge belongs to one triangle. */
  lemma {:induction false} EdgeUnique(tris: seq<Tri>, shell: seq<nat>, t: nat, u: nat, v: nat)
    requires AllProper(tris) && ClosedOriented(tris) && Within(shell, |tris|) && t < |tris| && t !in shell
    requires tris[t].HasEdge(u, v)
    ensures (u, v) !in EdgeSet(tris, shell)
  {
    hide Tri.HasEdge, ClosedOriented;
    EdgeSetExact(tris, shell, u, v);
    var m := Mate(tris, t, u, v);
  }

  ghost function FluxAt(vertices: seq<Vec>, d: Vec): ((nat, nat)) -> real {
    (e: (nat, nat)) => if e.0 < |vertices| && e.1 < |vertices| then EdgeFlux(vertices[e.0], vertices[e.1], d) else 0.0
  }

  lemma {:induction false} ShellMoves(tris: seq<Tri>, vertices: seq<Vec>, raws: seq<Raw>, shell: seq<nat>, d: Vec)
    requires WellFormed(tris, vertices) && ClosedOriented(tris) && |raws| == |tris|
    requires forall t :: 0 <= t < |tris| ==> tris[t].raw == raws[t]
    requires Within(shell, |tris|) && NoRepeats(shell)
    ensures VolumeOf(MovedAll(raws, d), shell) == VolumeOf(raws, shell) + Sum(EdgeSet(tris, shell), FluxAt(vertices, d)) / 6.0
    ensures |EdgeSet(tris, shell)| == 3 * |shell|
  {
    hide ClosedOriented, TriangleVolume, EdgeFlux;
    if shell != [] {
      var n := |shell| - 1;
      var pre, t := shell[..n], shell[n];
      ShellMoves(tris, vertices, raws, pre, d);
      var tri := tris[t];
      assert AllProper(tris);
      EdgeUnique(tris, pre, t, tri.i, tri.j);
      EdgeUnique(tris, pre, t, tri.j, tri.k);
      EdgeUnique(tris, pre, t, tri.k, tri.i);
      ThreeEdges(EdgeSet(tris, pre), tri, FluxAt(vertices, d));
      TriangleMoves(raws[t], d);
    }
  }

  /** The shell of every edge also holds the facet across it, so its directed edges come in opposite pairs. */
  lemma {:induction false} ShellEdgesPaired(tris: seq<Tri>, shell: seq<nat>, u: nat, v: nat)
    requires AllProper(tris) && ClosedOriented(tris) && Within(shell, |tris|)
    requires forall s, t :: s in shell && ShareEdge(tris, s, t) ==> t in shell
    requires (u, v) in EdgeSet(tris, shell)
    ensures u != v && (v, u) in EdgeSet(tris, shell)
  {
    hide Tri.HasEdge, ClosedOriented;
    EdgeSetExact(tris, shell, u, v);
    var t :| t in shell && tris[t].HasEdge(u, v);
    var m := Mate(tris, t, u, v);
    assert ShareEdge(tris, t, m);
    EdgeSetExact(tris, shell, v, u);
  }

  /** Translating all vertices by any vector leaves the signed volume of a closed shell unchanged. */
  lemma {:induction false} VolumeTranslates(tris: seq<Tri>, vertices: seq<Vec>, raws: seq<Raw>, shell: seq<nat>, d: Vec)
    requires WellFormed(tris, vertices) && ClosedOriented(tris) && |raws| == |tris|
    requires forall t :: 0 <= t < |tris| ==> tris[t].raw == raws[t]
    requires Within(shell, |tris|) && NoRepeats(shell)
    requires forall s, t :: s in shell && ShareEdge(tris, s, t) ==> t in shell
    ensures VolumeOf(MovedAll(raws, d), shell) == VolumeOf(raws, shell)
  {
    hide ClosedOriented, ShareEdge, EdgeSet, VolumeOf;
    ShellMoves(tris, vertices, raws, shell, d);
    assert AllProper(tris);
    var f := FluxAt(vertices, d);
    forall e | e in EdgeSet(tris, shell) ensures e.0 != e.1 && (e.1, e.0) in EdgeSet(tris, shell) {
      ShellEdgesPaired(tris, shell, e.0, e.1);
    }
    forall u: nat, v: nat ensures f((u, v)) + f((v, u)) == 0.0 {
      if u < |vertices| && v < |vertices| { FluxTurns(vertices[u], vertices[v], d); }
    }
    SwapsCancel(EdgeSet(tris, shell), f);
  }

  // ---------- Shells add up ----------

  function TotalVolume(raws: seq<Raw>): real {
    if raws == [] then 0.0 else TotalVolume(raws[..|raws| - 1]) + TriangleVolume(raws[|raws| - 1])
  }

  function Total(volumes: seq<real>): real {
    if volumes == [] then 0.0 else Total(volumes[..|volumes| - 1]) + volumes[|volumes| - 1]
  }

  predicate AllWithin(shells: seq<seq<nat>>, n: nat) {
    forall k :: 0 <= k < |shells| ==> Within(shells[k], n)
  }

  function Volumes(raws: seq<Raw>, shells: seq<seq<nat>>): (r: seq<real>)
    requires AllWithin(shells, |raws|)
    ensures |r| == |shells| && forall k :: 0 <= k < |shells| ==> r[k] == VolumeOf(raws, shells[k])
  {
    seq(|shells|, k requires 0 <= k < |shells| => VolumeOf(raws, shells[k]))
  }

  ghost function VolumeAt(raws: seq<Raw>): nat -> real {
    (t: nat) => if t < |raws| then TriangleVolume(raws[t]) else 0.0
  }

  lemma {:induction false} VolumeIsSum(raws: seq<Raw>, shell: seq<nat>)
    requires Within(shell, |raws|) && NoRepeats(shell)
    ensures VolumeOf(raws, shell) == Sum(Members(shell), VolumeAt(raws))
  {
    hide TriangleVolume;
    if shell != [] {
      var n := |shell| - 1;
      VolumeIsSum(raws, shell[..n]);
      assert shell[n] in shell;
      assert Members(shell) - {shell[n]} == Members(shell[..n]);
      SumRemove(Members(shell), VolumeAt(raws), shell[n]);
    }
  }

  lemma {:induction false} ShellsAddUp(raws: seq<Raw>, neighbors: seq<seq<nat>>, shells: seq<seq<nat>>)
    requires |raws| == |neighbors| && AreShells(neighbors, shells) && AllWithin(shells, |raws|)
    ensures Total(Volumes(raws, shells)) == Sum(AllMembers(shells), VolumeAt(raws))
  {
    if shells != [] {
      var n := |shells| - 1;
      var pre := shells[..n];
      forall k | 0 <= k < n ensures IsShell(neighbors, pre[k]) && Members(pre[k]) !! AllMembers(pre[..k]) {
        assert pre[..k] == shells[..k];
        assert IsShell(neighbors, shells[k]);
      }
      ShellsAddUp(raws, neighbors, pre);
      assert Volumes(raws, shells)[..n] == Volumes(raws, pre);
      assert IsShell(neighbors, shells[n]);
      VolumeIsSum(raws, shells[n]);
      SumUnion(AllMembers(pre), Members(shells[n]), VolumeAt(raws));
    }
  }

  lemma {:induction false} TotalIsSum(raws: seq<Raw>, n: nat)
    requires n <= |raws|
    ensures TotalVolume(raws[..n]) == Sum(Facets(n), VolumeAt(raws))
  {
    hide TriangleVolume;
    if n > 0 {
      TotalIsSum(raws, n - 1);
      assert raws[..n][..n - 1] == raws[..n - 1];
      var last: nat := n - 1;
      assert Facets(n) - {last} == Facets(last);
      SumRemove(Facets(n), VolumeAt(raws), last);
    }
  }

  /** The shell volumes of a complete set of shells add up to the volume of all facets. */
  lemma {:induction false} ShellsMakeTheMesh(raws: seq<Raw>, neighbors: seq<seq<nat>>, shells: seq<seq<nat>>)
    requires |raws| == |neighbors| && AreShells(neighbors, shells) && AllWithin(shells, |raws|)
    requires forall t :: t in AllMembers(shells) <==> 0 <= t < |neighbors|
    ensures Total(Volumes(raws, shells)) == TotalVolume(raws)
  {
    ShellsAddUp(raws, neighbors, shells);
    TotalIsSum(raws, |raws|);
    assert raws[..|raws|] == raws;
    assert AllMembers(shells) == Facets(|raws|);
  }

  // ---------- Three times the facets is twice the edges ----------

  ghost function BothWays(keys: set<Key>): set<(nat, nat)> {
    keys + set k | k in keys :: (k.1, k.0)
  }

  lemma {:induction false} BothWaysMore(keys: set<Key>, k: Key)
    requires k in keys && forall k :: k in keys ==> k.0 < k.1
    ensures |BothWays(keys)| == |BothWays(keys - {k})| + 2
  {
    var less, r := BothWays(keys - {k}), (k.1, k.0);
    assert k !in less && r !in less;
    assert BothWays(keys) == less + {k} + {r};
  }

  lemma {:induction false} BothWaysCount(keys: set<Key>)
    requires forall k :: k in keys ==> k.0 < k.1
    ensures |BothWays(keys)| == 2 * |keys|
    decreases keys
  {
    if keys != {} {
      var k :| k in keys;
      BothWaysCount(keys - {k});
      BothWaysMore(keys, k);
    } else {
      assert BothWays(keys) == {};
    }
  }

  ghost function AllFacets(n: nat): (r: seq<nat>)
    ensures |r| == n && forall i :: 0 <= i < n ==> r[i] == i
  {
    seq(n, i => i)
  }

  /** In a closed oriented mesh three times the facets is twice the edges, so the number of facets is even. */
  lemma {:induction false} FacetsAndEdges(tris: seq<Tri>, vertices: seq<Vec>, raws: seq<Raw>, edges: EdgeTable)
    requires WellFormed(tris, vertices) && ClosedOriented(tris) && IsTable(edges, tris) && |raws| == |tris|
    requires forall t :: 0 <= t < |tris| ==> tris[t].raw == raws[t]
    ensures 3 * |tris| == 2 * |edges.Keys|
  {
    hide ClosedOriented, VolumeOf, Placed;
    var all := AllFacets(|tris|);
    assert AllProper(tris);
    ShellMoves(tris, vertices, raws, all, Vec(0.0, 0.0, 0.0));
    var directed := EdgeSet(tris, all);
    forall key | key in edges ensures key.0 < key.1 && key in directed && (key.1, key.0) in directed {
      KeyUsedBothWays(tris, edges, all, key);
    }
    forall e | e in directed ensures e in BothWays(edges.Keys) {
      EdgeHasKey(tris, edges, all, e.0, e.1);
    }
    assert directed == BothWays(edges.Keys);
    BothWaysCount(edges.Keys);
  }

  lemma {:induction false} KeyUsedBothWays(tris: seq<Tri>, edges: EdgeTable, all: seq<nat>, key: Key)
    requires AllProper(tris) && ClosedOriented(tris) && IsTable(edges, tris) && key in edges
    requires |all| == |tris| && forall i :: 0 <= i < |all| ==> all[i] == i
    ensures key.0 < key.1 && key in EdgeSet(tris, all) && (key.1, key.0) in EdgeSet(tris, all)
  {
    hide Tri.HasEdge, EdgeSet;
    UsesAreExact(tris, key);
    var x := edges[key][0];
    assert x in Uses(tris, key) && IsUse(tris, key, x);
    var m := Mate(tris, x.triangle, x.start, x.end);
    assert all[x.triangle] in all && all[m] in all;
    EdgeSetExact(tris, all, x.start, x.end);
    EdgeSetExact(tris, all, x.end, x.start);
  }

  lemma {:induction false} EdgeHasKey(tris: seq<Tri>, edges: EdgeTable, all: seq<nat>, u: nat, v: nat)
    requires AllProper(tris) && ClosedOriented(tris) && IsTable(edges, tris) && Within(all, |tris|)
    requires (u, v) in EdgeSet(tris, all)
    ensures (u, v) in BothWays(edges.Keys)
  {
    hide Tri.HasEdge, EdgeSet, ClosedOriented;
    EdgeSetExact(tris, all, u, v);
    var t :| t in all && tris[t].HasEdge(u, v);
    var m := Mate(tris, t, u, v);
    assert KeyOf(u, v) in edges.Keys;
  }
}
