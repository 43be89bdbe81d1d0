/** The vertex-link check: the facets at every vertex form one cycle. */
module MeshVertexLinks {
  import opened Wrappers
  import opened Ordering
  import opened MeshModel
  import opened MeshEdges
  import Cycles

  type Links = map<nat, Cycles.Link>

  /** Facets `a` and `b` are joined by one of the edges `keys` ending at `v`. */
  ghost predicate LinkedAt(edges: EdgeTable, keys: set<Key>, v: nat, a: nat, b: nat) {
    exists key :: key in keys && key in edges && (key.0 == v || key.1 == v) && Joins(edges[key], a, b)
  }

  function LinkNeighbours(links: Links, v: nat, a: nat): set<nat> {
    if v in links && a in links[v] then links[v][a] else {}
  }

  function Include(links: Links, v: nat, a: nat, b: nat): Links {
    var link: Cycles.Link := if v in links then links[v] else map[];
    links[v := link[a := LinkNeighbours(links, v, a) + {b}]]
  }

  /** The links hold exactly the pairs joined at each vertex, and no empty entry. */
  ghost predicate IsLinks(links: Links, edges: EdgeTable, keys: set<Key>) {
    && (forall v, a, b :: b in LinkNeighbours(links, v, a) <==> LinkedAt(edges, keys, v, a, b))
    && (forall v :: v in links ==> links[v] != map[])
    && (forall v, a :: v in links && a in links[v] ==> links[v][a] != {})
  }

  lemma {:induction false} IncludeAdds(links: Links, v: nat, a: nat, b: nat, w: nat, c: nat)
    ensures LinkNeighbours(Include(links, v, a, b), w, c) ==
      LinkNeighbours(links, w, c) + if w == v && c == a then {b} else {}
  {
  }

  function IncludeEdge(links: Links, v: nat, a: nat, b: nat): Links {
    Include(Include(links, v, a, b), v, b, a)
  }

  lemma {:induction false} EdgeIncluded(links: Links, edges: EdgeTable, done: set<Key>, key: Key)
    requires IsLinks(links, edges, done) && key in edges && |edges[key]| == 2
    ensures var a, b := edges[key][0].triangle, edges[key][1].triangle;
      IsLinks(IncludeEdge(IncludeEdge(links, key.0, a, b), key.1, a, b), edges, done + {key})
  {
    var a, b := edges[key][0].triangle, edges[key][1].triangle;
    var after := IncludeEdge(IncludeEdge(links, key.0, a, b), key.1, a, b);
    forall v, x, y ensures y in LinkNeighbours(after, v, x) <==> LinkedAt(edges, done + {key}, v, x, y) {
      EdgeIncludedAt(links, key, a, b, v, x, y);
      LinkedAtMore(edges, done, key, v, x, y);
    }
    NothingEmpty(links, key.0, a, b);
    NothingEmpty(IncludeEdge(links, key.0, a, b), key.1, a, b);
  }

  lemma {:induction false} EdgeIncludedAt(links: Links, key: Key, a: nat, b: nat, v: nat, x: nat, y: nat)
    ensures var after := IncludeEdge(IncludeEdge(links, key.0, a, b), key.1, a, b);
      y in LinkNeighbours(after, v, x) <==>
        y in LinkNeighbours(links, v, x) || ((v == key.0 || v == key.1) && ((x == a && y == b) || (x == b && y == a)))
  {
    hide Include, LinkNeighbours;
    var one := Include(links, key.0, a, b);
    var two := Include(one, key.0, b, a);
    var three := Include(two, key.1, a, b);
    IncludeAdds(links, key.0, a, b, v, x);
    IncludeAdds(one, key.0, b, a, v, x);
    IncludeAdds(two, key.1, a, b, v, x);
    IncludeAdds(three, key.1, b, a, v, x);
  }

  lemma {:induction false} LinkedAtMore(edges: EdgeTable, done: set<Key>, key: Key, v: nat, x: nat, y: nat)
    requires key in edges
    ensures LinkedAt(edges, done + {key}, v, x, y) <==>
      LinkedAt(edges, done, v, x, y) || ((v == key.0 || v == key.1) && Joins(edges[key], x, y))
  {
    hide Joins;
    if LinkedAt(edges, done, v, x, y) {
      var k :| k in done && k in edges && (k.0 == v || k.1 == v) && Joins(edges[k], x, y);
      assert k in done + {key};
    }
    if (v == key.0 || v == key.1) && Joins(edges[key], x, y) { assert key in done + {key}; }
  }

  ghost predicate NoEmptyEntry(links: Links) {
    && (forall v :: v in links ==> links[v] != map[])
    && (forall v, a :: v in links && a in links[v] ==> links[v][a] != {})
  }

  lemma {:induction false} NothingEmpty(links: Links, v: nat, a: nat, b: nat)
    requires NoEmptyEntry(links)
    ensures NoEmptyEntry(IncludeEdge(links, v, a, b))
  {
    IncludeKeepsFull(links, v, a, b);
    IncludeKeepsFull(Include(links, v, a, b), v, b, a);
  }

  lemma {:induction false} IncludeKeepsFull(links: Links, v: nat, a: nat, b: nat)
    requires NoEmptyEntry(links)
    ensures NoEmptyEntry(Include(links, v, a, b))
  {
    var after := Include(links, v, a, b);
    assert a in after[v] && b in after[v][a];
    forall w | w in after ensures after[w] != map[] {
      if w == v { assert a in after[w].Keys; }
    }
  }

  /** The links after visiting the given edges in turn; edges without exactly two users are skipped. */
  function LinksFrom(edges: EdgeTable, keys: seq<Key>): Links
    requires forall k :: k in keys ==> k in edges
  {
    if keys == [] then map[] else
    var n := |keys| - 1;
    var links := LinksFrom(edges, keys[..n]);
    assert keys[n] in keys;
    if |edges[keys[n]]| != 2 then links else
    var a, b := edges[keys[n]][0].triangle, edges[keys[n]][1].triangle;
    IncludeEdge(IncludeEdge(links, keys[n].0, a, b), keys[n].1, a, b)
  }

  function LinksOf(edges: EdgeTable): Links {
    KeyOrder();
    LinksFrom(edges, Ascending(edges.Keys, KeyLe))
  }

  lemma {:induction false} LinksNext(edges: EdgeTable, keys: seq<Key>, n: nat)
    requires n < |keys| && forall k :: k in keys ==> k in edges
    ensures keys[n] in edges && LinksFrom(edges, keys[..n + 1]) ==
      var uses, links := edges[keys[n]], LinksFrom(edges, keys[..n]);
      if |uses| != 2 then links
      else IncludeEdge(IncludeEdge(links, keys[n].0, uses[0].triangle, uses[1].triangle),
                       keys[n].1, uses[0].triangle, uses[1].triangle)
  {
    assert keys[..n + 1][..n] == keys[..n];
  }

  method BuildLinks(edges: EdgeTable) returns (links: Links)
    ensures links == LinksOf(edges)
  {
    KeyOrder();
    var keys := Ascending(edges.Keys, KeyLe);
    links := AddLinks(edges, keys);
  }

  method AddLinks(edges: EdgeTable, keys: seq<Key>) returns (links: Links)
    requires forall k :: k in keys ==> k in edges
    ensures links == LinksFrom(edges, keys)
  {
    links := map[];
    assert keys[..|keys|] == keys && LinksFrom(edges, []) == map[];
    hide IncludeEdge, LinksFrom;
    for n := 0 to |keys|
      invariant links == LinksFrom(edges, keys[..n])
    {
      LinksNext(edges, keys, n);
      var key := keys[n];
      if |edges[key]| != 2 { continue; }
      var a, b := edges[key][0].triangle, edges[key][1].triangle;
      links := IncludeEdge(links, key.0, a, b);
      links := IncludeEdge(links, key.1, a, b);
    }
  }

  lemma {:induction false} LinksFromExact(edges: EdgeTable, keys: seq<Key>, n: nat)
    requires n <= |keys| && forall k :: k in keys ==> k in edges
    ensures IsLinks(LinksFrom(edges, keys[..n]), edges, FirstKeys(keys, n))
  {
    hide IsLinks, IncludeEdge, FirstKeys;
    if n == 0 {
      NoLinks(edges, keys);
    } else {
      LinksFromExact(edges, keys, n - 1);
      NextKeys(keys, n - 1);
      assert keys[..n][..n - 1] == keys[..n - 1];
      var links := LinksFrom(edges, keys[..n - 1]);
      assert keys[n - 1] in keys;
      if |edges[keys[n - 1]]| == 2 {
        EdgeIncluded(links, edges, FirstKeys(keys, n - 1), keys[n - 1]);
      } else {
        EdgeSkipped(links, edges, FirstKeys(keys, n - 1), keys[n - 1]);
      }
    }
  }

  lemma {:induction false} LinksAreExact(edges: EdgeTable)
    ensures IsLinks(LinksOf(edges), edges, edges.Keys)
  {
    hide IsLinks, FirstKeys, LinksFrom;
    KeyOrder();
    var keys := Ascending(edges.Keys, KeyLe);
    LinksFromExact(edges, keys, |keys|);
    AllKeys(keys, edges.Keys);
    assert keys[..|keys|] == keys;
  }

  lemma {:induction false} NoLinks(edges: EdgeTable, keys: seq<Key>)
    ensures IsLinks(map[], edges, FirstKeys(keys, 0))
  {
  }

  lemma {:induction false} EdgeSkipped(links: Links, edges: EdgeTable, done: set<Key>, key: Key)
    requires IsLinks(links, edges, done) && key in edges && |edges[key]| != 2
    ensures IsLinks(links, edges, done + {key})
  {
    hide LinkNeighbours, LinkedAt;
    forall v, x, y ensures LinkedAt(edges, done + {key}, v, x, y) <==> LinkedAt(edges, done, v, x, y) {
      LinkedAtMore(edges, done, key, v, x, y);
    }
  }

  lemma {:induction false} LinkIsSymmetric(links: Links, edges: EdgeTable, v: nat)
    requires IsLinks(links, edges, edges.Keys) && v in links
    requires forall key :: key in edges && |edges[key]| == 2 ==> edges[key][0].triangle != edges[key][1].triangle
    ensures Cycles.Symmetric(links[v])
    ensures forall a, b :: a in links[v] ==> (b in links[v][a] <==> LinkedAt(edges, edges.Keys, v, a, b))
    ensures forall a, b :: LinkedAt(edges, edges.Keys, v, a, b) ==> a in links[v]
  {
    var link := links[v];
    forall a, b ensures LinkedAt(edges, edges.Keys, v, a, b) <==> b in LinkNeighbours(links, v, a) {}
    forall a, b | a in link && b in link[a] ensures b in link && a in link[b] && a != b {
      assert LinkedAt(edges, edges.Keys, v, a, b);
      var key :| key in edges.Keys && key in edges && (key.0 == v || key.1 == v) && Joins(edges[key], a, b);
      assert Joins(edges[key], b, a);
      assert LinkedAt(edges, edges.Keys, v, b, a);
      assert a in LinkNeighbours(links, v, b);
    }
  }

  /** What the check demands of one vertex. */
  ghost predicate LinkAccepted(link: Cycles.Link, incident: seq<nat>)
    requires incident != []
  {
    |link| == |incident| && Cycles.DegreeTwo(link) && Cycles.Connected(link, incident[0])
  }

  /** The links of every vertex, as the check sees them. */
  ghost predicate VerticesAccepted(links: Links, incidence: IncidenceTable) {
    forall v :: v in incidence ==> v in links && incidence[v] != [] && LinkAccepted(links[v], incidence[v])
  }

  method CheckVertexLinks(edges: EdgeTable, incidence: IncidenceTable) returns (fault: Option<Reason>)
    requires forall key :: key in edges && |edges[key]| == 2 ==> edges[key][0].triangle != edges[key][1].triangle
    requires forall v :: v in incidence ==> incidence[v] != [] && (v in LinksOf(edges) ==> incidence[v][0] in LinksOf(edges)[v])
    ensures fault.None? <==> VerticesAccepted(LinksOf(edges), incidence)
    ensures fault.Some? ==> fault.value == NonManifold
  {
    hide IsLinks, LinksOf, Cycles.Connected, Cycles.Closed, Cycles.Symmetric;
    var links := BuildLinks(edges);
    LinksAreExact(edges);
    var rest := incidence.Keys;
    while rest != {}
      invariant rest <= incidence.Keys
      invariant forall v :: v in incidence && v !in rest ==> v in links && LinkAccepted(links[v], incidence[v])
      decreases rest
    {
      var v :| v in rest;
      if v !in links { return Some(NonManifold); }
      var ok := CheckLink(edges, links, v, incidence[v]);
      if !ok { return Some(NonManifold); }
      rest := rest - {v};
    }
    fault := None;
  }

  method CheckLink(edges: EdgeTable, links: Links, v: nat, incident: seq<nat>) returns (ok: bool)
    requires IsLinks(links, edges, edges.Keys) && v in links && incident != [] && incident[0] in links[v]
    requires forall key :: key in edges && |edges[key]| == 2 ==> edges[key][0].triangle != edges[key][1].triangle
    ensures ok <==> LinkAccepted(links[v], incident)
  {
    hide Cycles.Connected, Cycles.Closed, Cycles.Symmetric;
    var link := links[v];
    if |link| != |incident| { return false; }
    if exists t :: t in link && |link[t]| != 2 { return false; }
    assert Cycles.Symmetric(link) by { LinkIsSymmetric(links, edges, v); }
    var seen := Cycles.Explore(link, incident[0]);
    SameSize(seen, link.Keys);
    ok := |seen| == |incident|;
  }

  lemma {:induction false} SameSize(a: set<nat>, b: set<nat>)
    requires a <= b
    ensures |a| == |b| <==> a == b
  {
    assert b == a + (b - a);
  }

  // ---------- What acceptance means ----------

  /** Facets `s` and `t` lie on the two sides of an edge that ends at `v`. */
  ghost predicate ShareEdgeAt(tris: seq<Tri>, v: nat, s: nat, t: nat) {
    s < |tris| && t < |tris| &&
    exists u: nat :: (tris[s].HasEdge(u, v) && tris[t].HasEdge(v, u)) || (tris[s].HasEdge(v, u) && tris[t].HasEdge(u, v))
  }

  /** The facets at `v`, each once, around the vertex: neighbours share an edge at `v`, and so do the last and the first. */
  ghost predicate FacetCycle(tris: seq<Tri>, v: nat, c: seq<nat>) {
    && |c| >= 3
    && Cycles.Distinct(c)
    && (forall t :: t in c <==> t in Incident(tris, v))
    && (forall i :: 0 <= i < |c| - 1 ==> ShareEdgeAt(tris, v, c[i], c[i + 1]))
    && ShareEdgeAt(tris, v, c[|c| - 1], c[0])
  }

  lemma {:induction false} LinkedMeansShared(tris: seq<Tri>, edges: EdgeTable, v: nat, s: nat, t: nat)
    requires AllProper(tris) && IsTable(edges, tris) && ClosedOriented(tris)
    ensures LinkedAt(edges, edges.Keys, v, s, t) <==> ShareEdgeAt(tris, v, s, t)
  {
    hide Tri.HasEdge, ClosedOriented, AllProper;
    if LinkedAt(edges, edges.Keys, v, s, t) {
      var key :| key in edges.Keys && key in edges && (key.0 == v || key.1 == v) && Joins(edges[key], s, t);
      JoinedShare(tris, key, s, t);
      var u, w :| tris[s].HasEdge(u, w) && tris[t].HasEdge(w, u) && KeyOf(u, w) == key;
      assert u == v || w == v;
    }
    if ShareEdgeAt(tris, v, s, t) {
      var u: nat :| (tris[s].HasEdge(u, v) && tris[t].HasEdge(v, u)) || (tris[s].HasEdge(v, u) && tris[t].HasEdge(u, v));
      var a, b := if tris[s].HasEdge(u, v) && tris[t].HasEdge(v, u) then u else v,
                  if tris[s].HasEdge(u, v) && tris[t].HasEdge(v, u) then v else u;
      SharedJoins(tris, s, t, a, b);
      var key := KeyOf(a, b);
      assert key in edges && (key.0 == v || key.1 == v) && Joins(edges[key], s, t);
    }
  }

  /** A corner of a triangle lies on exactly two of its edges. */
  lemma {:induction false} CornerEdges(tri: Tri, v: nat) returns (before: nat, after: nat)
    requires tri.Proper() && tri.HasVertex(v)
    ensures tri.HasEdge(before, v) && tri.HasEdge(v, after) && before != after
    ensures forall u :: tri.HasEdge(u, v) ==> u == before
    ensures forall u :: tri.HasEdge(v, u) ==> u == after
    ensures tri.Facet() == {before, v, after}
  {
    before, after := if v == tri.i then tri.k else if v == tri.j then tri.i else tri.j,
                     if v == tri.i then tri.j else if v == tri.j then tri.k else tri.i;
  }

  lemma {:induction false} PassesThrough(tri: Tri, x: nat, v: nat, y: nat)
    requires tri.Proper() && tri.HasEdge(x, v) && tri.HasEdge(v, y)
    ensures tri.HasVertex(v) && tri.Facet() == {y, v, x}
  {
    var before, after := CornerEdges(tri, v);
  }

  /** In a closed oriented mesh without repeated facets, a facet has exactly two neighbours around each of its vertices. */
  lemma {:induction false} TwoAround(tris: seq<Tri>, vertices: seq<Vec>, v: nat, s: nat) returns (a: nat, b: nat)
    requires WellFormed(tris, vertices) && ClosedOriented(tris) && s < |tris| && tris[s].HasVertex(v)
    ensures a != b && forall t :: ShareEdgeAt(tris, v, s, t) <==> t == a || t == b
    ensures a < |tris| && b < |tris| && tris[a].HasVertex(v) && tris[b].HasVertex(v)
  {
    hide Tri.HasEdge, Tri.Facet, Placed, Tri.HasVertex, ClosedOriented, Uses;
    assert AllProper(tris);
    var before, after := CornerEdges(tris[s], v);
    a := Mate(tris, s, before, v);
    b := Mate(tris, s, v, after);
    MateAtVertex(tris[a], v, before);
    MateAtVertex(tris[b], v, after);
    assert ShareEdgeAt(tris, v, s, a) && ShareEdgeAt(tris, v, s, b);
    if a == b {
      PassesThrough(tris[a], after, v, before);
    }
  }

  lemma {:induction false} MateAtVertex(tri: Tri, v: nat, u: nat)
    ensures tri.HasEdge(u, v) || tri.HasEdge(v, u) ==> tri.HasVertex(v)
  {
  }

  /** The link of a vertex: its facets, two neighbours each, exactly those sharing an edge there. */
  lemma {:induction false} VertexLink(tris: seq<Tri>, vertices: seq<Vec>, edges: EdgeTable, v: nat)
    requires WellFormed(tris, vertices) && IsTable(edges, tris) && ClosedOriented(tris) && Incident(tris, v) != []
    ensures v in LinksOf(edges)
    ensures var link := LinksOf(edges)[v];
      && Cycles.Symmetric(link) && Cycles.DegreeTwo(link)
      && (forall t :: t in link <==> t in Incident(tris, v))
      && |link| == |Incident(tris, v)|
      && forall s, t :: s in link ==> (t in link[s] <==> ShareEdgeAt(tris, v, s, t))
  {
    hide ShareEdgeAt, LinkedAt, LinksOf, IsTable, ClosedOriented, Placed, Tri.HasVertex, Tri.Facet;
    LinksAreExact(edges);
    IncidentIsExact(tris, v);
    TableMeaning(tris, edges);
    var links := LinksOf(edges);
    forall s, t ensures LinkedAt(edges, edges.Keys, v, s, t) <==> ShareEdgeAt(tris, v, s, t) {
      LinkedMeansShared(tris, edges, v, s, t);
    }
    forall s, t ensures t in LinkNeighbours(links, v, s) <==> ShareEdgeAt(tris, v, s, t) {}
    forall s | s in Incident(tris, v) ensures v in links && s in links[v] && |links[v][s]| == 2 {
      var a, b := TwoAround(tris, vertices, v, s);
      assert a in LinkNeighbours(links, v, s);
      assert links[v][s] == {a, b};
    }
    assert Incident(tris, v)[0] in Incident(tris, v);
    forall s | s in links[v] ensures s in Incident(tris, v) {
      var t :| t in links[v][s];
      assert t in LinkNeighbours(links, v, s);
      SharedIsIncident(tris, v, s, t);
    }
    LinkIsSymmetric(links, edges, v);
    DistinctSize(Incident(tris, v), links[v].Keys);
  }

  lemma {:induction false} SharedIsIncident(tris: seq<Tri>, v: nat, s: nat, t: nat)
    requires ShareEdgeAt(tris, v, s, t)
    ensures s < |tris| && tris[s].HasVertex(v)
  {
  }

  lemma {:induction false} DistinctSize(p: seq<nat>, s: set<nat>)
    requires forall i, j :: 0 <= i < j < |p| ==> p[i] < p[j]
    requires forall x :: x in s <==> x in p
    ensures |s| == |p|
  {
    if p == [] {
      assert s == {};
    } else {
      var n := |p| - 1;
      assert p[n] in p;
      forall x ensures x in s - {p[n]} <==> x in p[..n] {}
      DistinctSize(p[..n], s - {p[n]});
    }
  }

  /**
   * On a closed oriented mesh the link check of a vertex accepts exactly when the facets there can be listed as one
   * cycle of at least three, neighbours sharing an edge at the vertex.
   */
  lemma {:induction false} AcceptedIffCycle(tris: seq<Tri>, vertices: seq<Vec>, edges: EdgeTable, v: nat)
    requires WellFormed(tris, vertices) && IsTable(edges, tris) && ClosedOriented(tris) && Incident(tris, v) != []
    ensures v in LinksOf(edges)
    ensures LinkAccepted(LinksOf(edges)[v], Incident(tris, v)) <==> exists c :: FacetCycle(tris, v, c)
  {
    hide ShareEdgeAt, LinksOf, IsTable, ClosedOriented, WellFormed, Cycles.Connected, Cycles.Symmetric, Cycles.DegreeTwo;
    VertexLink(tris, vertices, edges, v);
    var link := LinksOf(edges)[v];
    var start := Incident(tris, v)[0];
    assert start in Incident(tris, v);
    if LinkAccepted(link, Incident(tris, v)) {
      var c := Cycles.ConnectedIsCycle(link, start);
      assert FacetCycle(tris, v, c);
    }
    if c :| FacetCycle(tris, v, c) {
      assert Cycles.Cycle(link, c);
      Cycles.CycleIsConnected(link, c, start);
    }
  }

  /** Every vertex in use has its facets in one cycle around it. */
  ghost predicate ManifoldVertices(tris: seq<Tri>) {
    forall v: nat :: Incident(tris, v) != [] ==> exists c :: FacetCycle(tris, v, c)
  }

  /** The vertex check as a whole: it accepts exactly the meshes whose vertices are all surrounded by one cycle of facets. */
  lemma {:induction false} VertexCheckMeaning(tris: seq<Tri>, vertices: seq<Vec>, edges: EdgeTable, incidence: IncidenceTable)
    requires WellFormed(tris, vertices) && IsTable(edges, tris) && ClosedOriented(tris) && IsIncidence(incidence, tris)
    ensures VerticesAccepted(LinksOf(edges), incidence) <==> ManifoldVertices(tris)
    ensures forall v :: v in incidence ==> incidence[v] != [] && v in LinksOf(edges) && incidence[v][0] in LinksOf(edges)[v]
  {
    hide LinksOf, IsTable, ClosedOriented, WellFormed, LinkAccepted, FacetCycle, Incident;
    forall v: nat | Incident(tris, v) != []
      ensures v in incidence && incidence[v] == Incident(tris, v) && v in LinksOf(edges) && incidence[v][0] in LinksOf(edges)[v]
      ensures LinkAccepted(LinksOf(edges)[v], Incident(tris, v)) <==> exists c :: FacetCycle(tris, v, c)
    {
      AcceptedIffCycle(tris, vertices, edges, v);
      VertexLink(tris, vertices, edges, v);
      assert Incident(tris, v)[0] in Incident(tris, v);
    }
  }
}
