/** Which triangles use which edge, in which direction, and the check that the mesh is closed and oriented. */
module MeshEdges {
  import opened Wrappers
  import opened Ordering
  import opened MeshModel

  /** An undirected edge: the smaller vertex number first. */
  type Key = (nat, nat)

  function KeyOf(u: nat, v: nat): Key { if u < v then (u, v) else (v, u) }

  predicate KeyLe(a: Key, b: Key) { a.0 < b.0 || (a.0 == b.0 && a.1 <= b.1) }

  lemma {:induction false} KeyOrder()
    ensures TotalOrder(KeyLe)
  {
  }

  datatype EdgeUse = EdgeUse(triangle: nat, start: nat, end: nat)

  type EdgeTable = map<Key, seq<EdgeUse>>

  /** How a proper triangle uses an edge: at most once. */
  function UseIn(tri: Tri, t: nat, key: Key): seq<EdgeUse> {
    if KeyOf(tri.i, tri.j) == key then [EdgeUse(t, tri.i, tri.j)]
    else if KeyOf(tri.j, tri.k) == key then [EdgeUse(t, tri.j, tri.k)]
    else if KeyOf(tri.k, tri.i) == key then [EdgeUse(t, tri.k, tri.i)]
    else []
  }

  /** All uses of an edge, in triangle order. */
  function Uses(tris: seq<Tri>, key: Key): seq<EdgeUse> {
    if tris == [] then [] else
    Uses(tris[..|tris| - 1], key) + UseIn(tris[|tris| - 1], |tris| - 1, key)
  }

  ghost predicate AllProper(tris: seq<Tri>) {
    forall t :: 0 <= t < |tris| ==> tris[t].Proper()
  }

  /** `x` is a use of `key`: its triangle runs along the edge in that direction. */
  ghost predicate IsUse(tris: seq<Tri>, key: Key, x: EdgeUse) {
    x.triangle < |tris| && tris[x.triangle].HasEdge(x.start, x.end) && KeyOf(x.start, x.end) == key
  }

  lemma {:induction false} UsesAreExact(tris: seq<Tri>, key: Key)
    requires AllProper(tris)
    ensures forall x :: x in Uses(tris, key) <==> IsUse(tris, key, x)
    ensures forall i, j :: 0 <= i < j < |Uses(tris, key)| ==> Uses(tris, key)[i].triangle < Uses(tris, key)[j].triangle
  {
    if tris != [] {
      var n := |tris| - 1;
      UsesAreExact(tris[..n], key);
      forall x ensures x in Uses(tris, key) <==> IsUse(tris, key, x) {
        assert x in Uses(tris, key) <==> x in Uses(tris[..n], key) || x in UseIn(tris[n], n, key);
        assert x.triangle < n ==> (IsUse(tris, key, x) <==> IsUse(tris[..n], key, x));
      }
      forall i | 0 <= i < |Uses(tris[..n], key)| ensures Uses(tris[..n], key)[i].triangle < n {
        assert Uses(tris[..n], key)[i] in Uses(tris[..n], key);
      }
    }
  }

  // ---------- Building the table ----------

  ghost predicate IsTable(edges: EdgeTable, tris: seq<Tri>) {
    forall key: Key :: (key in edges <==> Uses(tris, key) != []) && (key in edges ==> edges[key] == Uses(tris, key))
  }

  function UsesSoFar(edges: EdgeTable, key: Key): seq<EdgeUse> {
    if key in edges then edges[key] else []
  }

  function Push(edges: EdgeTable, t: nat, u: nat, v: nat): EdgeTable {
    edges[KeyOf(u, v) := UsesSoFar(edges, KeyOf(u, v)) + [EdgeUse(t, u, v)]]
  }

  lemma {:induction false} PushAdds(edges: EdgeTable, t: nat, u: nat, v: nat, key: Key)
    ensures UsesSoFar(Push(edges, t, u, v), key) == UsesSoFar(edges, key) + if KeyOf(u, v) == key then [EdgeUse(t, u, v)] else []
    ensures key in Push(edges, t, u, v) <==> key in edges || KeyOf(u, v) == key
  {
  }

  lemma {:induction false} TriangleAddedAt(edges: EdgeTable, tri: Tri, n: nat, key: Key)
    requires tri.Proper()
    ensures var after := Push(Push(Push(edges, n, tri.i, tri.j), n, tri.j, tri.k), n, tri.k, tri.i);
      && UsesSoFar(after, key) == UsesSoFar(edges, key) + UseIn(tri, n, key)
      && (key in after <==> key in edges || UseIn(tri, n, key) != [])
  {
    hide Push, UsesSoFar;
    var one := Push(edges, n, tri.i, tri.j);
    var two := Push(one, n, tri.j, tri.k);
    PushAdds(edges, n, tri.i, tri.j, key);
    PushAdds(one, n, tri.j, tri.k, key);
    PushAdds(two, n, tri.k, tri.i, key);
  }

  lemma {:induction false} TriangleAdded(edges: EdgeTable, tris: seq<Tri>, n: nat)
    requires n < |tris| && tris[n].Proper() && IsTable(edges, tris[..n])
    ensures var t := tris[n];
      IsTable(Push(Push(Push(edges, n, t.i, t.j), n, t.j, t.k), n, t.k, t.i), tris[..n + 1])
  {
    hide Push, UseIn;
    var t := tris[n];
    var after := Push(Push(Push(edges, n, t.i, t.j), n, t.j, t.k), n, t.k, t.i);
    assert tris[..n + 1][..n] == tris[..n];
    forall key: Key ensures (key in after <==> Uses(tris[..n + 1], key) != []) && (key in after ==> after[key] == Uses(tris[..n + 1], key)) {
      TriangleAddedAt(edges, t, n, key);
      assert UsesSoFar(edges, key) == Uses(tris[..n], key);
    }
  }

  method BuildEdges(tris: seq<Tri>) returns (edges: EdgeTable)
    requires AllProper(tris)
    ensures IsTable(edges, tris)
  {
    hide IsTable, Push;
    edges := map[];
    assert IsTable(edges, tris[..0]) by { EmptyTable(tris); }
    for n := 0 to |tris|
      invariant IsTable(edges, tris[..n])
    {
      TriangleAdded(edges, tris, n);
      var t := tris[n];
      edges := Push(edges, n, t.i, t.j);
      edges := Push(edges, n, t.j, t.k);
      edges := Push(edges, n, t.k, t.i);
    }
    assert tris[..|tris|] == tris;
  }

  lemma {:induction false} EmptyTable(tris: seq<Tri>)
    ensures IsTable(map[], tris[..0])
  {
    assert tris[..0] == [];
  }

  /** Triangles at a vertex, in triangle order. */
  function Incident(tris: seq<Tri>, v: nat): seq<nat> {
    if tris == [] then [] else
    var n := |tris| - 1;
    Incident(tris[..n], v) + if tris[n].HasVertex(v) then [n] else []
  }

  lemma {:induction false} IncidentIsExact(tris: seq<Tri>, v: nat)
    ensures forall t: nat :: t in Incident(tris, v) <==> t < |tris| && tris[t].HasVertex(v)
    ensures forall i, j :: 0 <= i < j < |Incident(tris, v)| ==> Incident(tris, v)[i] < Incident(tris, v)[j]
  {
    if tris != [] {
      var n := |tris| - 1;
      IncidentIsExact(tris[..n], v);
      forall t: nat ensures t in Incident(tris, v) <==> t < |tris| && tris[t].HasVertex(v) {
        assert t in Incident(tris, v) <==> t in Incident(tris[..n], v) || (t == n && tris[n].HasVertex(v));
      }
      forall i | 0 <= i < |Incident(tris[..n], v)| ensures Incident(tris[..n], v)[i] < n {
        assert Incident(tris[..n], v)[i] in Incident(tris[..n], v);
      }
    }
  }

  type IncidenceTable = map<nat, seq<nat>>

  ghost predicate IsIncidence(incidence: IncidenceTable, tris: seq<Tri>) {
    forall v: nat :: (v in incidence <==> Incident(tris, v) != []) && (v in incidence ==> incidence[v] == Incident(tris, v))
  }

  function AtVertex(incidence: IncidenceTable, v: nat): seq<nat> {
    if v in incidence then incidence[v] else []
  }

  function PushIncident(incidence: IncidenceTable, t: nat, v: nat): IncidenceTable {
    incidence[v := AtVertex(incidence, v) + [t]]
  }

  method BuildIncidence(tris: seq<Tri>) returns (incidence: IncidenceTable)
    requires AllProper(tris)
    ensures IsIncidence(incidence, tris)
  {
    incidence := map[];
    assert tris[..0] == [];
    for n := 0 to |tris|
      invariant IsIncidence(incidence, tris[..n])
    {
      var t := tris[n];
      ghost var before := incidence;
      assert tris[..n + 1][..n] == tris[..n];
      incidence := PushIncident(incidence, n, t.i);
      incidence := PushIncident(incidence, n, t.j);
      incidence := PushIncident(incidence, n, t.k);
      forall v: nat ensures AtVertex(incidence, v) == Incident(tris[..n + 1], v) && (v in incidence <==> Incident(tris[..n + 1], v) != []) {
        assert AtVertex(before, v) == Incident(tris[..n], v);
      }
    }
    assert tris[..|tris|] == tris;
  }

  // ---------- Closed and oriented ----------

  /** Exactly two uses, in opposite directions. */
  predicate SoundUses(uses: seq<EdgeUse>) {
    |uses| == 2 && !(uses[0].start == uses[1].start && uses[0].end == uses[1].end)
  }

  /** Every edge of the mesh is used exactly twice, once in each direction. */
  ghost predicate ClosedOriented(tris: seq<Tri>) {
    forall key: Key :: Uses(tris, key) != [] ==> SoundUses(Uses(tris, key))
  }

  /** A used edge of a closed oriented mesh has two users, and each runs the way the other does not. */
  lemma {:induction false} TwoUses(tris: seq<Tri>, t: nat, u: nat, v: nat) returns (m: nat)
    requires AllProper(tris) && ClosedOriented(tris) && t < |tris| && tris[t].HasEdge(u, v)
    ensures m < |tris| && m != t && tris[m].HasEdge(v, u) && u != v
    ensures var uses := Uses(tris, KeyOf(u, v));
      uses == [EdgeUse(t, u, v), EdgeUse(m, v, u)] || uses == [EdgeUse(m, v, u), EdgeUse(t, u, v)]
  {
    hide Tri.HasEdge;
    var key := KeyOf(u, v);
    var uses := Uses(tris, key);
    UsesAreExact(tris, key);
    assert IsUse(tris, key, EdgeUse(t, u, v));
    assert uses[0] in uses && uses[1] in uses && IsUse(tris, key, uses[0]) && IsUse(tris, key, uses[1]);
    EdgeEndsDiffer(tris[t], u, v);
    assert uses == [uses[0], uses[1]];
    m := if uses[0] == EdgeUse(t, u, v) then uses[1].triangle else uses[0].triangle;
  }

  lemma {:induction false} EdgeEndsDiffer(tri: Tri, u: nat, v: nat)
    requires tri.Proper() && tri.HasEdge(u, v)
    ensures u != v && !tri.HasEdge(v, u)
  {
  }

  /** The triangle across an edge: the only one that runs along it the other way; and nobody else runs along it this way. */
  lemma {:induction false} Mate(tris: seq<Tri>, t: nat, u: nat, v: nat) returns (m: nat)
    requires AllProper(tris) && ClosedOriented(tris) && t < |tris| && tris[t].HasEdge(u, v)
    ensures m < |tris| && m != t && tris[m].HasEdge(v, u) && u != v
    ensures forall s :: 0 <= s < |tris| && tris[s].HasEdge(u, v) ==> s == t
    ensures forall s :: 0 <= s < |tris| && tris[s].HasEdge(v, u) ==> s == m
    ensures var uses := Uses(tris, KeyOf(u, v));
      uses == [EdgeUse(t, u, v), EdgeUse(m, v, u)] || uses == [EdgeUse(m, v, u), EdgeUse(t, u, v)]
  {
    hide ClosedOriented;
    m := TwoUses(tris, t, u, v);
    var key := KeyOf(u, v);
    UsesAreExact(tris, key);
    forall s | 0 <= s < |tris| && tris[s].HasEdge(u, v) ensures s == t {
      assert IsUse(tris, key, EdgeUse(s, u, v));
    }
    forall s | 0 <= s < |tris| && tris[s].HasEdge(v, u) ensures s == m {
      assert IsUse(tris, key, EdgeUse(s, v, u));
    }
  }

  /** Two triangles on the two sides of one edge. */
  ghost predicate ShareEdge(tris: seq<Tri>, s: nat, t: nat) {
    s < |tris| && t < |tris| && exists u, v :: tris[s].HasEdge(u, v) && tris[t].HasEdge(v, u)
  }

  /** The edge's two users are `s` and `t`, in either order. */
  ghost predicate Joins(uses: seq<EdgeUse>, s: nat, t: nat) {
    |uses| == 2 &&
    ((uses[0].triangle == s && uses[1].triangle == t) || (uses[0].triangle == t && uses[1].triangle == s))
  }

  ghost predicate NeighborsOf(edges: EdgeTable, keys: set<Key>, neighbors: seq<seq<nat>>) {
    forall s, t :: 0 <= s < |neighbors| ==>
      (t in neighbors[s] <==> exists key :: key in keys && key in edges && Joins(edges[key], s, t))
  }

  /** The first unsound edge in table order, and why. */
  ghost predicate FirstUnsound(edges: EdgeTable, key: Key, reason: Reason) {
    && key in edges
    && (forall k :: k in edges && k != key && KeyLe(k, key) ==> SoundUses(edges[k]))
    && match reason
       case OpenBoundary => |edges[key]| == 1
       case NonManifold => |edges[key]| > 2
       case InconsistentOrientation => |edges[key]| == 2 && !SoundUses(edges[key])
       case _ => false
  }

  lemma {:induction false} NeighborAdded(edges: EdgeTable, done: set<Key>, key: Key, before: seq<seq<nat>>, after: seq<seq<nat>>)
    requires NeighborsOf(edges, done, before) && key in edges && |edges[key]| == 2
    requires edges[key][0].triangle < |before| && edges[key][1].triangle < |before|
    requires edges[key][0].triangle != edges[key][1].triangle
    requires var a, b := edges[key][0].triangle, edges[key][1].triangle;
      after == before[a := before[a] + [b]][b := before[b] + [a]]
    ensures NeighborsOf(edges, done + {key}, after)
  {
    forall s, t | 0 <= s < |after|
      ensures t in after[s] <==> exists k :: k in done + {key} && k in edges && Joins(edges[k], s, t)
    {
      assert t in after[s] <==> t in before[s] || Joins(edges[key], s, t);
      if t in before[s] {
        var k :| k in done && k in edges && Joins(edges[k], s, t);
        assert k in done + {key};
      }
      if Joins(edges[key], s, t) { assert key in done + {key}; }
    }
  }

  /** What the check of one edge needs from the table. */
  ghost predicate Countable(edges: EdgeTable, count: nat) {
    forall key :: key in edges ==>
      && edges[key] != [] && (forall x :: x in edges[key] ==> x.triangle < count)
      && (|edges[key]| == 2 ==> edges[key][0].triangle != edges[key][1].triangle)
  }

  function UnsoundReason(uses: seq<EdgeUse>): Reason {
    if |uses| == 1 then OpenBoundary else if |uses| > 2 then NonManifold else InconsistentOrientation
  }

  lemma {:induction false} UnsoundIsFirst(edges: EdgeTable, keys: seq<Key>, n: nat, count: nat)
    requires n < |keys| && Countable(edges, count) && (forall k :: k in keys <==> k in edges)
    requires forall i, j :: 0 <= i < j < |keys| ==> keys[i] != keys[j] && KeyLe(keys[i], keys[j])
    requires SoundBefore(edges, keys, n) && !SoundUses(edges[keys[n]])
    ensures FirstUnsound(edges, keys[n], UnsoundReason(edges[keys[n]]))
  {
    hide SoundUses;
    forall k | k in edges && k != keys[n] && KeyLe(k, keys[n]) ensures SoundUses(edges[k]) {
      var m :| 0 <= m < |keys| && keys[m] == k;
      assert m < n;
    }
    assert keys[n] in keys;
  }

  ghost predicate SoundBefore(edges: EdgeTable, keys: seq<Key>, n: nat)
    requires n <= |keys| && forall k :: k in keys ==> k in edges
  {
    forall i :: 0 <= i < n ==> SoundUses(edges[keys[i]])
  }

  lemma {:induction false} NoneYet(edges: EdgeTable, keys: seq<Key>)
    requires forall k :: k in keys ==> k in edges
    ensures SoundBefore(edges, keys, 0)
  {
  }

  lemma {:induction false} SoundNext(edges: EdgeTable, keys: seq<Key>, n: nat)
    requires n < |keys| && (forall k :: k in keys ==> k in edges)
    requires SoundBefore(edges, keys, n) && SoundUses(edges[keys[n]])
    ensures SoundBefore(edges, keys, n + 1)
  {
    hide SoundUses;
  }

  lemma {:induction false} AllSound(edges: EdgeTable, keys: seq<Key>)
    requires (forall k :: k in keys <==> k in edges) && SoundBefore(edges, keys, |keys|)
    ensures forall key :: key in edges ==> SoundUses(edges[key])
  {
    hide SoundUses;
  }

  /** Check every edge in table order and collect the facets across each one. */
  method CheckEdges(edges: EdgeTable, count: nat) returns (r: Result<seq<seq<nat>>, Reason>)
    requires Countable(edges, count)
    ensures r.Ok? ==> forall key :: key in edges ==> SoundUses(edges[key])
    ensures r.Ok? ==> |r.value| == count && NeighborsOf(edges, edges.Keys, r.value)
    ensures r.Err? ==> exists key :: FirstUnsound(edges, key, r.error)
  {
    hide Joins, NeighborsOf, FirstUnsound, SoundUses, KeyLe, Countable, UnsoundReason, FirstKeys, SoundBefore;
    KeyOrder();
    var keys := Ascending(edges.Keys, KeyLe);
    var neighbors := seq(count, _ => []);
    assert NeighborsOf(edges, FirstKeys(keys, 0), neighbors) by { NoNeighbors(edges, keys, neighbors); }
    NoneYet(edges, keys);
    for n := 0 to |keys|
      invariant |neighbors| == count && NeighborsOf(edges, FirstKeys(keys, n), neighbors)
      invariant SoundBefore(edges, keys, n)
    {
      var key := keys[n];
      assert key in keys;
      var uses := edges[key];
      if !SoundUses(uses) {
        UnsoundIsFirst(edges, keys, n, count);
        return Err(UnsoundReason(uses));
      }
      neighbors := AcrossEdge(edges, FirstKeys(keys, n), key, neighbors);
      NextKeys(keys, n);
      SoundNext(edges, keys, n);
    }
    AllKeys(keys, edges.Keys);
    AllSound(edges, keys);
    r := Ok(neighbors);
  }

  method AcrossEdge(edges: EdgeTable, ghost done: set<Key>, key: Key, before: seq<seq<nat>>) returns (after: seq<seq<nat>>)
    requires Countable(edges, |before|) && NeighborsOf(edges, done, before) && key in edges && SoundUses(edges[key])
    ensures |after| == |before| && NeighborsOf(edges, done + {key}, after)
  {
    var a, b := edges[key][0].triangle, edges[key][1].triangle;
    assert edges[key][0] in edges[key] && edges[key][1] in edges[key];
    after := before[a := before[a] + [b]];
    after := after[b := after[b] + [a]];
    NeighborAdded(edges, done, key, before, after);
  }

  ghost function FirstKeys(keys: seq<Key>, n: nat): set<Key>
    requires n <= |keys|
  {
    set k | k in keys[..n]
  }

  lemma {:induction false} NextKeys(keys: seq<Key>, n: nat)
    requires n < |keys|
    ensures FirstKeys(keys, n + 1) == FirstKeys(keys, n) + {keys[n]}
  {
    assert keys[..n + 1] == keys[..n] + [keys[n]];
  }

  lemma {:induction false} AllKeys(keys: seq<Key>, s: set<Key>)
    requires forall k :: k in keys <==> k in s
    ensures FirstKeys(keys, |keys|) == s
  {
    assert keys[..|keys|] == keys;
  }

  lemma {:induction false} NoNeighbors(edges: EdgeTable, keys: seq<Key>, neighbors: seq<seq<nat>>)
    requires forall s :: 0 <= s < |neighbors| ==> neighbors[s] == []
    ensures NeighborsOf(edges, FirstKeys(keys, 0), neighbors)
  {
  }

  /** Sound tables mean a closed oriented mesh, and table neighbours are the facets sharing an edge. */
  lemma {:induction false} TableMeaning(tris: seq<Tri>, edges: EdgeTable)
    requires AllProper(tris) && IsTable(edges, tris)
    ensures (forall key :: key in edges ==> SoundUses(edges[key])) <==> ClosedOriented(tris)
    ensures Countable(edges, |tris|)
  {
    forall key | key in edges
      ensures edges[key] != [] && forall x :: x in edges[key] ==> x.triangle < |tris|
      ensures |edges[key]| == 2 ==> edges[key][0].triangle != edges[key][1].triangle
    {
      UsesAreExact(tris, key);
    }
  }

  lemma {:induction false} NeighborsShareEdges(tris: seq<Tri>, edges: EdgeTable, neighbors: seq<seq<nat>>, s: nat, t: nat)
    requires AllProper(tris) && IsTable(edges, tris) && ClosedOriented(tris)
    requires |neighbors| == |tris| && NeighborsOf(edges, edges.Keys, neighbors) && s < |tris|
    ensures t in neighbors[s] <==> ShareEdge(tris, s, t)
  {
    if t in neighbors[s] {
      var key :| key in edges.Keys && key in edges && Joins(edges[key], s, t);
      JoinedShare(tris, key, s, t);
    }
    if ShareEdge(tris, s, t) {
      var u, v :| tris[s].HasEdge(u, v) && tris[t].HasEdge(v, u);
      SharedJoins(tris, s, t, u, v);
      assert KeyOf(u, v) in edges.Keys;
    }
  }

  lemma {:induction false} JoinedShare(tris: seq<Tri>, key: Key, s: nat, t: nat)
    requires AllProper(tris) && ClosedOriented(tris) && Joins(Uses(tris, key), s, t)
    ensures ShareEdge(tris, s, t) && s != t
    ensures exists u, v :: tris[s].HasEdge(u, v) && tris[t].HasEdge(v, u) && KeyOf(u, v) == key
  {
    var uses := Uses(tris, key);
    UsesAreExact(tris, key);
    assert uses[0] in uses && uses[1] in uses;
    assert IsUse(tris, key, uses[0]) && IsUse(tris, key, uses[1]);
    var x := if uses[0].triangle == s then uses[0] else uses[1];
    assert tris[s].HasEdge(x.start, x.end) && tris[t].HasEdge(x.end, x.start);
  }

  lemma {:induction false} SharedJoins(tris: seq<Tri>, s: nat, t: nat, u: nat, v: nat)
    requires AllProper(tris) && ClosedOriented(tris) && s < |tris| && t < |tris|
    requires tris[s].HasEdge(u, v) && tris[t].HasEdge(v, u)
    ensures s != t && Joins(Uses(tris, KeyOf(u, v)), s, t)
  {
    var m := Mate(tris, s, u, v);
    var uses := Uses(tris, KeyOf(u, v));
    UsesAreExact(tris, KeyOf(u, v));
    assert EdgeUse(s, u, v) in uses && EdgeUse(t, v, u) in uses;
  }
}
