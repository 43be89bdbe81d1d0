/** The mesh check from end to end, and what its report guarantees. */
module MeshVerify {
  import opened Wrappers
  import opened MeshModel
  import opened MeshEdges
  import opened MeshVertexLinks
  import opened MeshShells
  import opened MeshVolume

  /** The two floating-point tests between shells, left uninterpreted. */
  datatype Geometry = Geometry(
    inside: (seq<Raw>, seq<Raw>) -> bool,
    crosses: (seq<Raw>, seq<Raw>) -> bool)

  datatype Report = Report(
    triangleCount: nat, uniqueVertexCount: nat, shellCount: nat, cavityShellCount: nat,
    shellVolumes: seq<real>, signedVolume: real, materialVolume: real)

  function Facets(raws: seq<Raw>, shell: seq<nat>): seq<Raw>
    requires Within(shell, |raws|)
  {
    seq(|shell|, i requires 0 <= i < |shell| => raws[shell[i]])
  }

  /** A cavity strictly inside the exterior, not touching it. */
  predicate Contained(geo: Geometry, parts: seq<seq<Raw>>, k: nat, e: nat)
    requires k < |parts| && e < |parts|
  {
    geo.inside(parts[k], parts[e]) && !geo.crosses(parts[k], parts[e])
  }

  /** Two cavities that neither touch nor nest. */
  predicate Apart(geo: Geometry, parts: seq<seq<Raw>>, i: nat, j: nat)
    requires i < |parts| && j < |parts|
  {
    !geo.crosses(parts[i], parts[j]) && !geo.inside(parts[i], parts[j]) && !geo.inside(parts[j], parts[i])
  }

  /** One positively oriented exterior holding separate, strictly negative cavities, with material left. */
  ghost predicate Material(geo: Geometry, parts: seq<seq<Raw>>, volumes: seq<real>, e: nat)
    requires |parts| == |volumes|
  {
    && e < |volumes| && volumes[e] > 0.0
    && (forall k :: 0 <= k < |volumes| && k != e ==> volumes[k] < 0.0 && Contained(geo, parts, k, e))
    && (forall i, j :: 0 <= i < j < |volumes| && volumes[i] < 0.0 && volumes[j] < 0.0 ==> Apart(geo, parts, i, j))
    && Total(volumes) > 0.0
  }

  /** Why a set of closed shells is not a material body. */
  ghost predicate NotMaterial(geo: Geometry, parts: seq<seq<Raw>>, volumes: seq<real>, reason: Reason)
    requires |parts| == |volumes|
  {
    match reason
    case NonPositiveVolume =>
      || (forall k :: 0 <= k < |volumes| ==> volumes[k] <= 0.0)
      || (exists k :: 0 <= k < |volumes| && volumes[k] == 0.0)
      || Total(volumes) <= 0.0
    case MaterialBodyCount => exists k, l :: 0 <= k < l < |volumes| && volumes[k] > 0.0 && volumes[l] > 0.0
    case CavityContainment =>
      || (exists k, e :: 0 <= k < |volumes| && 0 <= e < |volumes| && volumes[k] < 0.0 && volumes[e] > 0.0 && !Contained(geo, parts, k, e))
      || (exists i, j :: 0 <= i < j < |volumes| && volumes[i] < 0.0 && volumes[j] < 0.0 && !Apart(geo, parts, i, j))
    case _ => false
  }

  method PositiveShells(volumes: seq<real>) returns (positive: seq<nat>)
    ensures forall k :: k in positive <==> 0 <= k < |volumes| && volumes[k] > 0.0
    ensures forall i, j :: 0 <= i < j < |positive| ==> positive[i] < positive[j]
  {
    positive := [];
    for n := 0 to |volumes|
      invariant forall k :: k in positive <==> 0 <= k < n && volumes[k] > 0.0
      invariant forall i :: 0 <= i < |positive| ==> positive[i] < n
      invariant forall i, j :: 0 <= i < j < |positive| ==> positive[i] < positive[j]
    {
      if volumes[n] > 0.0 { positive := positive + [n]; }
    }
  }

  method CheckCavities(geo: Geometry, parts: seq<seq<Raw>>, volumes: seq<real>, e: nat) returns (r: Result<nat, Reason>)
    requires |parts| == |volumes| && e < |volumes| && volumes[e] > 0.0
    requires forall k :: 0 <= k < |volumes| && k != e ==> volumes[k] <= 0.0
    ensures r.Ok? ==> r.value == |volumes| - 1
    ensures r.Ok? ==> forall k :: 0 <= k < |volumes| && k != e ==> volumes[k] < 0.0 && Contained(geo, parts, k, e)
    ensures r.Err? ==> NotMaterial(geo, parts, volumes, r.error)
  {
    hide Contained, Apart, Total;
    var cavities := 0;
    for k := 0 to |volumes|
      invariant cavities == if k <= e then k else k - 1
      invariant forall i :: 0 <= i < k && i != e ==> volumes[i] < 0.0 && Contained(geo, parts, i, e)
    {
      if k == e { continue; }
      if volumes[k] >= 0.0 { return Err(NonPositiveVolume); }
      if !Contained(geo, parts, k, e) { return Err(CavityContainment); }
      cavities := cavities + 1;
    }
    r := Ok(cavities);
  }

  method CheckCavityPairs(geo: Geometry, parts: seq<seq<Raw>>, volumes: seq<real>) returns (ok: bool)
    requires |parts| == |volumes|
    ensures ok <==> forall i, j :: 0 <= i < j < |volumes| && volumes[i] < 0.0 && volumes[j] < 0.0 ==> Apart(geo, parts, i, j)
  {
    hide Apart;
    for left := 0 to |volumes|
      invariant forall i, j :: 0 <= i < left && i < j < |volumes| && volumes[i] < 0.0 && volumes[j] < 0.0 ==> Apart(geo, parts, i, j)
    {
      if volumes[left] >= 0.0 { continue; }
      for right := left + 1 to |volumes|
        invariant forall j :: left < j < right && volumes[j] < 0.0 ==> Apart(geo, parts, left, j)
      {
        if volumes[right] < 0.0 && !Apart(geo, parts, left, right) { return false; }
      }
    }
    ok := true;
  }

  /** The verdict on the shells: accepted exactly when they bound one material body. */
  method JudgeShells(geo: Geometry, parts: seq<seq<Raw>>, volumes: seq<real>) returns (r: Result<nat, Reason>)
    requires |parts| == |volumes|
    ensures r.Ok? <==> exists e :: Material(geo, parts, volumes, e)
    ensures r.Ok? ==> r.value == |volumes| - 1
    ensures r.Err? ==> NotMaterial(geo, parts, volumes, r.error)
  {
    hide Contained, Apart, Total;
    var positive := PositiveShells(volumes);
    if positive == [] { return Err(NonPositiveVolume); }
    var e := positive[0];
    assert e in positive;
    if |positive| != 1 {
      assert positive[1] in positive;
      return Err(MaterialBodyCount);
    }
    assert forall k :: k in positive ==> k == e;
    r := CheckCavities(geo, parts, volumes, e);
    if r.Err? { RefutesMaterial(geo, parts, volumes, r.error); return; }
    var apart := CheckCavityPairs(geo, parts, volumes);
    if !apart { return Err(CavityContainment); }
    if Total(volumes) <= 0.0 { return Err(NonPositiveVolume); }
    assert Material(geo, parts, volumes, e);
  }

  /** Each reason rules out acceptance. */
  lemma {:induction false} RefutesMaterial(geo: Geometry, parts: seq<seq<Raw>>, volumes: seq<real>, reason: Reason)
    requires |parts| == |volumes| && NotMaterial(geo, parts, volumes, reason)
    ensures !exists e :: Material(geo, parts, volumes, e)
  {
  }

  // ---------- The whole check ----------

  /** Everything an accepted report stands for, over the numbering and the shells found. */
  ghost predicate Verified(raws: seq<Raw>, geo: Geometry, report: Report,
                           vertices: seq<Vec>, tris: seq<Tri>, neighbors: seq<seq<nat>>, shells: seq<seq<nat>>) {
    && NumberedMesh(raws, vertices, tris)
    && ClosedOriented(tris) && ManifoldVertices(tris) && ShellsOfMesh(raws, tris, neighbors, shells)
    && report.triangleCount == |raws| && report.uniqueVertexCount == |vertices|
    && report.shellCount == |shells| == report.cavityShellCount + 1
    && report.shellVolumes == Volumes(raws, shells)
    && report.signedVolume == report.materialVolume == TotalVolume(raws)
    && exists e :: Material(geo, PartsOf(raws, shells), report.shellVolumes, e)
  }

  /** The neighbours of each facet are those it shares an edge with, and the shells are the parts they hold together. */
  ghost predicate ShellsOfMesh(raws: seq<Raw>, tris: seq<Tri>, neighbors: seq<seq<nat>>, shells: seq<seq<nat>>) {
    && |neighbors| == |tris| && (forall s, t :: 0 <= s < |tris| ==> (t in neighbors[s] <==> ShareEdge(tris, s, t)))
    && AreShells(neighbors, shells) && AllWithin(shells, |raws|)
    && (forall t :: t in AllMembers(shells) <==> 0 <= t < |raws|)
  }

  ghost predicate NumberedMesh(raws: seq<Raw>, vertices: seq<Vec>, tris: seq<Tri>) {
    && WellFormed(tris, vertices) && |tris| == |raws|
    && (forall t :: 0 <= t < |raws| ==> tris[t].raw == raws[t])
    && NoFault(raws, |raws|)
  }

  function PartsOf(raws: seq<Raw>, shells: seq<seq<nat>>): (r: seq<seq<Raw>>)
    requires AllWithin(shells, |raws|)
    ensures |r| == |shells|
  {
    seq(|shells|, k requires 0 <= k < |shells| => Facets(raws, shells[k]))
  }

  /** What a refusal means. */
  ghost predicate Refused(raws: seq<Raw>, geo: Geometry, reason: Reason) {
    || (exists t :: 0 <= t < |raws| && FirstFault(raws, t, reason))
    || exists vertices, tris :: NumberedMesh(raws, vertices, tris) && RefusedMesh(raws, geo, tris, reason)
  }

  ghost predicate RefusedMesh(raws: seq<Raw>, geo: Geometry, tris: seq<Tri>, reason: Reason) {
    || (exists edges, key :: IsTable(edges, tris) && FirstUnsound(edges, key, reason))
    || (reason == NonManifold && ClosedOriented(tris) && !ManifoldVertices(tris))
    || (ClosedOriented(tris) && ManifoldVertices(tris) && exists neighbors, shells ::
         (ShellsOfMesh(raws, tris, neighbors, shells)
          && NotMaterial(geo, PartsOf(raws, shells), Volumes(raws, shells), reason)))
  }

  /** The shells of the numbered mesh, or the first fault of its edges or vertices. */
  method FindShells(raws: seq<Raw>, vertices: seq<Vec>, tris: seq<Tri>, ghost geo: Geometry)
    returns (r: Result<seq<seq<nat>>, Reason>, ghost neighbors: seq<seq<nat>>)
    requires NumberedMesh(raws, vertices, tris)
    ensures r.Ok? ==> ClosedOriented(tris) && ManifoldVertices(tris)
    ensures r.Ok? ==> ShellsOfMesh(raws, tris, neighbors, r.value)
    ensures r.Err? ==> RefusedMesh(raws, geo, tris, r.error) && !(ClosedOriented(tris) && ManifoldVertices(tris))
  {
    hide IsTable, ClosedOriented, ManifoldVertices, ShareEdge, NotMaterial, FirstUnsound, WellFormed, NeighborsOf,
         VerticesAccepted, IsIncidence, LinksOf, NoFault, AreShells;
    neighbors := [];
    assert AllProper(tris) by { MeshIsProper(tris, vertices); }
    var edges := BuildEdges(tris);
    var incidence := BuildIncidence(tris);
    TableMeaning(tris, edges);
    var across := CheckEdges(edges, |tris|);
    if across.Err? {
      assert exists key :: FirstUnsound(edges, key, across.error);
      UnsoundIsNotClosed(tris, edges, across.error);
      return Err(across.error), [];
    }
    VertexCheckMeaning(tris, vertices, edges, incidence);
    var fault := CheckVertexLinks(edges, incidence);
    if fault.Some? { return Err(fault.value), []; }
    neighbors := across.value;
    forall s: nat, t: nat | s < |tris| ensures t in across.value[s] <==> ShareEdge(tris, s, t) {
      NeighborsShareEdges(tris, edges, across.value, s, t);
    }
    SharingIsMutual(tris, across.value);
    var shells := ConnectedShells(across.value);
    ShellsWithin(across.value, shells);
    r := Ok(shells);
  }

  lemma {:induction false} UnsoundIsNotClosed(tris: seq<Tri>, edges: EdgeTable, reason: Reason)
    requires AllProper(tris) && IsTable(edges, tris) && exists key :: FirstUnsound(edges, key, reason)
    ensures !ClosedOriented(tris)
  {
    TableMeaning(tris, edges);
    var key :| FirstUnsound(edges, key, reason);
    assert !SoundUses(edges[key]);
  }

  lemma {:induction false} MeshIsProper(tris: seq<Tri>, vertices: seq<Vec>)
    requires WellFormed(tris, vertices)
    ensures AllProper(tris)
  {
  }

  lemma {:induction false} SharingIsMutual(tris: seq<Tri>, neighbors: seq<seq<nat>>)
    requires |neighbors| == |tris| && forall s: nat, t: nat :: s < |tris| ==> (t in neighbors[s] <==> ShareEdge(tris, s, t))
    ensures Mutual(neighbors)
  {
    forall s: nat, t: nat | s < |neighbors| && t in neighbors[s] ensures t < |neighbors| && s in neighbors[t] {
      assert ShareEdge(tris, s, t);
      assert ShareEdge(tris, t, s);
    }
  }

  lemma {:induction false} ShellsWithin(neighbors: seq<seq<nat>>, shells: seq<seq<nat>>)
    requires AreShells(neighbors, shells)
    ensures AllWithin(shells, |neighbors|)
  {
    forall k | 0 <= k < |shells| ensures Within(shells[k], |neighbors|) {
      assert IsShell(neighbors, shells[k]);
      assert forall i :: 0 <= i < |shells[k]| ==> shells[k][i] in shells[k];
    }
  }

  /** The shells, as parsed facets, bound one material body. */
  ghost predicate MaterialBody(raws: seq<Raw>, geo: Geometry, shells: seq<seq<nat>>) {
    AllWithin(shells, |raws|) && exists e :: Material(geo, PartsOf(raws, shells), Volumes(raws, shells), e)
  }

  /**
   * The check from end to end, with the numbering and the shells it finds: it accepts exactly the meshes without a
   * faulty facet that are closed, oriented, manifold at every vertex and bound one material body.
   */
  method VerifyMesh(raws: seq<Raw>, geo: Geometry) returns (r: Result<Report, Reason>,
    ghost vertices: seq<Vec>, ghost tris: seq<Tri>, ghost neighbors: seq<seq<nat>>, ghost shells: seq<seq<nat>>)
    ensures r.Ok? ==> Verified(raws, geo, r.value, vertices, tris, neighbors, shells)
    ensures r.Err? ==> Refused(raws, geo, r.error)
    ensures NoFault(raws, |raws|) ==> NumberedMesh(raws, vertices, tris)
    ensures NoFault(raws, |raws|) && ClosedOriented(tris) && ManifoldVertices(tris) ==>
      ShellsOfMesh(raws, tris, neighbors, shells)
    ensures r.Ok? <==> NoFault(raws, |raws|) && ClosedOriented(tris) && ManifoldVertices(tris) && MaterialBody(raws, geo, shells)
  {
    vertices, tris, neighbors, shells := [], [], [], [];
    hide NoFault, ShellsOfMesh, NumberedMesh, RefusedMesh, ClosedOriented, ManifoldVertices, ShareEdge, AreShells, FirstFault, NotMaterial, Material, AllWithin,
         VolumeOf, TotalVolume, Total;
    var numbered := NumberTriangles(raws);
    if numbered.Err? {
      FaultRefutes(raws, numbered.error);
      r := Err(numbered.error);
      return;
    }
    var (positions, numberedTris) := numbered.value;
    vertices, tris := positions, numberedTris;
    assert NumberedMesh(raws, vertices, tris) by { Numbered(raws, vertices, tris); }
    var found;
    found, neighbors := FindShells(raws, positions, numberedTris, geo);
    if found.Err? {
      r := Err(found.error);
      return;
    }
    var parts := found.value;
    shells := parts;
    assert AllWithin(parts, |raws|) by { ShellsAreWithin(raws, tris, neighbors, parts); }
    var volumes := Volumes(raws, parts);
    var verdict := JudgeShells(geo, PartsOf(raws, parts), volumes);
    if verdict.Err? {
      assert RefusedMesh(raws, geo, tris, verdict.error) by { NotOneBody(raws, geo, tris, neighbors, shells, verdict.error); }
      r := Err(verdict.error);
      return;
    }
    SumOfShells(raws, vertices, tris, neighbors, shells);
    var report := Report(|numberedTris|, |positions|, |parts|, verdict.value, volumes, Total(volumes), Total(volumes));
    SameCount(raws, vertices, tris);
    assert Verified(raws, geo, report, vertices, tris, neighbors, shells);
    r := Ok(report);
  }

  lemma {:induction false} FaultRefutes(raws: seq<Raw>, reason: Reason)
    requires exists t :: 0 <= t < |raws| && FirstFault(raws, t, reason)
    ensures !NoFault(raws, |raws|)
  {
    hide SameFacet, IsDegenerate;
    var t :| 0 <= t < |raws| && FirstFault(raws, t, reason);
  }

  lemma {:induction false} ShellsAreWithin(raws: seq<Raw>, tris: seq<Tri>, neighbors: seq<seq<nat>>, shells: seq<seq<nat>>)
    requires ShellsOfMesh(raws, tris, neighbors, shells)
    ensures AllWithin(shells, |raws|) && |neighbors| == |tris|
  {
  }

  lemma {:induction false} SumOfShells(
    raws: seq<Raw>, vertices: seq<Vec>, tris: seq<Tri>, neighbors: seq<seq<nat>>, shells: seq<seq<nat>>)
    requires NumberedMesh(raws, vertices, tris) && ShellsOfMesh(raws, tris, neighbors, shells)
    ensures AllWithin(shells, |raws|) && Total(Volumes(raws, shells)) == TotalVolume(raws)
  {
    hide AreShells, Total, TotalVolume;
    SameCount(raws, vertices, tris);
    ShellsMakeTheMesh(raws, neighbors, shells);
  }

  lemma {:induction false} Numbered(raws: seq<Raw>, vertices: seq<Vec>, tris: seq<Tri>)
    requires WellFormed(tris, vertices) && |tris| == |raws| && NoFault(raws, |raws|)
    requires forall t :: 0 <= t < |raws| ==> tris[t].raw == raws[t]
    ensures NumberedMesh(raws, vertices, tris)
  {
  }

  lemma {:induction false} SameCount(raws: seq<Raw>, vertices: seq<Vec>, tris: seq<Tri>)
    requires NumberedMesh(raws, vertices, tris)
    ensures |tris| == |raws|
  {
  }

  lemma {:induction false} NotOneBody(raws: seq<Raw>, geo: Geometry, tris: seq<Tri>, neighbors: seq<seq<nat>>, shells: seq<seq<nat>>, reason: Reason)
    requires ClosedOriented(tris) && ManifoldVertices(tris) && ShellsOfMesh(raws, tris, neighbors, shells)
    requires NotMaterial(geo, PartsOf(raws, shells), Volumes(raws, shells), reason)
    ensures RefusedMesh(raws, geo, tris, reason)
  {
  }

  /**
   * What an accepted report guarantees beyond its own checks: translating the mesh by any vector changes no shell
   * volume and not the total, the number of facets is even, and two facets share a shell exactly when a chain of
   * shared edges joins them.
   */
  lemma {:induction false} ReportGuarantees(raws: seq<Raw>, geo: Geometry, report: Report, vertices: seq<Vec>, tris: seq<Tri>,
                         neighbors: seq<seq<nat>>, shells: seq<seq<nat>>, d: Vec)
    requires Verified(raws, geo, report, vertices, tris, neighbors, shells)
    ensures Volumes(MovedAll(raws, d), shells) == report.shellVolumes
    ensures TotalVolume(MovedAll(raws, d)) == report.signedVolume > 0.0
    ensures report.triangleCount % 2 == 0
    ensures forall k, a, b :: 0 <= k < |shells| && a in shells[k] ==> (b in shells[k] <==> Joined(neighbors, a, b))
    ensures forall k, l, t :: 0 <= k < |shells| && 0 <= l < |shells| && t in shells[k] && t in shells[l] ==> k == l
  {
    hide WellFormed, ClosedOriented, ManifoldVertices, ShareEdge, VolumeOf, TotalVolume, Total, NoFault, Contained, Apart, IsShell;
    assert Mutual(neighbors) by { SharingIsMutual(tris, neighbors); }
    forall k | 0 <= k < |shells| ensures VolumeOf(MovedAll(raws, d), shells[k]) == VolumeOf(raws, shells[k]) {
      ShellIsClosedShell(tris, neighbors, shells, k);
      VolumeTranslates(tris, vertices, raws, shells[k], d);
    }
    ShellsMakeTheMesh(MovedAll(raws, d), neighbors, shells);
    ShellsMakeTheMesh(raws, neighbors, shells);
    EvenFacets(tris, vertices, raws);
    forall k, a, b | 0 <= k < |shells| && a in shells[k] ensures b in shells[k] <==> Joined(neighbors, a, b) {
      SameShellIffJoined(neighbors, shells, k, a, b);
    }
    forall k, l, t | 0 <= k < |shells| && 0 <= l < |shells| && t in shells[k] && t in shells[l] ensures k == l {
      OneShell(neighbors, shells, k, l, t);
    }
  }

  lemma {:induction false} ShellIsClosedShell(tris: seq<Tri>, neighbors: seq<seq<nat>>, shells: seq<seq<nat>>, k: nat)
    requires |neighbors| == |tris| && forall s: nat, t: nat :: s < |tris| ==> (t in neighbors[s] <==> ShareEdge(tris, s, t))
    requires AreShells(neighbors, shells) && k < |shells|
    ensures NoRepeats(shells[k])
    ensures forall s, t :: s in shells[k] && ShareEdge(tris, s, t) ==> t in shells[k]
  {
    hide ShareEdge, Joined;
    assert IsShell(neighbors, shells[k]);
    forall s, t | s in shells[k] && ShareEdge(tris, s, t) ensures t in shells[k] {
      assert t in neighbors[s];
      assert s in Members(shells[k]);
      assert t in Members(shells[k]);
    }
  }

  /** The edge table of any numbered closed mesh exists, so three times the facets is even. */
  lemma {:induction false} EvenFacets(tris: seq<Tri>, vertices: seq<Vec>, raws: seq<Raw>)
    requires NumberedMesh(raws, vertices, tris) && ClosedOriented(tris)
    ensures |tris| % 2 == 0
  {
    hide ClosedOriented, WellFormed, NoFault, IsTable;
    MeshIsProper(tris, vertices);
    var edges := TableExists(tris, |tris|);
    assert tris[..|tris|] == tris;
    FacetsAndEdges(tris, vertices, raws, edges);
  }

  lemma {:induction false} TableExists(tris: seq<Tri>, n: nat) returns (edges: EdgeTable)
    requires AllProper(tris) && n <= |tris|
    ensures IsTable(edges, tris[..n])
  {
    hide IsTable;
    if n == 0 {
      EmptyTable(tris);
      edges := map[];
    } else {
      edges := TableExists(tris, n - 1);
      TriangleAdded(edges, tris, n - 1);
      var t := tris[n - 1];
      edges := Push(Push(Push(edges, n - 1, t.i, t.j), n - 1, t.j, t.k), n - 1, t.k, t.i);
    }
  }
}
