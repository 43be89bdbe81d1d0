/** Shells: the components of the mesh under shared edges, found breadth first. */
module MeshShells {

  ghost predicate Mutual(neighbors: seq<seq<nat>>) {
    forall s: nat, t: nat {:trigger t in neighbors[s]} :: s < |neighbors| && t in neighbors[s] ==> t < |neighbors| && s in neighbors[t]
  }

  ghost predicate Walk(neighbors: seq<seq<nat>>, p: seq<nat>) {
    && p != []
    && (forall i :: 0 <= i < |p| ==> p[i] < |neighbors|)
    && (forall i :: 0 <= i < |p| - 1 ==> p[i + 1] in neighbors[p[i]])
  }

  /** A chain of neighbours leads from `a` to `b`. */
  ghost predicate Joined(neighbors: seq<seq<nat>>, a: nat, b: nat) {
    exists p :: Walk(neighbors, p) && p[0] == a && p[|p| - 1] == b
  }

  ghost predicate ClosedSet(neighbors: seq<seq<nat>>, s: set<nat>) {
    forall t: nat, m: nat :: t in s && t < |neighbors| && m in neighbors[t] ==> m in s
  }

  ghost function Members(shell: seq<nat>): set<nat> { set t | t in shell }

  ghost function Facets(n: nat): (r: set<nat>)
    ensures forall t: nat :: t in r <==> t < n
  {
    if n == 0 then {} else Facets(n - 1) + {n - 1}
  }

  ghost predicate NoRepeats(p: seq<nat>) {
    forall i, j :: 0 <= i < j < |p| ==> p[i] != p[j]
  }

  lemma {:induction false} JoinedSelf(neighbors: seq<seq<nat>>, a: nat)
    requires a < |neighbors|
    ensures Joined(neighbors, a, a)
  {
    assert Walk(neighbors, [a]) && [a][0] == a;
  }

  lemma {:induction false} JoinedStep(neighbors: seq<seq<nat>>, a: nat, b: nat, c: nat)
    requires Mutual(neighbors) && Joined(neighbors, a, b) && b < |neighbors| && c in neighbors[b]
    ensures Joined(neighbors, a, c)
  {
    var p :| Walk(neighbors, p) && p[0] == a && p[|p| - 1] == b;
    var q := p + [c];
    assert c < |neighbors|;
    forall i | 0 <= i < |q| ensures q[i] < |neighbors| { assert i < |p| ==> q[i] == p[i]; }
    assert Walk(neighbors, q) && q[0] == a && q[|q| - 1] == c;
  }

  /** Chains run both ways and can be joined end to end. */
  lemma {:induction false} WalkBack(neighbors: seq<seq<nat>>, start: nat, p: seq<nat>, n: nat)
    requires Mutual(neighbors) && Walk(neighbors, p) && Joined(neighbors, start, p[|p| - 1]) && n < |p|
    ensures Joined(neighbors, start, p[n])
    decreases |p| - n
  {
    if n < |p| - 1 {
      WalkBack(neighbors, start, p, n + 1);
      assert p[n + 1] in neighbors[p[n]];
      JoinedStep(neighbors, start, p[n + 1], p[n]);
    }
  }

  lemma {:induction false} WalkOn(neighbors: seq<seq<nat>>, start: nat, p: seq<nat>, n: nat)
    requires Mutual(neighbors) && Walk(neighbors, p) && Joined(neighbors, start, p[0]) && n < |p|
    ensures Joined(neighbors, start, p[n])
  {
    if n > 0 {
      WalkOn(neighbors, start, p, n - 1);
      JoinedStep(neighbors, start, p[n - 1], p[n]);
    }
  }

  lemma {:induction false} WalkStaysInside(neighbors: seq<seq<nat>>, p: seq<nat>, s: set<nat>, n: nat)
    requires Walk(neighbors, p) && ClosedSet(neighbors, s) && p[0] in s && n < |p|
    ensures p[n] in s
  {
    if n > 0 { WalkStaysInside(neighbors, p, s, n - 1); }
  }

  // ---------- The search ----------

  /** One complete component: no repeats, closed, and all of it joined to its first facet. */
  ghost predicate IsShell(neighbors: seq<seq<nat>>, shell: seq<nat>) {
    && shell != [] && NoRepeats(shell)
    && (forall t :: t in shell ==> t < |neighbors| && Joined(neighbors, shell[0], t))
    && ClosedSet(neighbors, Members(shell))
  }

  /** The array marks exactly `marked`. */
  ghost predicate Marks(visited: array<bool>, marked: set<nat>)
    reads visited
  {
    forall t :: 0 <= t < visited.Length ==> (visited[t] <==> t in marked)
  }

  /** Mark and append the unvisited neighbours of one facet. */
  method Enqueue(neighbors: seq<seq<nat>>, visited: array<bool>, triangle: nat, queue: seq<nat>, ghost marked: set<nat>)
    returns (r: seq<nat>, ghost after: set<nat>)
    requires Mutual(neighbors) && visited.Length == |neighbors| && triangle < |neighbors| && Marks(visited, marked)
    requires NoRepeats(queue) && forall t :: t in queue ==> t in marked
    modifies visited
    ensures queue <= r && NoRepeats(r) && Marks(visited, after)
    ensures forall t :: t in after <==> t in marked || t in neighbors[triangle]
    ensures forall t :: t in r <==> t in queue || (t in neighbors[triangle] && t !in marked)
  {
    r, after := queue, marked;
    for n := 0 to |neighbors[triangle]|
      invariant queue <= r && NoRepeats(r) && Marks(visited, after)
      invariant forall t :: t in after <==> t in marked || t in neighbors[triangle][..n]
      invariant forall t :: t in r <==> t in queue || (t in neighbors[triangle][..n] && t !in marked)
      invariant forall t :: t in r ==> t in after
    {
      var neighbor := neighbors[triangle][n];
      assert neighbor in neighbors[triangle] && neighbor < |neighbors|;
      if !visited[neighbor] {
        visited[neighbor] := true;
        r := r + [neighbor];
        after := after + {neighbor};
      }
    }
  }

  lemma {:induction false} TakeFirst(shell: seq<nat>, pending: seq<nat>)
    requires pending != []
    requires NoRepeats(shell + pending)
    ensures (shell + [pending[0]]) + pending[1..] == shell + pending
    ensures pending[0] !in shell && pending[0] in shell + pending
  {
    assert (shell + pending)[|shell|] == pending[0];
    forall i | 0 <= i < |shell| ensures shell[i] != pending[0] { assert (shell + pending)[i] == shell[i]; }
  }

  /** Breadth-first search from an unvisited facet, over facets the earlier shells do not touch. */
  method ExploreShell(neighbors: seq<seq<nat>>, visited: array<bool>, start: nat, ghost done: set<nat>) returns (shell: seq<nat>)
    requires Mutual(neighbors) && visited.Length == |neighbors| && start < |neighbors| && start !in done
    requires Marks(visited, done) && ClosedSet(neighbors, done)
    modifies visited
    ensures IsShell(neighbors, shell) && start == shell[0]
    ensures Members(shell) !! done && Marks(visited, done + Members(shell))
  {
    hide Joined, Mutual, ClosedSet;
    shell := [];
    var pending: seq<nat> := [start];
    visited[start] := true;
    ghost var marked := done + {start};
    assert Joined(neighbors, start, start) by { JoinedSelf(neighbors, start); }
    while pending != []
      invariant [start] <= shell + pending && NoRepeats(shell + pending) && Marks(visited, marked)
      invariant forall t :: t in marked <==> t in done || t in shell + pending
      invariant forall t :: t in shell + pending ==> t < |neighbors| && t !in done && Joined(neighbors, start, t)
      invariant forall t: nat, m: nat :: t in shell && t < |neighbors| && m in neighbors[t] ==> m in shell + pending
      decreases Facets(|neighbors|) - Members(shell)
    {
      var triangle := pending[0];
      ghost var all := shell + pending;
      TakeFirst(shell, pending);
      ghost var rest := Facets(|neighbors|) - Members(shell);
      assert triangle in rest;
      shell := shell + [triangle];
      pending := pending[1..];
      assert Facets(|neighbors|) - Members(shell) < rest;
      var queue: seq<nat>;
      queue, marked := Enqueue(neighbors, visited, triangle, shell + pending, marked);
      assert queue[..|shell|] == shell;
      forall t: nat, m: nat | t in shell && t < |neighbors| && m in neighbors[t] ensures m in queue {
        if t == triangle { EnqueuedIsNew(neighbors, done, start, triangle, m); }
      }
      pending := queue[|shell|..];
      assert shell + pending == queue;
      forall t | t in queue ensures t < |neighbors| && t !in done && Joined(neighbors, start, t) {
        if t !in all { EnqueuedIsNew(neighbors, done, start, triangle, t); }
      }
    }
    assert shell + pending == shell;
    assert shell[0] == start;
    assert marked == done + Members(shell);
    ShellCloses(neighbors, shell);
  }

  lemma {:induction false} EnqueuedIsNew(neighbors: seq<seq<nat>>, done: set<nat>, start: nat, triangle: nat, t: nat)
    requires Mutual(neighbors) && ClosedSet(neighbors, done) && triangle < |neighbors| && triangle !in done
    requires t in neighbors[triangle] && Joined(neighbors, start, triangle)
    ensures t < |neighbors| && t !in done && Joined(neighbors, start, t)
  {
    JoinedStep(neighbors, start, triangle, t);
  }

  lemma {:induction false} ShellCloses(neighbors: seq<seq<nat>>, shell: seq<nat>)
    requires forall t: nat, m: nat :: t in shell && t < |neighbors| && m in neighbors[t] ==> m in shell
    ensures ClosedSet(neighbors, Members(shell))
  {
  }

  ghost function AllMembers(shells: seq<seq<nat>>): set<nat> {
    if shells == [] then {} else AllMembers(shells[..|shells| - 1]) + Members(shells[|shells| - 1])
  }

  /** Shells are components, each disjoint from the ones before it. */
  ghost predicate AreShells(neighbors: seq<seq<nat>>, shells: seq<seq<nat>>) {
    forall k :: 0 <= k < |shells| ==> IsShell(neighbors, shells[k]) && Members(shells[k]) !! AllMembers(shells[..k])
  }

  lemma {:induction false} ShellAdded(neighbors: seq<seq<nat>>, shells: seq<seq<nat>>, shell: seq<nat>)
    requires AreShells(neighbors, shells) && IsShell(neighbors, shell) && Members(shell) !! AllMembers(shells)
    requires ClosedSet(neighbors, AllMembers(shells))
    ensures AreShells(neighbors, shells + [shell])
    ensures AllMembers(shells + [shell]) == AllMembers(shells) + Members(shell)
    ensures ClosedSet(neighbors, AllMembers(shells + [shell]))
  {
    hide IsShell;
    var all := shells + [shell];
    assert all[..|shells|] == shells;
    forall k | 0 <= k < |all| ensures IsShell(neighbors, all[k]) && Members(all[k]) !! AllMembers(all[..k]) {
      assert k < |shells| ==> all[..k] == shells[..k];
    }
    assert ClosedSet(neighbors, Members(shell)) by { ShellIsClosed(neighbors, shell); }
  }

  lemma {:induction false} ShellIsClosed(neighbors: seq<seq<nat>>, shell: seq<nat>)
    requires IsShell(neighbors, shell)
    ensures ClosedSet(neighbors, Members(shell))
  {
  }

  method ConnectedShells(neighbors: seq<seq<nat>>) returns (shells: seq<seq<nat>>)
    requires Mutual(neighbors)
    ensures AreShells(neighbors, shells)
    ensures forall t :: t in AllMembers(shells) <==> 0 <= t < |neighbors|
  {
    hide Mutual, ClosedSet, IsShell, AreShells, Members;
    shells := [];
    var visited := new bool[|neighbors|](_ => false);
    assert AreShells(neighbors, []) && ClosedSet(neighbors, {}) by { NoShells(neighbors); }
    for start := 0 to |neighbors|
      invariant AreShells(neighbors, shells) && Marks(visited, AllMembers(shells)) && ClosedSet(neighbors, AllMembers(shells))
      invariant forall t :: 0 <= t < start ==> t in AllMembers(shells)
      invariant forall t :: t in AllMembers(shells) ==> t < |neighbors|
    {
      if visited[start] { continue; }
      var shell := ExploreShell(neighbors, visited, start, AllMembers(shells));
      ShellAdded(neighbors, shells, shell);
      ShellWithin(neighbors, shell);
      shells := shells + [shell];
    }
  }

  lemma {:induction false} NoShells(neighbors: seq<seq<nat>>)
    ensures AreShells(neighbors, []) && ClosedSet(neighbors, {}) && AllMembers([]) == {}
  {
  }

  lemma {:induction false} ShellWithin(neighbors: seq<seq<nat>>, shell: seq<nat>)
    requires IsShell(neighbors, shell)
    ensures shell[0] in Members(shell) && forall t :: t in Members(shell) ==> t < |neighbors|
  {
  }

  lemma {:induction false} MemberOfOne(shells: seq<seq<nat>>, t: nat) returns (k: nat)
    requires t in AllMembers(shells)
    ensures k < |shells| && t in shells[k]
  {
    var n := |shells| - 1;
    if t in shells[n] { k := n; } else { k := MemberOfOne(shells[..n], t); }
  }

  lemma {:induction false} InAll(shells: seq<seq<nat>>, k: nat, t: nat)
    requires k < |shells| && t in shells[k]
    ensures t in AllMembers(shells)
  {
    var n := |shells| - 1;
    if k < n { InAll(shells[..n], k, t); }
  }

  /** Every facet is in exactly one shell. */
  lemma {:induction false} EveryFacetInOneShell(neighbors: seq<seq<nat>>, shells: seq<seq<nat>>, t: nat)
    requires AreShells(neighbors, shells) && (forall u :: u in AllMembers(shells) <==> 0 <= u < |neighbors|)
    requires t < |neighbors|
    ensures exists k :: 0 <= k < |shells| && t in shells[k] && forall l :: 0 <= l < |shells| && t in shells[l] ==> l == k
  {
    hide IsShell;
    var k := MemberOfOne(shells, t);
    forall l | 0 <= l < |shells| && t in shells[l] ensures l == k { OneShell(neighbors, shells, l, k, t); }
  }

  /** No facet is in two shells. */
  lemma {:induction false} OneShell(neighbors: seq<seq<nat>>, shells: seq<seq<nat>>, k: nat, l: nat, t: nat)
    requires AreShells(neighbors, shells) && k < |shells| && l < |shells| && t in shells[k] && t in shells[l]
    ensures k == l
  {
    hide IsShell;
    if k < l { NotEarlier(neighbors, shells, k, l, t); }
    if l < k { NotEarlier(neighbors, shells, l, k, t); }
  }

  lemma {:induction false} NotEarlier(neighbors: seq<seq<nat>>, shells: seq<seq<nat>>, k: nat, l: nat, t: nat)
    requires AreShells(neighbors, shells) && k < l < |shells| && t in shells[k]
    ensures t !in shells[l]
  {
    hide IsShell;
    assert shells[..l][k] == shells[k];
    InAll(shells[..l], k, t);
    assert Members(shells[l]) !! AllMembers(shells[..l]);
  }

  /** Two facets are in one shell exactly when a chain of neighbours joins them. */
  lemma {:induction false} SameShellIffJoined(neighbors: seq<seq<nat>>, shells: seq<seq<nat>>, k: nat, a: nat, b: nat)
    requires Mutual(neighbors) && AreShells(neighbors, shells) && k < |shells| && a in shells[k]
    ensures b in shells[k] <==> Joined(neighbors, a, b)
  {
    hide Mutual, ClosedSet;
    assert IsShell(neighbors, shells[k]);
    var start := shells[k][0];
    var s := Members(shells[k]);
    if b in shells[k] {
      var p :| Walk(neighbors, p) && p[0] == start && p[|p| - 1] == a;
      JoinedSelf(neighbors, a);
      WalkBack(neighbors, a, p, 0);
      var q :| Walk(neighbors, q) && q[0] == start && q[|q| - 1] == b;
      WalkOn(neighbors, a, q, |q| - 1);
    }
    if Joined(neighbors, a, b) {
      var p :| Walk(neighbors, p) && p[0] == a && p[|p| - 1] == b;
      WalkStaysInside(neighbors, p, s, |p| - 1);
    }
  }
}
