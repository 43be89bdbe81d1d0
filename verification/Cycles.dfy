/** A finite graph in which everyone has two neighbours and everything is connected is one cycle. */
module Cycles {

  /** A symmetric neighbour relation on a finite set, without self-loops. */
  type Link = map<nat, set<nat>>

  ghost predicate Symmetric(link: Link) {
    && (forall a, b :: a in link && b in link[a] ==> b in link && a in link[b])
    && (forall a :: a in link ==> a !in link[a])
  }

  ghost predicate DegreeTwo(link: Link) {
    forall a :: a in link ==> |link[a]| == 2
  }

  ghost predicate Closed(link: Link, s: set<nat>) {
    forall a :: a in link && a in s ==> link[a] <= s
  }

  /** Whatever is closed under neighbours and holds `start` holds everything. */
  ghost predicate Connected(link: Link, start: nat) {
    forall s :: start in s && Closed(link, s) ==> link.Keys <= s
  }

  ghost predicate Distinct(p: seq<nat>) {
    forall i, j :: 0 <= i < j < |p| ==> p[i] != p[j]
  }

  /** Each element a neighbour of the next. */
  ghost predicate Path(link: Link, p: seq<nat>) {
    && Distinct(p)
    && (forall i :: 0 <= i < |p| ==> p[i] in link)
    && (forall i :: 0 <= i < |p| - 1 ==> p[i + 1] in link[p[i]])
  }

  /** All of the graph, once around. */
  ghost predicate Cycle(link: Link, p: seq<nat>) {
    && |p| >= 3 && Path(link, p)
    && p[0] in link[p[|p| - 1]]
    && forall a :: a in link ==> a in p
  }

  lemma {:induction false} TwoElements(s: set<nat>, a: nat, b: nat)
    requires |s| == 2 && a in s && b in s && a != b
    ensures s == {a, b}
  {
    assert |s - {a} - {b}| == 0;
  }

  lemma {:induction false} OtherNeighbour(s: set<nat>, a: nat) returns (b: nat)
    requires |s| == 2 && a in s
    ensures b != a && s == {a, b}
  {
    assert |s - {a}| == 1;
    b :| b in s - {a};
    TwoElements(s, a, b);
  }

  ghost function Elements(p: seq<nat>): set<nat> { set x | x in p }

  /** A path from `start` can be extended until it returns to its first element. */
  lemma {:induction false} ExtendToCycle(link: Link, p: seq<nat>) returns (c: seq<nat>)
    requires Symmetric(link) && DegreeTwo(link) && Path(link, p) && |p| >= 2
    ensures |c| >= 3 && Path(link, c) && c[0] == p[0] && c[0] in link[c[|c| - 1]]
    decreases link.Keys - Elements(p)
  {
    var n := |p|;
    var last, prev := p[n - 1], p[n - 2];
    assert last in link[prev];
    var w := OtherNeighbour(link[last], prev);
    if w !in p {
      var q := p + [w];
      assert Path(link, q);
      assert w in link.Keys - Elements(p) && w !in link.Keys - Elements(q);
      assert link.Keys - Elements(q) < link.Keys - Elements(p);
      c := ExtendToCycle(link, q);
    } else {
      var i :| 0 <= i < n && p[i] == w;
      InteriorIsFull(link, p, i, last);
      c := p;
    }
  }

  /** An interior element of a path has both its neighbours on the path already. */
  lemma {:induction false} InteriorIsFull(link: Link, p: seq<nat>, i: nat, x: nat)
    requires Symmetric(link) && DegreeTwo(link) && Path(link, p) && i < |p| && x in link[p[i]]
    ensures 0 < i < |p| - 1 ==> x == p[i - 1] || x == p[i + 1]
  {
    if 0 < i < |p| - 1 {
      assert p[i] in link[p[i - 1]] && p[i + 1] in link[p[i]];
      TwoElements(link[p[i]], p[i - 1], p[i + 1]);
    }
  }

  /** Everyone on a closed path has both neighbours on it. */
  lemma {:induction false} CycleIsClosed(link: Link, c: seq<nat>)
    requires Symmetric(link) && DegreeTwo(link) && |c| >= 3 && Path(link, c) && c[0] in link[c[|c| - 1]]
    ensures Closed(link, Elements(c))
  {
    var n := |c|;
    forall a | a in link && a in Elements(c) ensures link[a] <= Elements(c) {
      var i :| 0 <= i < n && c[i] == a;
      var prev, next := if i == 0 then c[n - 1] else c[i - 1], if i == n - 1 then c[0] else c[i + 1];
      assert i > 0 ==> c[i] in link[c[i - 1]];
      assert prev in link[a] && next in link[a] && prev != next;
      TwoElements(link[a], prev, next);
    }
  }

  /** Connected and two neighbours each: one cycle through everything. */
  lemma {:induction false} ConnectedIsCycle(link: Link, start: nat) returns (c: seq<nat>)
    requires Symmetric(link) && DegreeTwo(link) && start in link && Connected(link, start)
    ensures Cycle(link, c)
  {
    var next :| next in link[start];
    var p := [start, next];
    assert Path(link, p);
    c := ExtendToCycle(link, p);
    CycleIsClosed(link, c);
    assert start in Elements(c);
  }

  lemma {:induction false} UpTheCycle(link: Link, c: seq<nat>, s: set<nat>, i: nat, j: nat)
    requires Path(link, c) && Closed(link, s) && i <= j < |c| && c[i] in s
    ensures c[j] in s
  {
    if i < j { UpTheCycle(link, c, s, i, j - 1); }
  }

  lemma {:induction false} DownTheCycle(link: Link, c: seq<nat>, s: set<nat>, i: nat, j: nat)
    requires Symmetric(link) && Path(link, c) && Closed(link, s) && j <= i < |c| && c[i] in s
    ensures c[j] in s
  {
    if j < i {
      assert c[i] in link[c[i - 1]];
      DownTheCycle(link, c, s, i - 1, j);
    }
  }

  /** A cycle through everything is connected from anywhere. */
  lemma {:induction false} CycleIsConnected(link: Link, c: seq<nat>, start: nat)
    requires Symmetric(link) && Cycle(link, c) && start in link
    ensures Connected(link, start)
  {
    var k :| 0 <= k < |c| && c[k] == start;
    forall s, a | start in s && Closed(link, s) && a in link ensures a in s {
      var j :| 0 <= j < |c| && c[j] == a;
      DownTheCycle(link, c, s, k, 0);
      UpTheCycle(link, c, s, 0, j);
    }
  }

  /** Everything reachable from `start`, by the depth-first search of the mesh check. */
  method Explore(link: Link, start: nat) returns (seen: set<nat>)
    requires Symmetric(link) && start in link
    ensures start in seen && seen <= link.Keys && Closed(link, seen)
    ensures seen == link.Keys <==> Connected(link, start)
  {
    seen := {};
    var pending := [start];
    while pending != []
      invariant seen <= link.Keys && forall x :: x in pending ==> x in link
      invariant start in seen || start in pending
      invariant forall a, b :: a in seen && b in link[a] ==> b in seen || b in pending
      invariant forall s :: start in s && Closed(link, s) ==> seen <= s && forall x :: x in pending ==> x in s
      decreases link.Keys - seen, |pending|
    {
      var triangle := pending[|pending| - 1];
      pending := pending[..|pending| - 1];
      if triangle in seen { continue; }
      assert triangle in link.Keys - seen;
      seen := seen + {triangle};
      pending := PushAll(pending, link[triangle]);
    }
  }

  /** The stack with the elements of a set on top, in some order. */
  method PushAll(stack: seq<nat>, s: set<nat>) returns (r: seq<nat>)
    ensures forall x :: x in r <==> x in stack || x in s
  {
    r := stack;
    var rest := s;
    while rest != {}
      invariant rest <= s && forall x :: x in r <==> x in stack || x in s - rest
      decreases rest
    {
      var x :| x in rest;
      rest := rest - {x};
      r := r + [x];
    }
  }
}
