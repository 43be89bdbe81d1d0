/** Comparing two lists of intersections in sorted order stands for "some pairing is within the tolerance". */
module Matching {

  predicate Ascending(s: seq<real>) {
    forall i, j :: 0 <= i <= j < |s| ==> s[i] <= s[j]
  }

  function Insert(x: real, s: seq<real>): (r: seq<real>)
    requires Ascending(s)
    ensures Ascending(r) && |r| == |s| + 1
    ensures forall y :: y in r <==> y == x || y in s
  {
    if s == [] || x <= s[0] then [x] + s else
    var rest := Insert(x, s[1..]);
    assert forall i :: 0 <= i < |s| - 1 ==> s[1..][i] == s[i + 1];
    assert forall y :: y in rest ==> s[0] <= y;
    assert forall i :: 0 <= i < |rest| ==> rest[i] in rest;
    [s[0]] + rest
  }

  /** A sorted copy. */
  function Sorted(s: seq<real>): (r: seq<real>)
    ensures Ascending(r)
  {
    if s == [] then [] else Insert(s[0], Sorted(s[1..]))
  }

  lemma {:induction false} InsertAdds(x: real, s: seq<real>)
    requires Ascending(s)
    ensures multiset(Insert(x, s)) == multiset(s) + multiset{x}
  {
    if s != [] && x > s[0] {
      InsertAdds(x, s[1..]);
      assert s == [s[0]] + s[1..];
    }
  }

  lemma {:induction false} SortedIsPermutation(s: seq<real>)
    ensures multiset(Sorted(s)) == multiset(s)
  {
    if s != [] {
      SortedIsPermutation(s[1..]);
      InsertAdds(s[0], Sorted(s[1..]));
      assert s == [s[0]] + s[1..];
    }
  }

  function Distance(a: real, b: real): real { if a < b then b - a else a - b }

  predicate WithinEach(left: seq<real>, right: seq<real>, tolerance: real) {
    |left| == |right| && forall i :: 0 <= i < |left| ==> Distance(left[i], right[i]) <= tolerance
  }

  predicate IntersectionsMatch(left: seq<real>, right: seq<real>, tolerance: real) {
    WithinEach(Sorted(left), Sorted(right), tolerance)
  }

  /** The two lists, each rearranged so that position by position the values are within the tolerance. */
  ghost predicate Pairing(left: seq<real>, right: seq<real>, tolerance: real, xs: seq<real>, ys: seq<real>) {
    multiset(xs) == multiset(left) && multiset(ys) == multiset(right)
    && |xs| == |ys| && forall i :: 0 <= i < |xs| ==> -tolerance <= xs[i] - ys[i] <= tolerance
  }

  lemma {:induction false} WithinIsClose(xs: seq<real>, ys: seq<real>, tolerance: real)
    ensures WithinEach(xs, ys, tolerance) <==>
      |xs| == |ys| && forall i :: 0 <= i < |xs| ==> -tolerance <= xs[i] - ys[i] <= tolerance
  {
  }

  function Without(s: seq<real>, i: nat): seq<real>
    requires i < |s|
  {
    s[..i] + s[i + 1..]
  }

  lemma {:induction false} WithoutRemoves(s: seq<real>, i: nat)
    requires i < |s|
    ensures multiset(Without(s, i)) == multiset(s) - multiset{s[i]}
  {
    assert s == s[..i] + [s[i]] + s[i + 1..];
  }

  lemma {:induction false} SameMembers(a: seq<real>, b: seq<real>)
    requires multiset(a) == multiset(b)
    ensures |a| == |b| && forall x :: x in a <==> x in b
  {
    assert |multiset(a)| == |a| && |multiset(b)| == |b|;
    forall x ensures x in a <==> x in b { assert x in multiset(a) <==> x in multiset(b); }
  }

  /** Exchanging partners so that the two least values meet keeps every pair within the tolerance. */
  lemma {:induction false} ExchangeKeeps(xs: seq<real>, ys: seq<real>, tolerance: real, i: nat, j: nat)
    requires WithinEach(xs, ys, tolerance) && i < |xs| && j < |xs|
    requires xs[i] <= xs[j] && ys[j] <= ys[i]
    ensures WithinEach(xs, ys[i := ys[j]][j := ys[i]], tolerance)
  {
    assert Distance(xs[i], ys[i]) <= tolerance && Distance(xs[j], ys[j]) <= tolerance;
  }

  lemma {:induction false} WithoutBoth(xs: seq<real>, ys: seq<real>, tolerance: real, i: nat)
    requires WithinEach(xs, ys, tolerance) && i < |xs|
    ensures WithinEach(Without(xs, i), Without(ys, i), tolerance)
  {
    forall k | 0 <= k < |xs| - 1 ensures Distance(Without(xs, i)[k], Without(ys, i)[k]) <= tolerance {
      var m := if k < i then k else k + 1;
      assert Without(xs, i)[k] == xs[m] && Without(ys, i)[k] == ys[m];
    }
  }

  lemma {:induction false} ExchangedMultiset(ys: seq<real>, i: nat, j: nat)
    requires i < |ys| && j < |ys|
    ensures multiset(ys[i := ys[j]][j := ys[i]]) == multiset(ys)
  {
  }

  /** Re-pairs the two least values with each other and takes them out. */
  lemma {:induction false} MeetFirst(left: seq<real>, right: seq<real>, tolerance: real, xs: seq<real>, ys: seq<real>, i: nat, j: nat)
    returns (us: seq<real>, vs: seq<real>)
    requires Pairing(left, right, tolerance, xs, ys) && left != [] && right != [] && i < |xs| && j < |xs|
    requires xs[i] == left[0] && ys[j] == right[0] && left[0] <= xs[j] && right[0] <= ys[i]
    ensures Pairing(left[1..], right[1..], tolerance, us, vs)
    ensures Distance(left[0], right[0]) <= tolerance
  {
    var zs := ys[i := ys[j]][j := ys[i]];
    ExchangeKeeps(xs, ys, tolerance, i, j);
    assert WithinEach(xs, zs, tolerance) && zs[i] == right[0];
    assert Distance(xs[i], zs[i]) <= tolerance;
    ExchangedMultiset(ys, i, j);
    WithoutBoth(xs, zs, tolerance, i);
    us, vs := Without(xs, i), Without(zs, i);
    hide WithinEach, Without;
    FirstLeaves(left, xs, i);
    FirstLeaves(right, zs, i);
  }

  lemma {:induction false} FirstLeaves(s: seq<real>, t: seq<real>, i: nat)
    requires multiset(t) == multiset(s) && s != [] && i < |t| && t[i] == s[0]
    ensures multiset(Without(t, i)) == multiset(s[1..])
  {
    WithoutRemoves(t, i);
    assert s == [s[0]] + s[1..];
  }

  lemma {:induction false} JoinedInOrder(left: seq<real>, right: seq<real>, tolerance: real)
    requires left != [] && right != [] && Distance(left[0], right[0]) <= tolerance
    requires WithinEach(left[1..], right[1..], tolerance)
    ensures WithinEach(left, right, tolerance)
  {
    forall k | 0 <= k < |left| ensures Distance(left[k], right[k]) <= tolerance {
      if k > 0 { assert left[k] == left[1..][k - 1] && right[k] == right[1..][k - 1]; }
    }
  }

  /** Any pairing of two ascending lists can be undone into the pairing in order. */
  lemma {:induction false} InOrderSuffices(left: seq<real>, right: seq<real>, tolerance: real, xs: seq<real>, ys: seq<real>)
    requires Ascending(left) && Ascending(right) && Pairing(left, right, tolerance, xs, ys)
    ensures WithinEach(left, right, tolerance)
    decreases |left|
  {
    SameMembers(xs, left);
    SameMembers(ys, right);
    if left != [] {
      assert left[0] in left && right[0] in right;
      var i :| 0 <= i < |xs| && xs[i] == left[0];
      var j :| 0 <= j < |ys| && ys[j] == right[0];
      LeastFirst(left, xs[j]);
      LeastFirst(right, ys[i]);
      var us, vs := MeetFirst(left, right, tolerance, xs, ys, i, j);
      InOrderSuffices(left[1..], right[1..], tolerance, us, vs);
      JoinedInOrder(left, right, tolerance);
    }
  }

  lemma {:induction false} LeastFirst(s: seq<real>, x: real)
    requires Ascending(s) && x in s
    ensures s[0] <= x
  {
  }

  /** Comparing in sorted order loses no match: it succeeds exactly when some one-to-one pairing does. */
  lemma {:induction false} MatchIffPairing(left: seq<real>, right: seq<real>, tolerance: real)
    ensures IntersectionsMatch(left, right, tolerance) <==> exists xs, ys :: Pairing(left, right, tolerance, xs, ys)
  {
    hide Sorted, WithinEach;
    SortedIsPermutation(left);
    SortedIsPermutation(right);
    WithinIsClose(Sorted(left), Sorted(right), tolerance);
    if IntersectionsMatch(left, right, tolerance) {
      assert Pairing(left, right, tolerance, Sorted(left), Sorted(right));
    }
    if xs, ys :| Pairing(left, right, tolerance, xs, ys) {
      InOrderSuffices(Sorted(left), Sorted(right), tolerance, xs, ys);
    }
  }

  // ---------- Probes ----------

  datatype Probe = Probe(name: string, occupied: bool, intersections: seq<real>)

  predicate SameProbe(a: Probe, b: Probe, tolerance: real) {
    a.name == b.name && a.occupied == b.occupied && IntersectionsMatch(a.intersections, b.intersections, tolerance)
  }

  ghost predicate Matchable(left: seq<real>, right: seq<real>, tolerance: real) {
    exists xs, ys :: Pairing(left, right, tolerance, xs, ys)
  }

  ghost predicate Alike(a: Probe, b: Probe, tolerance: real) {
    a.name == b.name && a.occupied == b.occupied && Matchable(a.intersections, b.intersections, tolerance)
  }

  lemma {:induction false} SameIffAlike(a: Probe, b: Probe, tolerance: real)
    ensures SameProbe(a, b, tolerance) <==> Alike(a, b, tolerance)
  {
    hide IntersectionsMatch, Pairing;
    MatchIffPairing(a.intersections, b.intersections, tolerance);
  }

  /** Probe lists agree exactly when they are equally long and agree position by position, each up to some pairing. */
  method CompareProbes(left: seq<Probe>, right: seq<Probe>, tolerance: real) returns (same: bool)
    ensures same <==> |left| == |right| && forall i :: 0 <= i < |left| ==> Alike(left[i], right[i], tolerance)
  {
    hide SameProbe, Alike;
    if |left| != |right| { return false; }
    for n := 0 to |left|
      invariant forall i :: 0 <= i < n ==> Alike(left[i], right[i], tolerance)
    {
      SameIffAlike(left[n], right[n], tolerance);
      if !SameProbe(left[n], right[n], tolerance) { return false; }
    }
    same := true;
  }
}
