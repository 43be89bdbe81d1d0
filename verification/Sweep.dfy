/** The interval sweep over the fragments of a split edge, and its exact meaning. */
module Sweep {

  const EDGE_LENGTH_TOLERANCE: real := 0.000001

  /** A fragment projected on the axis of the selected edge, whose midpoint is 0. */
  datatype Interval = Interval(start: real, end: real)

  /** Holds whenever the fragments' lengths are not negative. */
  predicate Forward(s: seq<Interval>) {
    forall f :: f in s ==> f.start <= f.end
  }

  predicate ByStart(s: seq<Interval>) {
    forall i, j :: 0 <= i <= j < |s| ==> s[i].start <= s[j].start
  }

  /** Goes in front of everything that starts as early: building from the back, this is a stable sort. */
  function InsertByStart(x: Interval, s: seq<Interval>): (r: seq<Interval>)
    requires ByStart(s)
    ensures ByStart(r) && |r| == |s| + 1
    ensures forall y :: y in r <==> y == x || y in s
  {
    if s == [] || x.start <= s[0].start then [x] + s else
    var rest := InsertByStart(x, s[1..]);
    assert forall y :: y in rest ==> s[0].start <= y.start;
    [s[0]] + rest
  }

  function SortedByStart(s: seq<Interval>): (r: seq<Interval>)
    ensures ByStart(r) && |r| == |s|
    ensures forall y :: y in r <==> y in s
  {
    if s == [] then [] else InsertByStart(s[0], SortedByStart(s[1..]))
  }

  lemma {:induction false} InsertAdds(x: Interval, s: seq<Interval>)
    requires ByStart(s)
    ensures multiset(InsertByStart(x, s)) == multiset(s) + multiset{x}
  {
    if s != [] && x.start > s[0].start {
      InsertAdds(x, s[1..]);
      assert s == [s[0]] + s[1..];
    }
  }

  lemma {:induction false} SortedIsPermutation(s: seq<Interval>)
    ensures multiset(SortedByStart(s)) == multiset(s)
  {
    if s != [] {
      SortedIsPermutation(s[1..]);
      InsertAdds(s[0], SortedByStart(s[1..]));
      assert s == [s[0]] + s[1..];
    }
  }

  function Larger(a: real, b: real): real { if a < b then b else a }

  /** The furthest end among the first `n` intervals. */
  function Reach(s: seq<Interval>, n: nat): (r: real)
    requires 1 <= n <= |s|
  {
    if n == 1 then s[0].end else Larger(Reach(s, n - 1), s[n - 1].end)
  }

  lemma {:induction false} ReachIsFurthest(s: seq<Interval>, n: nat)
    requires 1 <= n <= |s|
    ensures exists i :: 0 <= i < n && s[i].end == Reach(s, n)
    ensures forall i :: 0 <= i < n ==> s[i].end <= Reach(s, n)
  {
    if n == 1 {
      assert s[0].end == Reach(s, n);
    } else {
      ReachIsFurthest(s, n - 1);
      var i :| 0 <= i < n - 1 && s[i].end == Reach(s, n - 1);
      var k := if s[i].end < s[n - 1].end then n - 1 else i;
      assert s[k].end == Reach(s, n);
    }
  }

  /** Among the first `n`, none starts beyond the tolerance after everything before it has ended. */
  predicate NoGapBefore(s: seq<Interval>, n: nat)
    requires n <= |s|
  {
    forall m :: 1 <= m < n ==> s[m].start <= Reach(s, m) + EDGE_LENGTH_TOLERANCE
  }

  predicate NoGap(s: seq<Interval>) { NoGapBefore(s, |s|) }

  predicate SweptAccepted(s: seq<Interval>, half: real) {
    && |s| >= 2
    && s[0].start <= -half + EDGE_LENGTH_TOLERANCE
    && NoGap(s)
    && half - EDGE_LENGTH_TOLERANCE <= Reach(s, |s|)
  }

  predicate Accepted(kept: seq<Interval>, half: real) {
    SweptAccepted(SortedByStart(kept), half)
  }

  /** The sweep of the program: sort by start, then extend the covered end from left to right. */
  method SweepIntervals(kept: seq<Interval>, half: real) returns (r: bool)
    ensures r == Accepted(kept, half)
  {
    if |kept| < 2 { return false; }
    r := SweepSorted(SortedByStart(kept), half);
  }

  method SweepSorted(s: seq<Interval>, half: real) returns (r: bool)
    requires |s| >= 2
    ensures r == SweptAccepted(s, half)
  {
    if s[0].start > -half + EDGE_LENGTH_TOLERANCE { return false; }
    var coveredEnd := s[0].end;
    for n := 1 to |s|
      invariant coveredEnd == Reach(s, n)
      invariant NoGapBefore(s, n)
    {
      if s[n].start > coveredEnd + EDGE_LENGTH_TOLERANCE { return false; }
      coveredEnd := Larger(coveredEnd, s[n].end);
    }
    r := coveredEnd >= half - EDGE_LENGTH_TOLERANCE;
  }

  // ---------- What the sweep decides, with no mention of order ----------

  ghost predicate StartsFirst(s: seq<Interval>, f: Interval) {
    forall g :: g in s ==> f.start <= g.start
  }

  ghost predicate ReachedByEarlier(s: seq<Interval>, f: Interval) {
    exists g :: g in s && g.start < f.start && f.start <= g.end + EDGE_LENGTH_TOLERANCE
  }

  /** `f` starts first of all, or not beyond the tolerance after the end of something that starts before it. */
  ghost predicate Linked(s: seq<Interval>, f: Interval) {
    StartsFirst(s, f) || ReachedByEarlier(s, f)
  }

  /** `f` does not end more than the tolerance before it starts. */
  predicate ReachesStart(f: Interval) { f.start <= f.end + EDGE_LENGTH_TOLERANCE }

  ghost predicate Reconstructs(s: seq<Interval>, half: real) {
    && |s| >= 2
    && (exists f :: f in s && f.start <= -half + EDGE_LENGTH_TOLERANCE)
    && (exists f :: f in s && half - EDGE_LENGTH_TOLERANCE <= f.end)
    && (forall f :: f in s ==> Linked(s, f))
  }

  lemma {:induction false} FirstWithStart(s: seq<Interval>, m: nat) returns (k: nat)
    requires ByStart(s) && m < |s|
    ensures k <= m && s[k].start == s[m].start && forall j :: 0 <= j < k ==> s[j].start < s[k].start
  {
    if m == 0 || s[m - 1].start < s[m].start { k := m; } else { k := FirstWithStart(s, m - 1); }
  }

  lemma {:induction false} NoGapLinks(s: seq<Interval>, m: nat)
    requires ByStart(s) && NoGap(s) && m < |s|
    ensures Linked(s, s[m])
  {
    var k := FirstWithStart(s, m);
    if k == 0 {
      assert StartsFirst(s, s[m]);
    } else {
      ReachIsFurthest(s, k);
      var i :| 0 <= i < k && s[i].end == Reach(s, k);
      assert s[i] in s && s[i].start < s[m].start;
      assert ReachedByEarlier(s, s[m]);
    }
  }

  lemma {:induction false} LinkedLeavesNoGap(s: seq<Interval>, m: nat)
    requires ByStart(s) && 1 <= m < |s| && ReachesStart(s[0]) && Linked(s, s[m])
    ensures s[m].start <= Reach(s, m) + EDGE_LENGTH_TOLERANCE
  {
    ReachIsFurthest(s, m);
    if StartsFirst(s, s[m]) {
      assert s[0] in s;
    } else {
      var g :| g in s && g.start < s[m].start && s[m].start <= g.end + EDGE_LENGTH_TOLERANCE;
      var j :| 0 <= j < |s| && s[j] == g;
    }
  }

  lemma {:induction false} SameLinks(a: seq<Interval>, b: seq<Interval>, f: Interval)
    requires forall y :: y in a <==> y in b
    ensures Linked(a, f) <==> Linked(b, f)
  {
  }

  /** `Reconstructs` speaks of the members only. */
  lemma {:induction false} SameReconstructs(a: seq<Interval>, b: seq<Interval>, half: real)
    requires |a| == |b| && forall y :: y in a <==> y in b
    ensures Reconstructs(a, half) <==> Reconstructs(b, half)
  {
    hide Linked;
    forall f ensures Linked(a, f) <==> Linked(b, f) { SameLinks(a, b, f); }
  }

  lemma {:induction false} SweptIffReconstructs(s: seq<Interval>, half: real)
    requires ByStart(s) && s != []
    ensures SweptAccepted(s, half) <==> Reconstructs(s, half) && ReachesStart(s[0])
  {
    hide Linked;
    ReachIsFurthest(s, |s|);
    if SweptAccepted(s, half) {
      SweptReconstructs(s, half);
    }
    if Reconstructs(s, half) && ReachesStart(s[0]) {
      hide ReachesStart;
      forall m | 1 <= m < |s| ensures s[m].start <= Reach(s, m) + EDGE_LENGTH_TOLERANCE {
        LinkedLeavesNoGap(s, m);
      }
    }
  }

  lemma {:induction false} SweptReconstructs(s: seq<Interval>, half: real)
    requires ByStart(s) && SweptAccepted(s, half)
    ensures Reconstructs(s, half) && ReachesStart(s[0])
  {
    hide Linked;
    assert s[1].start <= Reach(s, 1) + EDGE_LENGTH_TOLERANCE;
    ReachIsFurthest(s, |s|);
    assert s[0] in s;
    var e :| 0 <= e < |s| && s[e].end == Reach(s, |s|);
    assert s[e] in s;
    forall f | f in s ensures Linked(s, f) {
      var m :| 0 <= m < |s| && s[m] == f;
      NoGapLinks(s, m);
    }
  }

  /** Of the fragments that start first, the one given first: the sort is stable. */
  function First(kept: seq<Interval>): Interval
    requires kept != []
  {
    SortedByStart(kept)[0]
  }

  lemma {:induction false} FirstStartsFirst(kept: seq<Interval>)
    requires kept != []
    ensures First(kept) in kept && StartsFirst(kept, First(kept))
  {
    var s := SortedByStart(kept);
    assert s[0] in s;
    forall g | g in kept ensures s[0].start <= g.start {
      var i :| 0 <= i < |s| && s[i] == g;
    }
  }

  lemma {:induction false} FrontIsFirst(f: Interval, rest: seq<Interval>)
    requires StartsFirst([f] + rest, f)
    ensures First([f] + rest) == f
  {
    assert ([f] + rest)[1..] == rest;
    var s := SortedByStart(rest);
    if s != [] { assert s[0] in rest && s[0] in [f] + rest; }
  }

  /** What the sweep decides, for any fragments: an order-free property, and that the very first one reaches its start. */
  lemma {:induction false} AcceptedIffReconstructs(kept: seq<Interval>, half: real)
    ensures Accepted(kept, half) <==> |kept| >= 2 && Reconstructs(kept, half) && ReachesStart(First(kept))
  {
    hide Linked, SweptAccepted, Reconstructs, ReachesStart;
    if kept != [] {
      var s := SortedByStart(kept);
      SweptIffReconstructs(s, half);
      SameReconstructs(s, kept, half);
    }
    if |kept| < 2 { TooFew(kept, half); }
  }

  lemma {:induction false} TooFew(kept: seq<Interval>, half: real)
    requires |kept| < 2
    ensures !Accepted(kept, half) && !Reconstructs(kept, half)
  {
  }

  // ---------- When the order of the fragments matters ----------

  /** Among the fragments that start first one reaches its start and another does not, and nothing else is missing. */
  ghost predicate Tie(kept: seq<Interval>, half: real) {
    Reconstructs(kept, half) && exists f, g :: StartsTogether(kept, f, g) && ReachesStart(f) && !ReachesStart(g)
  }

  ghost predicate StartsTogether(kept: seq<Interval>, f: Interval, g: Interval) {
    f in kept && g in kept && StartsFirst(kept, f) && StartsFirst(kept, g)
  }

  /** Without a tie the order never matters. */
  lemma {:induction false} OrderNeverMatters(a: seq<Interval>, b: seq<Interval>, half: real)
    requires !Tie(a, half) && |a| == |b| && forall y :: y in a <==> y in b
    ensures Accepted(a, half) <==> Accepted(b, half)
  {
    hide Linked, SweptAccepted, Reconstructs, ReachesStart;
    AcceptedIffReconstructs(a, half);
    AcceptedIffReconstructs(b, half);
    SameReconstructs(a, b, half);
    if a != [] {
      FirstStartsFirst(a);
      FirstStartsFirst(b);
      assert StartsTogether(a, First(a), First(b)) && StartsTogether(a, First(b), First(a));
    }
  }

  /** With one it always does: whichever of the two is given first decides. */
  lemma {:induction false} FrontDecides(kept: seq<Interval>, f: Interval, rest: seq<Interval>, half: real)
    requires Reconstructs(kept, half) && StartsFirst(kept, f)
    requires |[f] + rest| == |kept| && forall y :: y in [f] + rest <==> y in kept
    ensures Accepted([f] + rest, half) <==> ReachesStart(f)
  {
    hide Linked, SweptAccepted, ReachesStart;
    SameReconstructs([f] + rest, kept, half);
    FrontIsFirst(f, rest);
    AcceptedIffReconstructs([f] + rest, half);
  }

  ghost predicate Permuted(a: seq<Interval>, b: seq<Interval>) { multiset(a) == multiset(b) }

  lemma {:induction false} PermutedMembers(a: seq<Interval>, b: seq<Interval>)
    requires Permuted(a, b)
    ensures |a| == |b| && forall y :: y in a <==> y in b
  {
    assert |multiset(a)| == |a| && |multiset(b)| == |b|;
    forall y ensures y in a <==> y in b { assert y in multiset(a) <==> y in multiset(b); }
  }

  lemma {:induction false} BroughtToFront(kept: seq<Interval>, f: Interval) returns (rest: seq<Interval>)
    requires f in kept
    ensures Permuted(kept, [f] + rest)
  {
    var i :| 0 <= i < |kept| && kept[i] == f;
    rest := kept[..i] + kept[i + 1..];
    assert kept == kept[..i] + [f] + kept[i + 1..];
  }

  /** The order of the fragments matters exactly when there is a tie. */
  lemma {:induction false} OrderMattersIff(kept: seq<Interval>, half: real)
    ensures (exists b :: Permuted(kept, b) && Accepted(b, half) != Accepted(kept, half)) <==> Tie(kept, half)
  {
    hide Accepted, Reconstructs, StartsFirst, ReachesStart, Permuted;
    if !Tie(kept, half) {
      forall b | Permuted(kept, b) ensures Accepted(b, half) == Accepted(kept, half) {
        PermutedMembers(kept, b);
        OrderNeverMatters(kept, b, half);
      }
    } else {
      var f, g :| StartsTogether(kept, f, g) && ReachesStart(f) && !ReachesStart(g);
      var x := if Accepted(kept, half) then g else f;
      var rest := BroughtToFront(kept, x);
      PermutedMembers(kept, [x] + rest);
      FrontDecides(kept, x, rest, half);
    }
  }

  lemma {:induction false} ForwardHasNoTie(kept: seq<Interval>, half: real)
    requires Forward(kept)
    ensures !Tie(kept, half)
  {
  }

  // ---------- What acceptance means for the points of the edge ----------

  /** `x` is on the interval, give or take the tolerance. */
  ghost predicate Near(f: Interval, x: real) {
    f.start - EDGE_LENGTH_TOLERANCE <= x <= f.end + EDGE_LENGTH_TOLERANCE
  }

  lemma {:induction false} SweptPoints(s: seq<Interval>, half: real, n: nat, x: real) returns (f: Interval)
    requires NoGap(s) && 1 <= n <= |s| && s[0].start <= -half + EDGE_LENGTH_TOLERANCE
    requires -half <= x <= Reach(s, n) + EDGE_LENGTH_TOLERANCE
    ensures f in s && Near(f, x)
  {
    if n == 1 {
      f := s[0];
    } else if x <= Reach(s, n - 1) + EDGE_LENGTH_TOLERANCE {
      f := SweptPoints(s, half, n - 1, x);
    } else {
      f := s[n - 1];
    }
  }

  /** Sound: when the sweep accepts, every point of the edge is within the tolerance of some kept fragment. */
  lemma {:induction false} AcceptedCovers(kept: seq<Interval>, half: real, x: real)
    requires Accepted(kept, half) && -half <= x <= half
    ensures exists f :: f in kept && Near(f, x)
  {
    var s := SortedByStart(kept);
    var f := SweptPoints(s, half, |s|, x);
  }

  ghost predicate Inside(s: seq<Interval>, half: real) {
    forall f :: f in s ==> -half <= f.start <= half && f.end <= half
  }

  ghost predicate CoveredAt(s: seq<Interval>, x: real) {
    exists f :: f in s && f.start <= x <= f.end
  }

  ghost predicate Covers(s: seq<Interval>, half: real) {
    forall x: real :: -half <= x <= half ==> CoveredAt(s, x)
  }

  /** Just before the start of a fragment that nothing earlier reaches there would be a gap. */
  lemma {:induction false} CoverLinks(s: seq<Interval>, half: real, f: Interval)
    requires Inside(s, half) && Covers(s, half) && f in s
    ensures Linked(s, f)
  {
    if !StartsFirst(s, f) {
      var g :| g in s && g.start < f.start;
      var x := if f.start - g.start < EDGE_LENGTH_TOLERANCE then (g.start + f.start) / 2.0
               else f.start - EDGE_LENGTH_TOLERANCE / 2.0;
      assert CoveredAt(s, x);
      var c :| c in s && c.start <= x <= c.end;
      assert ReachedByEarlier(s, f);
    }
  }

  lemma {:induction false} CoverReconstructs(kept: seq<Interval>, half: real)
    requires |kept| >= 2 && Inside(kept, half) && Covers(kept, half)
    ensures Reconstructs(kept, half)
  {
    hide Linked;
    assert kept[0] in kept;
    assert CoveredAt(kept, -half) && CoveredAt(kept, half);
    forall f | f in kept ensures Linked(kept, f) { CoverLinks(kept, half, f); }
  }

  /** Complete: at least two fragments that lie inside the edge and cover it are accepted exactly when the first of
      them reaches its start, so always when no length is negative. */
  lemma {:induction false} CoveringAccepted(kept: seq<Interval>, half: real)
    requires |kept| >= 2 && Inside(kept, half) && Covers(kept, half)
    ensures Accepted(kept, half) <==> ReachesStart(First(kept))
    ensures Forward(kept) ==> Accepted(kept, half)
  {
    hide Accepted, Reconstructs, Inside, Covers;
    CoverReconstructs(kept, half);
    AcceptedIffReconstructs(kept, half);
    FirstStartsFirst(kept);
  }
}
