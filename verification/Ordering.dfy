/** Ordered iteration: the order in which an ordered set or the keys of an ordered map are visited. */
module Ordering {

  ghost predicate TotalOrder<T(!new)>(le: (T, T) -> bool) {
    && (forall x, y :: le(x, y) || le(y, x))
    && (forall x, y :: le(x, y) && le(y, x) ==> x == y)
    && (forall x, y, z :: le(x, y) && le(y, z) ==> le(x, z))
  }

  ghost predicate IsLeast<T>(x: T, s: set<T>, le: (T, T) -> bool) {
    x in s && forall y :: y in s ==> le(x, y)
  }

  lemma {:induction false} LeastExists<T(!new)>(s: set<T>, le: (T, T) -> bool)
    requires TotalOrder(le) && s != {}
    ensures exists x :: IsLeast(x, s, le)
    decreases |s|
  {
    var a :| a in s;
    var rest := s - {a};
    if rest == {} {
      assert s == {a};
      assert IsLeast(a, s, le);
    } else {
      LeastExists(rest, le);
      var b :| IsLeast(b, rest, le);
      var c := if le(a, b) then a else b;
      forall y | y in s ensures le(c, y) {
        assert y == a || y in rest;
      }
      assert IsLeast(c, s, le);
    }
  }

  function Least<T(==,!new)>(s: set<T>, le: (T, T) -> bool): (x: T)
    requires TotalOrder(le) && s != {}
    ensures IsLeast(x, s, le)
  {
    LeastExists(s, le);
    var x :| x in s && forall y :: y in s ==> le(x, y);
    x
  }

  /** The elements of `s`, each once, from the least to the greatest. */
  function Ascending<T(==,!new)>(s: set<T>, le: (T, T) -> bool): (r: seq<T>)
    requires TotalOrder(le)
    ensures |r| == |s|
    ensures forall x :: x in r <==> x in s
    ensures forall i, j :: 0 <= i < j < |r| ==> r[i] != r[j] && le(r[i], r[j])
    decreases |s|
  {
    if s == {} then [] else
    var x := Least(s, le);
    var rest := Ascending(s - {x}, le);
    assert forall y :: y in s <==> y == x || y in rest;
    [x] + rest
  }

  /** A strictly ascending sequence is determined by the elements it holds. */
  lemma {:induction false} AscendingIsUnique<T(!new)>(r: seq<T>, s: set<T>, le: (T, T) -> bool)
    requires TotalOrder(le)
    requires forall x :: x in r <==> x in s
    requires forall i, j :: 0 <= i < j < |r| ==> r[i] != r[j] && le(r[i], r[j])
    ensures r == Ascending(s, le)
    decreases |r|
  {
    if r == [] {
      assert s == {};
    } else {
      assert r[0] in s;
      assert IsLeast(r[0], s, le);
      assert Least(s, le) == r[0];
      RestHolds(r, s);
      AscendingIsUnique(r[1..], s - {r[0]}, le);
    }
  }

  lemma {:induction false} RestHolds<T(!new)>(r: seq<T>, s: set<T>)
    requires r != [] && (forall x :: x in r <==> x in s) && (forall i :: 0 < i < |r| ==> r[i] != r[0])
    ensures forall x :: x in r[1..] <==> x in s - {r[0]}
  {
    forall x ensures x in r[1..] <==> x in s - {r[0]} {
      if x in s && x != r[0] {
        var i :| 0 <= i < |r| && r[i] == x;
        assert r[1..][i - 1] == x;
      }
    }
  }
}
