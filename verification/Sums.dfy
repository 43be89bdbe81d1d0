/** Finite sums over sets. */
module Sums {

  ghost function Sum<T(!new)>(s: set<T>, f: T -> real): real {
    if s == {} then 0.0 else
    var x :| x in s;
    f(x) + Sum(s - {x}, f)
  }

  /** The order of summation does not matter. */
  lemma {:induction false} SumRemove<T(!new)>(s: set<T>, f: T -> real, x: T)
    requires x in s
    ensures Sum(s, f) == f(x) + Sum(s - {x}, f)
    decreases s
  {
    var y :| y in s && Sum(s, f) == f(y) + Sum(s - {y}, f);
    if x != y {
      SumRemove(s - {y}, f, x);
      SumRemove(s - {x}, f, y);
      assert s - {x} - {y} == s - {y} - {x};
    }
  }

  lemma {:induction false} SumUnion<T(!new)>(a: set<T>, b: set<T>, f: T -> real)
    requires a !! b
    ensures Sum(a + b, f) == Sum(a, f) + Sum(b, f)
    decreases a
  {
    if a == {} {
      assert a + b == b;
    } else {
      var x :| x in a;
      SumUnion(a - {x}, b, f);
      SumRemove(a, f, x);
      SumRemove(a + b, f, x);
      assert a + b - {x} == (a - {x}) + b;
    }
  }

  lemma {:induction false} SumAdd<T(!new)>(s: set<T>, f: T -> real, a: T)
    requires a !in s
    ensures Sum(s + {a}, f) == Sum(s, f) + f(a) && |s + {a}| == |s| + 1
  {
    SumRemove(s + {a}, f, a);
    assert s + {a} - {a} == s;
  }

  lemma {:induction false} SumAddThree<T(!new)>(s: set<T>, f: T -> real, a: T, b: T, c: T)
    requires a !in s && b !in s && c !in s && a != b && b != c && a != c
    ensures Sum(s + {a, b, c}, f) == Sum(s, f) + f(a) + f(b) + f(c) && |s + {a, b, c}| == |s| + 3
  {
    var one := s + {a};
    var two := one + {b};
    SumAdd(s, f, a);
    SumAdd(one, f, b);
    SumAdd(two, f, c);
    assert s + {a, b, c} == two + {c};
  }

  /** A sum over pairs closed under swapping, of something a swap negates, cancels. */
  lemma {:induction false} SwapsCancel(s: set<(nat, nat)>, f: ((nat, nat)) -> real)
    requires forall e :: e in s ==> e.0 != e.1 && (e.1, e.0) in s
    requires forall u: nat, v: nat {:trigger f((u, v))} :: f((u, v)) + f((v, u)) == 0.0
    ensures Sum(s, f) == 0.0
    decreases s
  {
    if s != {} {
      var e :| e in s;
      var r := (e.1, e.0);
      SumRemove(s, f, e);
      SumRemove(s - {e}, f, r);
      SwapsCancel(s - {e} - {r}, f);
      assert f((e.0, e.1)) + f((e.1, e.0)) == 0.0;
    }
  }
}
