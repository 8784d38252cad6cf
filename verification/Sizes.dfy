/** Sizes of finite sets. */
module Sizes {
  lemma {:induction false} SubsetSize<T>(a: set<T>, b: set<T>)
    requires a <= b
    ensures |a| <= |b|
    ensures |a| == |b| <==> a == b
    decreases a
  {
    if x :| x in a {
      SubsetSize(a - {x}, b - {x});
      assert a == (a - {x}) + {x} && b == (b - {x}) + {x};
    }
  }

  /** A set and its image under a function that keeps its elements apart. */
  lemma {:induction false} ImageSize<T, U>(f: T -> U, a: set<T>, b: set<U>)
    requires forall x :: x in a ==> f(x) in b
    requires forall x, y :: x in a && y in a && f(x) == f(y) ==> x == y
    requires forall u :: u in b ==> exists x :: x in a && f(x) == u
    ensures |a| == |b|
    decreases a
  {
    if x :| x in a {
      forall u | u in b - {f(x)}
        ensures exists y :: y in a - {x} && f(y) == u
      {
        var y :| y in a && f(y) == u;
        assert y in a - {x};
      }
      ImageSize(f, a - {x}, b - {f(x)});
    } else if u :| u in b {
      assert false;
    }
  }
}
