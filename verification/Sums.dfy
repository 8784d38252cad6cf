/** Sums over the elements of a sequence, and what updating one element does to them. */
module Sums {
  ghost function Sum<T>(f: T -> nat, xs: seq<T>): nat {
    if xs == [] then 0 else f(xs[0]) + Sum(f, xs[1..])
  }

  lemma {:induction false} SumUpdate<T>(f: T -> nat, xs: seq<T>, i: nat, x: T)
    requires i < |xs|
    ensures Sum(f, xs[i := x]) + f(xs[i]) == Sum(f, xs) + f(x)
  {
    if i == 0 {
      assert xs[i := x][1..] == xs[1..];
    } else {
      assert xs[i := x][1..] == xs[1..][i - 1 := x];
      SumUpdate(f, xs[1..], i - 1, x);
    }
  }

  lemma {:induction false} SumConcat<T>(f: T -> nat, xs: seq<T>, ys: seq<T>)
    ensures Sum(f, xs + ys) == Sum(f, xs) + Sum(f, ys)
  {
    if xs == [] {
      assert xs + ys == ys;
    } else {
      assert (xs + ys)[1..] == xs[1..] + ys;
      SumConcat(f, xs[1..], ys);
    }
  }

  lemma SumSnoc<T>(f: T -> nat, xs: seq<T>, x: T)
    ensures Sum(f, xs + [x]) == Sum(f, xs) + f(x)
  {
    SumConcat(f, xs, [x]);
    assert Sum(f, [x]) == f(x) + Sum(f, []);
  }

  lemma {:induction false} SumAtLeast<T>(f: T -> nat, xs: seq<T>, i: nat)
    requires i < |xs|
    ensures f(xs[i]) <= Sum(f, xs)
  {
    if i > 0 {
      SumAtLeast(f, xs[1..], i - 1);
    }
  }

  lemma {:induction false} SumZero<T>(f: T -> nat, xs: seq<T>)
    requires forall x :: x in xs ==> f(x) == 0
    ensures Sum(f, xs) == 0
  {
    if xs != [] {
      SumZero(f, xs[1..]);
    }
  }

  lemma {:induction false} SumBound<T>(f: T -> nat, g: T -> nat, xs: seq<T>)
    requires forall x :: x in xs ==> f(x) <= g(x)
    ensures Sum(f, xs) <= Sum(g, xs)
  {
    if xs != [] {
      SumBound(f, g, xs[1..]);
    }
  }

  /** A positive sum has a positive element. */
  lemma {:induction false} SumWitness<T>(f: T -> nat, xs: seq<T>) returns (i: nat)
    requires Sum(f, xs) > 0
    ensures i < |xs| && f(xs[i]) > 0
  {
    if f(xs[0]) > 0 {
      i := 0;
    } else {
      i := SumWitness(f, xs[1..]);
      i := i + 1;
    }
  }

  ghost function Bag<T, U>(f: T -> multiset<U>, xs: seq<T>): multiset<U> {
    if xs == [] then multiset{} else f(xs[0]) + Bag(f, xs[1..])
  }

  lemma BagSwap<U>(a: multiset<U>, r: multiset<U>, b: multiset<U>, s: multiset<U>, c: multiset<U>)
    requires r + b == s + c
    ensures a + r + b == a + s + c
  {
    assert a + r + b == a + (r + b);
    assert a + s + c == a + (s + c);
  }

  lemma {:induction false} BagUpdate<T, U>(f: T -> multiset<U>, xs: seq<T>, i: nat, x: T)
    requires i < |xs|
    ensures Bag(f, xs[i := x]) + f(xs[i]) == Bag(f, xs) + f(x)
  {
    if i == 0 {
      assert xs[i := x][1..] == xs[1..];
    } else {
      assert xs[i := x][1..] == xs[1..][i - 1 := x];
      BagUpdate(f, xs[1..], i - 1, x);
      BagSwap(f(xs[0]), Bag(f, xs[i := x][1..]), f(xs[i]), Bag(f, xs[1..]), f(x));
    }
  }

  lemma {:induction false} BagConcat<T, U>(f: T -> multiset<U>, xs: seq<T>, ys: seq<T>)
    ensures Bag(f, xs + ys) == Bag(f, xs) + Bag(f, ys)
  {
    if xs == [] {
      assert xs + ys == ys;
    } else {
      assert (xs + ys)[1..] == xs[1..] + ys;
      BagConcat(f, xs[1..], ys);
    }
  }

  lemma {:induction false} BagAtLeast<T, U>(f: T -> multiset<U>, xs: seq<T>, i: nat)
    requires i < |xs|
    ensures f(xs[i]) <= Bag(f, xs)
  {
    if i > 0 {
      BagAtLeast(f, xs[1..], i - 1);
    }
  }

  lemma {:induction false} BagEmpty<T, U>(f: T -> multiset<U>, xs: seq<T>)
    requires forall x :: x in xs ==> f(x) == multiset{}
    ensures Bag(f, xs) == multiset{}
  {
    if xs != [] {
      BagEmpty(f, xs[1..]);
    }
  }

  /** Two different positions are both counted. */
  lemma {:induction false} BagAtLeastTwo<T, U>(f: T -> multiset<U>, xs: seq<T>, i: nat, j: nat)
    requires i < j < |xs|
    ensures f(xs[i]) + f(xs[j]) <= Bag(f, xs)
  {
    if i == 0 {
      BagAtLeast(f, xs[1..], j - 1);
    } else {
      BagAtLeastTwo(f, xs[1..], i - 1, j - 1);
    }
  }
}
