/** Sums over sequences, and their independence of order. */
module Sums {
  function Total<T>(xs: seq<T>, f: T -> real): real {
    if xs == [] then 0.0 else f(xs[0]) + Total(xs[1..], f)
  }

  function Indicator<T>(p: T -> bool): T -> real {
    (x: T) => if p(x) then 1.0 else 0.0
  }

  /** How many elements satisfy p. */
  function Count<T>(xs: seq<T>, p: T -> bool): nat {
    if xs == [] then 0 else (if p(xs[0]) then 1 else 0) + Count(xs[1..], p)
  }

  lemma {:induction false} CountIsTotal<T>(xs: seq<T>, p: T -> bool)
    ensures Count(xs, p) as real == Total(xs, Indicator(p))
  {
    if xs != [] { CountIsTotal(xs[1..], p); }
  }

  lemma {:induction false} TotalConcat<T>(xs: seq<T>, ys: seq<T>, f: T -> real)
    ensures Total(xs + ys, f) == Total(xs, f) + Total(ys, f)
  {
    if xs == [] {
      assert xs + ys == ys;
    } else {
      TotalConcat(xs[1..], ys, f);
      assert (xs + ys)[1..] == xs[1..] + ys;
    }
  }

  lemma TotalAppend<T>(xs: seq<T>, x: T, f: T -> real)
    ensures Total(xs + [x], f) == Total(xs, f) + f(x)
  {
    TotalConcat(xs, [x], f);
    assert [x][1..] == [];
  }

  lemma TotalCons<T>(x: T, xs: seq<T>, f: T -> real)
    ensures Total([x] + xs, f) == f(x) + Total(xs, f)
  {
    assert ([x] + xs)[1..] == xs;
  }

  /** Taking out one element takes out its term. */
  lemma TotalRemove<T>(xs: seq<T>, i: nat, f: T -> real)
    requires i < |xs|
    ensures Total(xs, f) == f(xs[i]) + Total(xs[..i] + xs[i + 1..], f)
  {
    var before, after := xs[..i], xs[i + 1..];
    assert xs == before + ([xs[i]] + after);
    TotalCons(xs[i], after, f);
    TotalConcat(before, [xs[i]] + after, f);
    TotalConcat(before, after, f);
  }

  lemma SameLength<T>(xs: seq<T>, ys: seq<T>)
    requires multiset(xs) == multiset(ys)
    ensures |xs| == |ys|
  {
    assert |multiset(xs)| == |xs| && |multiset(ys)| == |ys|;
  }

  lemma WithoutHead<T>(xs: seq<T>, ys: seq<T>, i: nat)
    requires multiset(xs) == multiset(ys) && xs != [] && i < |ys| && ys[i] == xs[0]
    ensures multiset(xs[1..]) == multiset(ys[..i] + ys[i + 1..])
  {
    WithoutOne(xs, 0);
    WithoutOne(ys, i);
    assert xs[..0] + xs[1..] == xs[1..];
  }

  lemma {:induction false} TotalIgnoresOrder<T>(xs: seq<T>, ys: seq<T>, f: T -> real)
    requires multiset(xs) == multiset(ys)
    ensures Total(xs, f) == Total(ys, f)
    decreases |xs|
  {
    SameLength(xs, ys);
    if xs != [] {
      assert xs[0] in multiset(ys);
      var i :| 0 <= i < |ys| && ys[i] == xs[0];
      WithoutHead(xs, ys, i);
      TotalIgnoresOrder(xs[1..], ys[..i] + ys[i + 1..], f);
      TotalRemove(ys, i, f);
    }
  }

  lemma WithoutOne<T>(xs: seq<T>, i: nat)
    requires i < |xs|
    ensures multiset(xs[..i] + xs[i + 1..]) == multiset(xs) - multiset{xs[i]}
  {
    assert xs == xs[..i] + [xs[i]] + xs[i + 1..];
    assert multiset(xs) == multiset(xs[..i]) + multiset{xs[i]} + multiset(xs[i + 1..]);
  }

  lemma CountIgnoresOrder<T>(xs: seq<T>, ys: seq<T>, p: T -> bool)
    requires multiset(xs) == multiset(ys)
    ensures Count(xs, p) == Count(ys, p)
  {
    CountIsTotal(xs, p);
    CountIsTotal(ys, p);
    TotalIgnoresOrder(xs, ys, Indicator(p));
  }

  lemma CountConcat<T>(xs: seq<T>, ys: seq<T>, p: T -> bool)
    ensures Count(xs + ys, p) == Count(xs, p) + Count(ys, p)
  {
    CountIsTotal(xs, p);
    CountIsTotal(ys, p);
    CountIsTotal(xs + ys, p);
    TotalConcat(xs, ys, Indicator(p));
  }

  lemma CountAppend<T>(xs: seq<T>, x: T, p: T -> bool)
    ensures Count(xs + [x], p) == Count(xs, p) + if p(x) then 1 else 0
  {
    CountConcat(xs, [x], p);
    assert [x][1..] == [];
  }

  ghost predicate Distinct<T>(xs: seq<T>) {
    forall i, j | 0 <= i < j < |xs| :: xs[i] != xs[j]
  }

  lemma {:induction false} DistinctOccursOnce<T>(xs: seq<T>, x: T)
    requires Distinct(xs)
    ensures multiset(xs)[x] == if x in xs then 1 else 0
  {
    if xs != [] {
      DistinctOccursOnce(xs[1..], x);
      assert xs == [xs[0]] + xs[1..];
      assert xs[0] !in xs[1..];
    }
  }

  lemma SameElementsSameMultiset<T>(xs: seq<T>, ys: seq<T>)
    requires Distinct(xs) && Distinct(ys) && forall x :: x in xs <==> x in ys
    ensures multiset(xs) == multiset(ys)
  {
    forall x ensures multiset(xs)[x] == multiset(ys)[x] {
      DistinctOccursOnce(xs, x);
      DistinctOccursOnce(ys, x);
    }
  }
}
