/** A sort by keys, which stands for std::sort and promises no order among equal keys. */
module Sorting {
  ghost predicate SortedBy<T(!new)>(xs: seq<T>, key: T -> int) {
    forall i, j :: 0 <= i < j < |xs| ==> key(xs[i]) <= key(xs[j])
  }

  lemma {:induction false} InsertionKeepsOrder<T(!new)>(xs: seq<T>, p: nat, x: T, key: T -> int)
    requires SortedBy(xs, key) && p <= |xs|
    requires forall i :: 0 <= i < p ==> key(xs[i]) <= key(x)
    requires p < |xs| ==> key(x) <= key(xs[p])
    ensures SortedBy(xs[..p] + [x] + xs[p..], key)
  {
    var r := xs[..p] + [x] + xs[p..];
    forall i, j | 0 <= i < j < |r| ensures key(r[i]) <= key(r[j]) {
      assert i < p ==> r[i] == xs[i];
      assert i > p ==> r[i] == xs[i - 1];
      assert j < p ==> r[j] == xs[j];
      assert j > p ==> r[j] == xs[j - 1];
    }
  }

  lemma {:induction false} InsertionAddsOne<T>(xs: seq<T>, p: nat, x: T)
    requires p <= |xs|
    ensures multiset(xs[..p] + [x] + xs[p..]) == multiset(xs) + multiset{x}
  {
    assert xs == xs[..p] + xs[p..];
  }

  method Insert<T(!new)>(xs: seq<T>, x: T, key: T -> int) returns (r: seq<T>)
    requires SortedBy(xs, key)
    ensures SortedBy(r, key) && multiset(r) == multiset(xs) + multiset{x}
  {
    var p := 0;
    while p < |xs| && key(xs[p]) <= key(x)
      invariant p <= |xs|
      invariant forall i :: 0 <= i < p ==> key(xs[i]) <= key(x)
    {
      p := p + 1;
    }
    InsertionKeepsOrder(xs, p, x, key);
    InsertionAddsOne(xs, p, x);
    r := xs[..p] + [x] + xs[p..];
  }

  lemma {:induction false} SameMembers<T>(xs: seq<T>, ys: seq<T>)
    requires multiset(xs) == multiset(ys)
    ensures forall x :: x in xs <==> x in ys
  {
    forall x ensures x in xs <==> x in ys {
      assert x in xs <==> x in multiset(xs);
      assert x in ys <==> x in multiset(ys);
    }
  }

  method Sort<T(!new)>(xs: seq<T>, key: T -> int) returns (r: seq<T>)
    ensures SortedBy(r, key) && multiset(r) == multiset(xs)
    ensures forall x :: x in r <==> x in xs
  {
    r := [];
    for n := 0 to |xs|
      invariant SortedBy(r, key) && multiset(r) == multiset(xs[..n])
    {
      assert xs[..n + 1] == xs[..n] + [xs[n]];
      r := Insert(r, xs[n], key);
    }
    assert xs[..|xs|] == xs;
    SameMembers(r, xs);
  }
}
