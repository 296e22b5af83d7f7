/**
 Stand-in for the library sort: it promises an ordered permutation and nothing about ties. Its contract is
 all that the other modules use of it.
 */
module Sorting {

  ghost predicate SortedBy<T(!new)>(xs: seq<T>, key: T -> int)
  {
    forall i, j :: 0 <= i < j < |xs| ==> key(xs[i]) <= key(xs[j])
  }

  method SortBy<T(!new)>(xs: seq<T>, key: T -> int) returns (ys: seq<T>)
    ensures SortedBy(ys, key)
    ensures multiset(ys) == multiset(xs)
    ensures |ys| == |xs|
  {
    ys := [];
    for i := 0 to |xs|
      invariant SortedBy(ys, key)
      invariant multiset(ys) == multiset(xs[..i])
      invariant |ys| == i
    {
      assert xs[..i + 1] == xs[..i] + [xs[i]];
      ys := Insert(ys, xs[i], key);
    }
    assert xs[..|xs|] == xs;
  }

  method Insert<T(!new)>(xs: seq<T>, x: T, key: T -> int) returns (ys: seq<T>)
    requires SortedBy(xs, key)
    ensures SortedBy(ys, key)
    ensures multiset(ys) == multiset(xs) + multiset{x}
    ensures |ys| == |xs| + 1
  {
    var k := |xs|;
    while k > 0 && key(xs[k - 1]) > key(x)
      invariant 0 <= k <= |xs|
      invariant forall j :: k <= j < |xs| ==> key(x) <= key(xs[j])
    {
      k := k - 1;
    }
    InsertAt(xs, x, key, k);
    InsertedElements(xs, x, k);
    ys := Inserted(xs, x, k);
  }

  function Inserted<T>(xs: seq<T>, x: T, k: nat): (ys: seq<T>)
    requires k <= |xs|
    ensures |ys| == |xs| + 1 && ys[k] == x
    ensures forall i :: 0 <= i < k ==> ys[i] == xs[i]
    ensures forall i :: k < i <= |xs| ==> ys[i] == xs[i - 1]
  {
    xs[..k] + [x] + xs[k..]
  }

  lemma InsertAt<T(!new)>(xs: seq<T>, x: T, key: T -> int, k: nat)
    requires SortedBy(xs, key) && k <= |xs|
    requires k > 0 ==> key(xs[k - 1]) <= key(x)
    requires forall j :: k <= j < |xs| ==> key(x) <= key(xs[j])
    ensures SortedBy(Inserted(xs, x, k), key)
  {
    var ys := Inserted(xs, x, k);
    forall i, j | 0 <= i < j < |ys|
      ensures key(ys[i]) <= key(ys[j])
    {
      if j <= k {
        if j == k { assert key(xs[i]) <= key(xs[k - 1]); }
      } else if i == k {
        assert key(x) <= key(xs[j - 1]);
      } else {
        assert key(xs[if i < k then i else i - 1]) <= key(xs[j - 1]);
      }
    }
  }

  lemma InsertedElements<T>(xs: seq<T>, x: T, k: nat)
    requires k <= |xs|
    ensures multiset(Inserted(xs, x, k)) == multiset(xs) + multiset{x}
  {
    assert xs == xs[..k] + xs[k..];
  }

  lemma SameElements<T>(xs: seq<T>, ys: seq<T>)
    requires multiset(xs) == multiset(ys)
    ensures forall x :: x in xs <==> x in ys
    ensures |xs| == |ys|
  {
    forall x
      ensures x in xs <==> x in ys
    {
      assert x in xs <==> x in multiset(xs);
      assert x in ys <==> x in multiset(ys);
    }
    assert |multiset(xs)| == |xs| && |multiset(ys)| == |ys|;
  }
}
